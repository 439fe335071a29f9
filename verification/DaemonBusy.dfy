/** A task that is busy is left alone by everything but its own checks. */
module DaemonBusy {
  import opened TaskRecord
  import opened TaskCreate
  import opened Tokens
  import opened StatusFile
  import opened DaemonState
  import opened Registry
  import opened DaemonInv
  import opened DaemonSteps
  import opened DaemonFiles
  import opened DaemonCommands
  import opened DaemonRun

  /** The same task, but for the time of its next check. */
  ghost predicate Waits<P>(h: map<P, Task>, h': map<P, Task>, p: P) {
    p in h && p in h' && h'[p] == h[p].(chkTime := h'[p].chkTime)
  }

  lemma WaitsSelf<P>(s: State<P>, p: P)
    requires p in s.heap
    ensures Waits(s.heap, s.heap, p)
  {
  }

  lemma WaitsFrom<P>(h: map<P, Task>, h': map<P, Task>, p: P)
    requires p in h && p in h' && h'[p] == h[p].(chkTime := h'[p].chkTime)
    ensures Waits(h, h', p)
  {
  }

  lemma RecordKept<P>(s: State<P>, p: P, clock: int, interval: int)
    requires p in s.heap
    ensures p in Reschedule(s, p, clock, interval).heap
    ensures var t := Reschedule(s, p, clock, interval).heap[p]; t == s.heap[p].(chkTime := t.chkTime)
  {
    hide QueueByCheck, Without, NextChkTime;
  }

  /** A busy task that is not running is not started, stopped or deleted. */
  lemma BusyRefused<P>(s: State<P>, key: Key, e: Env)
    requires FindTask(s, key.name).Some?
    requires var t := TaskOf(s.heap, FindTask(s, key.name).value); IsBusy(t) && !IsRunning(t)
    ensures StartTask(s, key, e).0 != Ok && StartTask(s, key, e).1 == s
    ensures StopTask(s, key, e).0 != Ok && StopTask(s, key, e).1 == s
    ensures DeleteTask(s, key, e).0 != Ok && DeleteTask(s, key, e).1 == s
  {
    hide KeyOk, FindTask, Reschedule, DeleteFiles, IsBusy, IsRunning;
  }

  lemma StartStopWaits<P>(s: State<P>, key: Key, e: Env, p: P, w: World)
    requires Inv(s, w) && p in s.heap
    ensures Waits(s.heap, StartTask(s, key, e).1.heap, p) && Waits(s.heap, StopTask(s, key, e).1.heap, p)
  {
    hide Inv, KeyOk, FindTask, Reschedule, IsBusy, IsRunning, InOrder, Holds, RunOrder, TasksOk, OnDisk, AllSavedOk;
    InvParts(s, w);
    LookUp(s, key.name);
    if FindTask(s, key.name).Some? {
      RescheduleFrame(s, FindTask(s, key.name).value, e.later, 0);
      RecordKept(s, FindTask(s, key.name).value, e.later, 0);
    }
  }

  lemma DeleteWaits<P>(s: State<P>, key: Key, e: Env, p: P, w: World)
    requires Inv(s, w) && p in s.heap && IsBusy(s.heap[p])
    ensures Waits(s.heap, DeleteTask(s, key, e).1.heap, p)
  {
    hide *;
    InvParts(s, w);
    LookUp(s, key.name);
    DeleteTaskIs(s, key, e);
    WaitsSelf(s, p);
    var found := FindTask(s, key.name);
    if KeyOk(key) && s.connOk && found.Some? {
      TaskOfIs(s.heap, found.value);
      if !IsBusy(s.heap[found.value]) && e.deleteOk {
        DeleteCommitted(s, found.value, e, w);
        OthersWait(s.heap, found.value, p, Cleared(s.heap[found.value], e).(chkType := ChkDeleted));
      }
    }
  }

  lemma OthersWait<P>(h: map<P, Task>, q: P, p: P, t: Task)
    requires p in h && p != q
    ensures Waits(h, h - {q}, p) && Waits(h, h[q := t], p)
  {
  }

  lemma CreateWaits<P>(s: State<P>, q: P, param: CreateParam, e: Env, p: P, w: World)
    requires Inv(s, w) && q !in s.heap && InBuffers(param) && IsTimestamp(e.stamp) && ClockOk(e, w) && p in s.heap
    ensures Waits(s.heap, CreateTask(s, q, param, e).1.heap, p)
  {
    CreateTaskKeeps(s, q, param, e, w);
    hide Inv, CreateTask, InBuffers, IsTimestamp, ClockOk, Registered;
  }

  /** Commands, connection tests and the like change nothing about a busy task but the time of its next check. */
  lemma CommandsWait<P>(s: State<P>, ev: Event<P>, p: P, w: World)
    requires Inv(s, w) && Legal(s, ev, w) && !ev.Check? && p in s.heap && IsBusy(s.heap[p])
    ensures Waits(s.heap, Act(s, ev).heap, p)
  {
    hide Inv, ClockOk, CreateTask, StartTask, StopTask, DeleteTask, InBuffers, IsTimestamp, IsBusy;
    match ev {
      case Create(q, param, e) => CreateWaits(s, q, param, e, p, w);
      case Start(key, e) => StartStopWaits(s, key, e, p, w);
      case Stop(key, e) => StartStopWaits(s, key, e, p, w);
      case Delete(key, e) => DeleteWaits(s, key, e, p, w);
      case Pinged(ok) =>
      case Restart(_, _, _) =>
    }
  }
}
