/** What the events of a run bring about: commands, tests of the connection, restarts. */
module DaemonEvents {
  import opened Wrappers
  import opened Ordering
  import opened TaskRecord
  import opened TaskCreate
  import opened Tokens
  import opened Results
  import opened StatusFile
  import opened DaemonState
  import opened DaemonInv
  import opened DaemonSteps
  import opened DaemonCommands
  import opened DaemonEffects
  import opened DaemonAnswers
  import opened DaemonBoot
  import opened DaemonRun

  // ----- commands

  /** A running daemon that starts or stops a task makes its next check due at once; one that deletes a task forgets it or
      marks it; one that refuses the command stays as it is. */
  lemma CommandsTakeEffect<P>(s: State<P>, p: P, key: Key, e: Env, w: World)
    requires Inv(s, w) && p in s.heap && s.heap[p].rec.taskName == key.name
    ensures var started, stopped, deleted := Step(Up(s), Start(key, e)), Step(Up(s), Stop(key, e)), Step(Up(s), Delete(key, e));
      && started.Up? && stopped.Up? && deleted.Up?
      && (if StartTask(s, key, e).0 == Ok then Changed(s, started.state, p, s.heap[p].(chkTime := 0)) else started.state == s)
      && (if StopTask(s, key, e).0 == Ok then Changed(s, stopped.state, p, s.heap[p].(chkTime := 0)) else stopped.state == s)
      && (if DeleteTask(s, key, e).0 == Ok then
            if Erasable(s, p, e) then deleted.state.heap == s.heap - {p}
            else p in deleted.state.heap && deleted.state.heap[p].chkType == ChkDeleted
          else deleted.state == s)
  {
    hide Inv, StartTask, StopTask, DeleteTask, Erasable, Changed;
    StartStopEffect(s, key, e, w);
    DeleteEffect(s, p, key, e, w);
  }

  /** A running daemon that creates a task knows it afterwards, with all others as they were, and otherwise no other tasks. */
  lemma CreationTakesEffect<P>(s: State<P>, p: P, param: CreateParam, e: Env, w: World)
    requires Inv(s, w) && p !in s.heap && InBuffers(param) && IsTimestamp(e.stamp) && ClockOk(e, w)
    ensures var d := Step(Up(s), Create(p, param, e));
      && d.Up?
      && (CreateTask(s, p, param, e).0 == Ok ==>
            p in d.state.heap && d.state.heap == s.heap[p := d.state.heap[p]] && d.state.heap[p].rec.taskName == param.name)
      && (CreateTask(s, p, param, e).0 != Ok ==> d.state.heap == s.heap && d.state.file == s.file)
  {
    hide Inv, InBuffers, IsTimestamp, ClockOk, CreateTask, Registered;
    CreateTaskKeeps(s, p, param, e, w);
  }

  // ----- what tasks are like after a start

  /** Scheduling gives every queued task its first check after the longest interval, and changes nothing else. */
  lemma {:induction false} ScheduledTasks<P>(s: State<P>, q: seq<P>, now: int)
    requires Distinct(q) && forall p | p in q :: p in s.heap
    ensures var s' := ScheduleAll(s, q, now);
      && s'.heap.Keys == s.heap.Keys && s'.connOk == s.connOk
      && forall p | p in s.heap :: s'.heap[p] == if p in q then s.heap[p].(chkTime := now + 300) else s.heap[p]
    decreases |q|
  {
    hide QueueByCheck, Distinct;
    if |q| > 0 {
      DistinctTail(q, {});
      ScheduledTasks(AddRun(SetTask(s, q[0], TaskOf(s.heap, q[0]).(chkTime := NextChkTime(now, Interval(ChkTask)))), q[0]),
                     q[1..], now);
    }
  }

  /** The status that a file keeps for a task, if there is a file with one. */
  function StatusOnFile(saved: map<string, string>, id: string): Option<Saved> {
    if id in saved && ParseStatus(saved[id], id).Some? then ParseStatus(saved[id], id).value else None
  }

  lemma LoadedFields(r: Record, saved: map<string, string>, now: int)
    ensures Load(NewTask(r), saved).(chkTime := now + 300) ==
      match StatusOnFile(saved, r.taskId)
      case Some(v) => Task(r, v.status, v.progress, 0, 0, v.startTime, v.stopTime, v.curReport, v.lastReport,
                           Info(-1, 1, 10, false, []), v.chkType, now + 300)
      case None => Task(r, Created, 0, 0, 0, "", "", "", "", Info(-1, 1, 10, false, []), ChkTask, now + 300)
  {
    hide ParseStatus;
  }

  lemma LoadAllIs<P>(heap: map<P, Task>, saved: map<string, string>)
    ensures var h := LoadAll(heap, saved);
      h.Keys == heap.Keys && forall p | p in heap :: h[p] == Load(heap[p], saved)
  {
    hide Load;
  }

  lemma PrefixDistinct<P>(ps: seq<P>, n: nat)
    requires Distinct(ps) && n <= |ps|
    ensures Distinct(ps[..n])
  {
  }

  /** After a start each task has the record of the file, the status, phase, progress, times and report ids of its status
      file, if there is one, and nothing else from before. Its first check is due after the longest interval, and commands
      are refused until the connection has been tested. */
  lemma RestartEffect<P>(file: string, saved: map<string, string>, ps: seq<P>, memory: bool, now: int, w: World)
    requires FilesOk(file, saved, w) && Distinct(ps)
    requires Boot(file, saved, ps, memory, now).Some?
    ensures var s := Boot(file, saved, ps, memory, now).value;
      && !s.connOk
      && forall p | p in s.heap ::
           var t := s.heap[p];
           && t.rec in ParseFile(file).value
           && match StatusOnFile(saved, t.rec.taskId)
              case Some(v) =>
                t == Task(t.rec, v.status, v.progress, 0, 0, v.startTime, v.stopTime, v.curReport, v.lastReport,
                          Info(-1, 1, 10, false, []), v.chkType, now + 300)
              case None =>
                t == Task(t.rec, Created, 0, 0, 0, "", "", "", "", Info(-1, 1, 10, false, []), ChkTask, now + 300)
  {
    hide *;
    FilesOkParts(file, saved, w);
    var rs := ParseFile(file).value;
    BootIs<P>(file, saved, ps, memory, now, rs);
    var s0 := Empty<P>(file, saved);
    AddAllMemory(s0, ps, rs, memory);
    EmptyInOrder<P>(file, saved, rs, ps);
    NotConnected<P>(file, saved);
    AddAllInOrder(s0, ps, rs);
    var s1 := AddAll(s0, ps, rs, true).value;
    var s2 := s1.(heap := LoadAll(s1.heap, saved));
    LoadAllIs(s1.heap, saved);
    PrefixDistinct(ps, |rs|);
    assert s1.createque == ps[..|rs|];
    TasksOf(s1.heap, ps, rs);
    ScheduledTasks(s2, s1.createque, now);
    var s := ScheduleAll(s2, s1.createque, now);
    forall p | p in s.heap
      ensures var t := s.heap[p];
        && t.rec in rs
        && t == match StatusOnFile(saved, t.rec.taskId)
                case Some(v) => Task(t.rec, v.status, v.progress, 0, 0, v.startTime, v.stopTime, v.curReport, v.lastReport,
                                     Info(-1, 1, 10, false, []), v.chkType, now + 300)
                case None =>
                  Task(t.rec, Created, 0, 0, 0, "", "", "", "", Info(-1, 1, 10, false, []), ChkTask, now + 300)
    {
      var r :| r in rs && s1.heap[p] == NewTask(r);
      LoadedFields(r, saved, now);
    }
  }

  lemma NotConnected<P>(file: string, saved: map<string, string>)
    ensures !Empty<P>(file, saved).connOk
  {
  }

  lemma TasksOf<P>(heap: map<P, Task>, ps: seq<P>, rs: seq<Record>)
    requires |ps| >= |rs| && heap.Keys == Elems(ps[..|rs|])
    requires forall i | 0 <= i < |rs| :: ps[i] in heap && heap[ps[i]] == NewTask(rs[i])
    ensures forall p | p in ps[..|rs|] :: p in heap
    ensures forall p | p in heap :: p in ps[..|rs|] && exists r :: r in rs && heap[p] == NewTask(r)
  {
    hide NewTask;
    forall p | p in heap ensures p in ps[..|rs|] && exists r :: r in rs && heap[p] == NewTask(r) {
      var i :| 0 <= i < |ps[..|rs|]| && ps[..|rs|][i] == p;
      assert ps[i] == p && rs[i] in rs;
    }
  }

  /** A task whose status has been written is after a restart where it was before, but for its counts, its fetched results and
      its check time. */
  lemma RestartRemembers<P>(s: State<P>, t: Task, ps: seq<P>, memory: bool, now: int, p: P, w: World)
    requires Inv(s, w) && Distinct(ps)
    requires t.rec.taskId in s.saved && s.saved[t.rec.taskId] == EncodeStatus(t.rec.taskId,
      Saved(t.startTime, t.stopTime, t.status, t.chkType, t.progress, t.curReport, t.lastReport))
    requires IsUuid(t.rec.taskId)
    requires Readable(Saved(t.startTime, t.stopTime, t.status, t.chkType, t.progress, t.curReport, t.lastReport))
    requires Boot(s.file, s.saved, ps, memory, now).Some?
    requires var s' := Boot(s.file, s.saved, ps, memory, now).value;
      p in s'.heap && s'.heap[p].rec.taskId == t.rec.taskId
    ensures var t' := Boot(s.file, s.saved, ps, memory, now).value.heap[p];
      t' == t.(rec := t'.rec, reportCnt := 0, finishCnt := 0, result := Info(-1, 1, 10, false, []), chkTime := now + 300)
  {
    hide *;
    var v := Saved(t.startTime, t.stopTime, t.status, t.chkType, t.progress, t.curReport, t.lastReport);
    InvFilesOk(s, w);
    RestartEffect(s.file, s.saved, ps, memory, now, w);
    StatusRoundTripIff(t.rec.taskId, v);
    OnFile(s.saved, t.rec.taskId);
  }

  lemma OnFile(saved: map<string, string>, id: string)
    requires id in saved && ParseStatus(saved[id], id).Some?
    ensures StatusOnFile(saved, id) == ParseStatus(saved[id], id).value
  {
  }

  /** A restart ends the daemon that runs, whatever comes of it. With memory enough it leaves none behind exactly when the
      task file is too large for the reader or one of its tasks has a status file that is refused; the files stay. */
  lemma RestartOrDown<P>(d: Daemon<P>, ps: seq<P>, memory: bool, now: int, w: World)
    requires DaemonOk(d, w) && LegalStep(d, Restart(ps, memory, now), w)
    ensures var d' := Step(d, Restart(ps, memory, now));
      && ParseFile(d.File()).Some?
      && d'.File() == d.File() && d'.Saved() == d.Saved()
      && (memory && |ps| >= |ParseFile(d.File()).value| ==>
           (d'.Down? <==> |d.File()| > 0xA00000 || RecordsFail(ParseFile(d.File()).value, d.Saved())))
      && (d'.Up? ==> Boot(d.File(), d.Saved(), ps, memory, now) == Some(d'.state) && !d'.state.connOk)
  {
    hide Inv, FilesOk, Boot, Distinct, RecordsFail, ParseFile, InTime;
    if d.Up? {
      InvFilesOk(d.state, w);
    }
    FilesOkParts(d.File(), d.Saved(), w);
    BootRestores(d.File(), d.Saved(), ps, memory, now, w);
    if Boot(d.File(), d.Saved(), ps, memory, now).Some? {
      RestartEffect(d.File(), d.Saved(), ps, memory, now, w);
    }
  }

  // ----- tests of the connection

  function Tests<P>(oks: seq<bool>): (evs: seq<Event<P>>)
    ensures |evs| == |oks|
  {
    seq(|oks|, i requires 0 <= i < |oks| => Pinged(oks[i]))
  }

  /** After two tests or more the connection counts as good exactly if one of the last two succeeded; nothing else has
      changed. A single failed test costs a connection nothing if the test before it went well. */
  lemma {:induction false} TestsEffect<P>(s: State<P>, oks: seq<bool>)
    requires |oks| > 0
    ensures var n := |oks|;
      var d := RunAll(Up(s), Tests<P>(oks));
      && d.Up? && d.state == s.(connOk := d.state.connOk, lastPingOk := oks[n - 1])
      && (n > 1 ==> (d.state.connOk <==> oks[n - 1] || oks[n - 2]))
      && (n == 1 ==> (d.state.connOk <==> oks[0] || (s.lastPingOk && s.connOk)))
    decreases |oks|
  {
    hide RunAll;
    var s1 := Ping(s, oks[0]);
    TestsNext(s, oks);
    if |oks| > 1 {
      TestsEffect(s1, oks[1..]);
    } else {
      RunNothing(Up(s1));
      assert Tests<P>(oks[1..]) == [];
    }
  }

  lemma TestsNext<P>(s: State<P>, oks: seq<bool>)
    requires |oks| > 0
    ensures RunAll(Up(s), Tests<P>(oks)) == RunAll(Up(Ping(s, oks[0])), Tests<P>(oks[1..]))
  {
    assert Tests<P>(oks)[1..] == Tests<P>(oks[1..]);
  }

  lemma RunNothing<P>(d: Daemon<P>)
    ensures RunAll(d, []) == d
  {
  }
}
