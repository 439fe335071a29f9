/** How a report ends: its results are printed once they are all there, if they fit the buffer. If they do not, the task
    never leaves the result phase. */
module DaemonResults {
  import opened Wrappers
  import opened Ordering
  import opened TaskRecord
  import opened Results
  import opened ResultText
  import opened StatusFile
  import opened DaemonState
  import opened DaemonInv
  import opened DaemonSteps
  import opened DaemonFiles
  import opened DaemonCommands
  import opened DaemonRun
  import opened DaemonBusy

  // ----- one check

  lemma FetchedIsRound(t: Task, e: Env)
    requires IsUuid(t.rec.taskId) && IsUuid(t.curReport)
    ensures var info := Round(t.result, e.resultReply);
      && Fetched(t, e).1 == info && (info.done ==> Fetched(t, e).0 == 0)
  {
    hide IsUuid, PushAll;
  }

  /** A check finishes a report if and only if all its results are there and the list that the server holds for it,
      ordered by host, fits the buffer. What goes into the result file is that list. */
  lemma FinishesIff(t: Task, e: Env, w: World)
    requires TaskOk(t, w) && t.chkType == ChkResult && ResultReplyOk(t, e.resultReply, w)
    ensures var all := w.results(t.curReport);
      && (Finishes(t, e) <==> Round(t.result, e.resultReply).done && !Oversized(all, WRITE_LIMIT))
      && (Finishes(t, e) && e.paths ==> ResultFile(t, e) == Some(NvtText(ByHost(all))))
  {
    hide Valid, Paged, Printable, ByHost, NvtText, Round, Fetched, StableSortOf, IsUuid;
    TaskOkParts(t, w);
    FetchedIsRound(t, e);
    ResultFetched(t, e.resultReply, w);
    FetchedPaged(t.(result := Round(t.result, e.resultReply)), w);
    if Round(t.result, e.resultReply).done {
      DoneIsByHost(Round(t.result, e.resultReply), w.results(t.curReport));
    }
  }

  /** The task leaves the result phase exactly when its report is finished. */
  lemma LeavesIff<P>(s: State<P>, p: P, e: Env, w: World)
    requires Inv(s, w) && p in s.heap && s.heap[p].chkType == ChkResult && ResultReplyOk(s.heap[p], e.resultReply, w)
    ensures TaskOf(QueryResult(s, p, e).heap, p).chkType != ChkResult
       <==> Round(s.heap[p].result, e.resultReply).done && !Oversized(w.results(s.heap[p].curReport), WRITE_LIMIT)
  {
    hide *;
    InvParts(s, w);
    TaskIsOk(s.heap, p, w);
    FinishesIff(s.heap[p], e, w);
    PhaseAfter(s, p, e);
  }

  lemma PhaseAfter<P>(s: State<P>, p: P, e: Env)
    requires p in s.heap && s.heap[p].chkType == ChkResult
    ensures var s' := QueryResult(s, p, e);
      && p in s'.heap && TaskOf(s'.heap, p) == s'.heap[p]
      && s'.heap[p].curReport == s.heap[p].curReport
      && (s'.heap[p].chkType != ChkResult <==> Finishes(s.heap[p], e))
  {
    hide QueueByCheck, Without, NextChkTime, Fetched, Printable, StatusText;
  }

  // ----- whole runs

  /** The task stays with its report in the result phase. */
  ghost predicate StaysAt<P>(h: map<P, Task>, h': map<P, Task>, p: P) {
    p in h && p in h' && h[p].chkType == ChkResult == h'[p].chkType && h'[p].curReport == h[p].curReport
  }

  ghost predicate Overfull(t: Task, w: World) {
    t.chkType == ChkResult && Oversized(w.results(t.curReport), WRITE_LIMIT)
  }

  lemma OverfullIsBusy(t: Task, w: World)
    requires TaskOk(t, w) && Overfull(t, w)
    ensures IsBusy(t) && !IsRunning(t)
  {
    hide Valid, IsUuid, Paged, Oversized;
  }

  lemma WaitingStays<P>(h: map<P, Task>, h': map<P, Task>, p: P)
    requires Waits(h, h', p) && h[p].chkType == ChkResult
    ensures StaysAt(h, h', p)
  {
  }

  /** The check of the task fetches another page or fails to print; the check of another one leaves it alone. */
  lemma OverfullCheck<P>(s: State<P>, e: Env, p: P, w: World)
    requires Inv(s, w) && p in s.heap && Overfull(s.heap[p], w)
    requires |s.runque| > 0 ==> ResultReplyOk(TaskOf(s.heap, s.runque[0]), e.resultReply, w)
    ensures StaysAt(s.heap, RunChecks(s, e).1.heap, p)
  {
    hide *;
    WaitsSelf(s, p);
    ChecksTouchHead(s, e, p, w);
    OverfullParts(s.heap[p], w);
    if |s.runque| > 0 && p == s.runque[0] {
      TaskOfIs(s.heap, p);
      LeavesIff(s, p, e, w);
      PhaseAfter(s, p, e);
      ResultRuns(s, e);
      StaysFrom(s.heap, QueryResult(s, p, e).heap, p);
      StaysFrom(s.heap, s.heap, p);
    } else {
      WaitsFrom(s.heap, RunChecks(s, e).1.heap, p);
      WaitingStays(s.heap, RunChecks(s, e).1.heap, p);
    }
  }

  lemma OverfullParts(t: Task, w: World)
    requires Overfull(t, w)
    ensures t.chkType == ChkResult && Oversized(w.results(t.curReport), WRITE_LIMIT)
  {
  }

  lemma StaysFrom<P>(h: map<P, Task>, h': map<P, Task>, p: P)
    requires p in h && p in h' && h[p].chkType == ChkResult == h'[p].chkType && h'[p].curReport == h[p].curReport
    ensures StaysAt(h, h', p)
  {
  }

  lemma ResultRuns<P>(s: State<P>, e: Env)
    requires |s.runque| > 0 && s.runque[0] in s.heap && s.heap[s.runque[0]].chkType == ChkResult
    ensures RunChecks(s, e).1 == s || RunChecks(s, e).1 == QueryResult(s, s.runque[0], e)
  {
    hide QueryTask, QueryReport, QueryResult, DeleteFiles, Reschedule;
  }

  lemma OverfullStays<P>(s: State<P>, ev: Event<P>, p: P, w: World)
    requires Inv(s, w) && Legal(s, ev, w) && p in s.heap && Overfull(s.heap[p], w)
    ensures StaysAt(s.heap, Act(s, ev).heap, p)
  {
    hide Inv, RunChecks, CreateTask, StartTask, StopTask, DeleteTask, Overfull, IsBusy, IsRunning, ClockOk, TaskReplyOk,
         ReportReplyOk, ResultReplyOk, IsTimestamp, StaysAt, Waits, Ping, TaskOf;
    if ev.Check? {
      OverfullCheck(s, ev.env, p, w);
    } else {
      InvParts(s, w);
      TaskIsOk(s.heap, p, w);
      OverfullIsBusy(s.heap[p], w);
      OverfullParts(s.heap[p], w);
      CommandsWait(s, ev, p, w);
      WaitingStays(s.heap, Act(s, ev).heap, p);
    }
  }

  /** A task whose results do not fit the buffer never leaves the result phase as long as the daemon runs, however often
      they are fetched and printed. It cannot be started, stopped or deleted. */
  lemma {:induction false} OverfullForever<P>(s: State<P>, evs: seq<Event<P>>, p: P, key: Key, e: Env, w: World)
    requires Inv(s, w) && LegalRun(Up(s), evs, w) && forall ev | ev in evs :: !ev.Restart?
    requires p in s.heap && Overfull(s.heap[p], w)
    ensures var d := RunAll(Up(s), evs);
      && d.Up? && StaysAt(s.heap, d.state.heap, p)
      && (FindTask(d.state, key.name) == Some(p) ==>
           StartTask(d.state, key, e).0 != Ok && StopTask(d.state, key, e).0 != Ok && DeleteTask(d.state, key, e).0 != Ok)
    decreases |evs|
  {
    hide Inv, Legal, Act, Overfull, Oversized, StartTask, StopTask, DeleteTask, FindTask, IsBusy, IsRunning;
    OverfullParts(s.heap[p], w);
    if |evs| > 0 {
      assert evs[0] in evs;
      OverfullStays(s, evs[0], p, w);
      ActKeeps(s, evs[0], w);
      OverfullAgain(s.heap[p], Act(s, evs[0]).heap[p], w);
      OverfullForever(Act(s, evs[0]), evs[1..], p, key, e, w);
    } else {
      InvParts(s, w);
      TaskIsOk(s.heap, p, w);
      OverfullIsBusy(s.heap[p], w);
      if FindTask(s, key.name) == Some(p) {
        TaskOfIs(s.heap, p);
        BusyRefused(s, key, e);
      }
    }
  }

  lemma OverfullAgain(t: Task, t': Task, w: World)
    requires Overfull(t, w) && t'.chkType == ChkResult && t'.curReport == t.curReport
    ensures Overfull(t', w)
  {
  }
}
