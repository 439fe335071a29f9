/** What becomes of a task when the scan server names a report id that does not match the id pattern. `parseTask` takes
    any id over, the queries refuse it, and the status file that holds it cannot be read back. */
module DaemonReportIds {
  import opened Wrappers
  import opened Ordering
  import opened TaskRecord
  import opened Results
  import opened StatusFile
  import opened DaemonState
  import opened DaemonInv
  import opened DaemonSteps
  import opened DaemonFiles
  import opened DaemonCommands
  import opened DaemonBoot
  import opened DaemonRun
  import opened DaemonBusy
  import Text

  // ----- ids and times of the right form

  lemma TameFilesRead(file: string, saved: map<string, string>, w: World)
    requires FilesOk(file, saved, w) && !w.wild
    ensures forall id | id in saved :: ParseStatus(saved[id], id).Some?
    ensures ParseFile(file).Some? && !RecordsFail(ParseFile(file).value, saved)
  {
    hide ParseStatus, ParseFile;
    forall id | id in saved ensures ParseStatus(saved[id], id).Some? {
      assert StatusFileOk(saved[id], id, w);
    }
  }

  lemma FilesOfDaemon<P>(d: Daemon<P>, w: World)
    requires DaemonOk(d, w)
    ensures FilesOk(d.File(), d.Saved(), w)
  {
    hide Inv, FilesOk;
    if d.Up? {
      InvFilesOk(d.state, w);
    }
  }

  /** As long as the server names report ids and times of the right form, no status file is ever refused, over any
      number of restarts. With memory enough, the daemon can then be started again if and only if its task file is not
      larger than the reader allows. */
  lemma TameRunsRestart<P>(evs: seq<Event<P>>, ps: seq<P>, now: int, w: World)
    requires LegalRun(Fresh<P>(), evs, w) && !w.wild && Distinct(ps) && 0 <= now && InTime(now + 300, w)
    requires |ps| >= |ParseFile(RunAll(Fresh<P>(), evs).File()).GetOr([])|
    ensures var d := RunAll(Fresh<P>(), evs);
      && (forall id | id in d.Saved() :: ParseStatus(d.Saved()[id], id).Some?)
      && (Boot(d.File(), d.Saved(), ps, true, now).None? <==> |d.File()| > READ_LIMIT)
  {
    hide FilesOk, LegalRun, RunAll, Fresh, DaemonOk, Boot, Distinct, RecordsFail, ParseFile, ParseStatus;
    FreshOk<P>(w);
    RunKeeps(Fresh<P>(), evs, w);
    var d := RunAll(Fresh<P>(), evs);
    FilesOfDaemon(d, w);
    TameFilesRead(d.File(), d.Saved(), w);
    BootRestores(d.File(), d.Saved(), ps, true, now, w);
  }

  // ----- the next start

  lemma SameIds<P>(s: State<P>, w: World)
    requires Inv(s, w) && |s.file| <= READ_LIMIT
    ensures ParseFile(s.file).Some?
    ensures RecordsFail(ParseFile(s.file).value, s.saved)
       <==> exists p | p in s.heap :: StatusBad(s.saved, s.heap[p].rec.taskId)
  {
    hide Registered, RunOrder, TasksOk, AllSavedOk, ParseFile, Mirrors, StatusBad;
    var rs := ParseFile(s.file).value;
    if r :| r in rs && StatusBad(s.saved, r.taskId) {
      var p := OwnerOfName(s.heap, rs, r);
      assert s.heap[p].rec.taskId == r.taskId;
    }
    if p :| p in s.heap && StatusBad(s.saved, s.heap[p].rec.taskId) {
      var r := NameOnFile(s.heap, rs, p);
      assert s.heap[p].rec.taskId == r.taskId;
    }
  }

  /** A daemon that is stopped now can be started again if and only if its task file is not too large and no registered
      task has a status file that is refused. */
  lemma RestartFailsIff<P>(s: State<P>, ps: seq<P>, now: int, w: World)
    requires Inv(s, w) && Distinct(ps) && 0 <= now && InTime(now + 300, w)
    requires |ps| >= |ParseFile(s.file).GetOr([])|
    ensures Boot(s.file, s.saved, ps, true, now).None?
       <==> |s.file| > READ_LIMIT || exists p | p in s.heap :: StatusBad(s.saved, s.heap[p].rec.taskId)
  {
    hide Inv, FilesOk, Boot, Distinct, RecordsFail, ParseFile, StatusBad;
    if |s.file| <= READ_LIMIT {
      SameIds(s, w);
    }
    InvFilesOk(s, w);
    BootRestores(s.file, s.saved, ps, true, now, w);
  }

  lemma FailsAnyway<P>(s: State<P>, p: P, ps: seq<P>, memory: bool, now: int, w: World)
    requires Inv(s, w) && Distinct(ps) && 0 <= now && InTime(now + 300, w)
    requires p in s.heap && StatusBad(s.saved, s.heap[p].rec.taskId)
    ensures Boot(s.file, s.saved, ps, memory, now).None?
  {
    hide Inv, FilesOk, Boot, Distinct, RecordsFail, ParseFile, StatusBad;
    if |s.file| <= READ_LIMIT {
      SameIds(s, w);
    }
    InvFilesOk(s, w);
    BootRestores(s.file, s.saved, ps, memory, now, w);
  }

  /** Once a status file with a bad report id is written, no start succeeds. */
  lemma BadIdStopsRestart<P>(s: State<P>, p: P, e: Env, ps: seq<P>, memory: bool, now: int, w: World)
    requires Inv(s, w) && p in s.heap && s.heap[p].chkType == ChkTask && ClockOk(e, w) && w.wild
    requires e.paths && e.statusIo && e.taskReply.TaskReports?
    requires var news := NewReport(s.heap[p], e.taskReply.cur, e.taskReply.last);
      news.Some? && !IsUuid(news.value) && Text.Free(news.value, '\n') && Text.Free(s.heap[p].curReport, '\n')
    requires Distinct(ps) && 0 <= now && InTime(now + 300, w)
    ensures Boot(QueryTask(s, p, e).file, QueryTask(s, p, e).saved, ps, memory, now).None?
  {
    hide *;
    WildTakesAll(e.taskReply, w);
    QueryTaskKeeps(s, p, e, w);
    QueryTaskSavedIff(s, p, e, w);
    QueriesTouchOne(s, p, e);
    SameRecord(s, p, e);
    var s' := QueryTask(s, p, e);
    StatusBadIs(s'.saved, s.heap[p].rec.taskId);
    FailsAnyway(s', p, ps, memory, now, w);
  }

  lemma WildTakesAll(r: TaskReply, w: World)
    requires w.wild
    ensures TaskReplyOk(r, w)
  {
  }

  lemma StatusBadIs(saved: map<string, string>, id: string)
    ensures StatusBad(saved, id) <==> id in saved && ParseStatus(saved[id], id).None?
  {
    hide ParseStatus;
  }

  lemma SameRecord<P>(s: State<P>, p: P, e: Env)
    requires p in s.heap
    ensures p in QueryTask(s, p, e).heap && QueryTask(s, p, e).heap[p].rec == s.heap[p].rec
  {
    hide Reschedule, StatusText, WriteStatus, NewReport, TaskAnswer;
    QueryTaskIs(s, p, e);
    RescheduleFrame(s, p, e.later, Interval(ChkTask));
    RecordKept(s, p, e.later, Interval(ChkTask));
    var r := TaskAnswer(s.heap[p], e.taskReply);
    if r.TaskReports? && NewReport(s.heap[p], r.cur, r.last).Some? {
      var t' := Started(s.heap[p], r.reportCnt, r.finishCnt, NewReport(s.heap[p], r.cur, r.last).value);
      RescheduledTask(s, p, t', SavedAfter(s.saved, t', e), e.later, 0);
    }
  }

  /** A failed start leaves the files as they are, so every later start fails as well. */
  lemma {:induction false} DownForever<P>(file: string, saved: map<string, string>, evs: seq<Event<P>>, w: World)
    requires FilesOk(file, saved, w) && (|file| > READ_LIMIT || RecordsFail(ParseFile(file).value, saved))
    requires LegalRun(Down(file, saved), evs, w)
    ensures RunAll(Down(file, saved), evs) == Down(file, saved)
    decreases |evs|
  {
    hide FilesOk, RecordsFail, ParseFile, Boot, Distinct, Act, Legal;
    if |evs| > 0 {
      if evs[0].Restart? {
        BootRestores(file, saved, evs[0].ps, evs[0].memory, evs[0].now, w);
      }
      DownForever(file, saved, evs[1..], w);
    }
  }

  // ----- the running daemon

  /** The task waits for a report that is never asked for. */
  predicate Stuck(t: Task) {
    t.chkType == ChkReport && !IsUuid(t.curReport)
  }

  lemma StuckIsReady(t: Task, w: World)
    requires TaskOk(t, w) && Stuck(t)
    ensures IsBusy(t) && !IsRunning(t)
  {
    hide Valid, IsUuid, Paged;
  }

  /** No command does anything about it. */
  lemma StuckRefused<P>(s: State<P>, key: Key, e: Env, w: World)
    requires Inv(s, w) && FindTask(s, key.name).Some? && Stuck(TaskOf(s.heap, FindTask(s, key.name).value))
    ensures StartTask(s, key, e).0 != Ok && StartTask(s, key, e).1 == s
    ensures StopTask(s, key, e).0 != Ok && StopTask(s, key, e).1 == s
    ensures DeleteTask(s, key, e).0 != Ok && DeleteTask(s, key, e).1 == s
  {
    hide *;
    InvParts(s, w);
    LookUp(s, key.name);
    var p := FindTask(s, key.name).value;
    TaskOfIs(s.heap, p);
    TaskIsOk(s.heap, p, w);
    StuckIsReady(s.heap[p], w);
    BusyRefused(s, key, e);
  }

  /** The check of a stuck task puts it off; the check of another one leaves it alone. */
  lemma StuckCheck<P>(s: State<P>, e: Env, p: P, w: World)
    requires Inv(s, w) && p in s.heap && Stuck(s.heap[p])
    ensures Waits(s.heap, RunChecks(s, e).1.heap, p)
  {
    hide *;
    WaitsSelf(s, p);
    ChecksTouchHead(s, e, p, w);
    InvParts(s, w);
    if |s.runque| > 0 {
      HoldsIn(s.runque, s.heap.Keys, s.runque[0]);
      if p == s.runque[0] {
        QueryReportIs(s, p, e);
        NoAnswer(s.heap[p], e);
        RecordKept(s, p, e.later, Interval(ChkReport));
        StuckRuns(s, e);
        WaitsFrom(s.heap, Reschedule(s, p, e.later, Interval(ChkReport)).heap, p);
      }
    }
    if |s.runque| == 0 || p != s.runque[0] {
      WaitsFrom(s.heap, RunChecks(s, e).1.heap, p);
    }
  }

  lemma NoAnswer(t: Task, e: Env)
    requires Stuck(t)
    ensures ReportAnswer(t, e.reportReply).NoReportReply?
  {
    hide IsUuid;
  }

  lemma StuckRuns<P>(s: State<P>, e: Env)
    requires |s.runque| > 0 && s.runque[0] in s.heap && Stuck(s.heap[s.runque[0]])
    ensures RunChecks(s, e).1 == s || RunChecks(s, e).1 == QueryReport(s, s.runque[0], e)
  {
    hide QueryTask, QueryReport, QueryResult, DeleteFiles, Reschedule, IsUuid;
  }

  lemma StuckStays<P>(s: State<P>, ev: Event<P>, p: P, w: World)
    requires Inv(s, w) && Legal(s, ev, w) && p in s.heap && Stuck(s.heap[p])
    ensures Waits(s.heap, Act(s, ev).heap, p)
  {
    hide Inv, Legal, RunChecks, CreateTask, StartTask, StopTask, DeleteTask, Stuck, IsBusy, IsRunning;
    if ev.Check? {
      StuckCheck(s, ev.env, p, w);
    } else {
      InvParts(s, w);
      TaskIsOk(s.heap, p, w);
      StuckIsReady(s.heap[p], w);
      CommandsWait(s, ev, p, w);
    }
  }

  /** As long as the daemon runs, a stuck task stays as it is: it is never started, stopped, deleted or finished. */
  lemma {:induction false} StuckForever<P>(s: State<P>, evs: seq<Event<P>>, p: P, w: World)
    requires Inv(s, w) && LegalRun(Up(s), evs, w) && forall ev | ev in evs :: !ev.Restart?
    requires p in s.heap && Stuck(s.heap[p])
    ensures var d := RunAll(Up(s), evs);
      && d.Up? && Waits(s.heap, d.state.heap, p) && Stuck(d.state.heap[p])
    decreases |evs|
  {
    hide Inv, Legal, Act, IsUuid;
    if |evs| > 0 {
      assert evs[0] in evs;
      StuckStays(s, evs[0], p, w);
      ActKeeps(s, evs[0], w);
      StuckForever(Act(s, evs[0]), evs[1..], p, w);
    }
  }

  // ----- an example

  /** If the server names the report "x" for the sample task, the task is stuck, and the daemon cannot be started again. */
  lemma SampleBadId(e: Env, ps: seq<nat>, memory: bool, now: int, w: World)
    requires e.taskReply == TaskReports(1, 0, "x", "") && e.paths && e.statusIo && ClockOk(e, w) && w.wild
    requires Distinct(ps) && 0 <= now && InTime(now + 300, w)
    ensures var s' := QueryTask(SampleState(), 0, e);
      && Inv(s', w) && 0 in s'.heap && Stuck(s'.heap[0])
      && Boot(s'.file, s'.saved, ps, memory, now).None?
  {
    hide *;
    var s := SampleState();
    SampleInv(w);
    SampleIdle(e);
    WildTakesAll(e.taskReply, w);
    QueryTaskKeeps(s, 0, e, w);
    BadIdStopsRestart(s, 0, e, ps, memory, now, w);
    QueryTaskIs(s, 0, e);
    InvParts(s, w);
    TaskIsOk(s.heap, 0, w);
    TaskOkParts(s.heap[0], w);
    AnswersGiven(s.heap[0], e);
    var t' := Started(s.heap[0], 1, 0, "x");
    RescheduledTask(s, 0, t', SavedAfter(s.saved, t', e), e.later, 0);
  }

  lemma SampleIdle(e: Env)
    requires e.taskReply == TaskReports(1, 0, "x", "")
    ensures var s := SampleState();
      && 0 in s.heap && s.heap[0].chkType == ChkTask && s.heap[0].curReport == ""
      && NewReport(s.heap[0], "x", "") == Some("x") && !IsUuid("x") && Text.Free("x", '\n') && Text.Free("", '\n')
    ensures Stuck(Started(SampleState().heap[0], 1, 0, "x"))
    ensures forall t: Task, time: int :: Stuck(t.(chkTime := time)) <==> Stuck(t)
  {
    hide EncodeAll;
  }
}
