/** What the operations of the daemon do to a task, in the terms of the request and of the replies of the scan server. */
module DaemonEffects {
  import opened Wrappers
  import opened Text
  import opened TaskRecord
  import opened Tokens
  import opened TaskCreate
  import opened Results
  import opened ResultText
  import opened StatusFile
  import opened DaemonState
  import opened Registry
  import opened DaemonInv
  import opened DaemonSteps
  import opened DaemonFiles
  import opened DaemonCommands

  /** Only the task `p` has changed, into `t`; statuses and its place in the run queue may have. */
  ghost predicate Changed<P>(s: State<P>, s': State<P>, p: P, t: Task) {
    s' == s.(heap := s.heap[p := t], runque := s'.runque, saved := s'.saved)
  }

  lemma Rescheduled<P>(s: State<P>, p: P, t: Task, saved: map<string, string>, clock: int, interval: int)
    ensures var s' := Reschedule(SetTask(s, p, t).(saved := saved), p, clock, interval);
      && Changed(s, s', p, t.(chkTime := if interval > 0 then clock + interval else 0))
      && s'.saved == saved
  {
    hide QueueByCheck, Without;
    RescheduleIs(s, p, t, saved, clock, interval);
  }

  /** The status file of a task is written, unless there is no directory or the write fails. */
  ghost predicate StatusWritten<P>(s: State<P>, s': State<P>, t: Task, e: Env) {
    s'.saved ==
      if e.paths && e.statusIo then
        s.saved[t.rec.taskId := EncodeStatus(t.rec.taskId,
          Saved(t.startTime, t.stopTime, t.status, t.chkType, t.progress, t.curReport, t.lastReport))]
      else s.saved
  }

  lemma Written<P>(s: State<P>, s': State<P>, t: Task, t': Task, e: Env)
    requires s'.saved == SavedAfter(s.saved, t, e) && t' == t.(chkTime := t'.chkTime)
    ensures StatusWritten(s, s', t', e)
  {
    hide EncodeStatus;
  }

  // ----- a report that the server names

  /** A check of an idle task follows the report that runs or, without one, the last one, if the task does not know it
      yet. It is asked for at once. */
  lemma TaskEffect<P>(s: State<P>, p: P, e: Env)
    requires p in s.heap && IsUuid(s.heap[p].rec.taskId) && e.taskReply.TaskReports?
    ensures var t, r, s' := s.heap[p], e.taskReply, QueryTask(s, p, e);
      var named := if r.cur != "" then r.cur else r.last;
      && p in s'.heap && Changed(s, s', p, s'.heap[p])
      && (named != "" && named != t.curReport ==>
           && s'.heap[p] == t.(chkType := ChkReport, curReport := named, lastReport := t.curReport,
                               reportCnt := r.reportCnt, finishCnt := r.finishCnt, status := Ready, progress := 0,
                               startTime := "", stopTime := "", chkTime := 0)
           && StatusWritten(s, s', s'.heap[p], e))
      && (named == "" || named == t.curReport ==> s'.heap[p] == t.(chkTime := e.later + 300) && s'.saved == s.saved)
  {
    hide Reschedule, SavedAfter, IsUuid, EncodeStatus, StatusWritten;
    var t, r := s.heap[p], e.taskReply;
    QueryTaskIs(s, p, e);
    SameTask(s, p);
    Rescheduled(s, p, t, s.saved, e.later, 300);
    if NewReport(t, r.cur, r.last).Some? {
      var t' := Started(t, r.reportCnt, r.finishCnt, NewReport(t, r.cur, r.last).value);
      Rescheduled(s, p, t', SavedAfter(s.saved, t', e), e.later, 0);
      Written(s, QueryTask(s, p, e), t', QueryTask(s, p, e).heap[p], e);
    }
  }

  // ----- the status of a report

  /** The words that the server has for a status. */
  predicate StatusWord(name: string, status: Status) {
    match status
    case Running => name == "Running"
    case Waiting => name in {"Queued", "Requested", "Delete Requested", "Ultimate Delete Requested"}
    case Ready => name == "New"
    case Finished => name == "Done"
    case Stopped => name in {"Stopped", "Stop Requested"}
    case Interrupted =>
      name !in {"Running", "Queued", "Requested", "Delete Requested", "Ultimate Delete Requested", "New", "Done",
                "Stopped", "Stop Requested"}
    case _ => false
  }

  /** Where a status of a report leads, and when the next check is due. */
  predicate LeadsTo(status: Status, chkType: ChkType, chkTime: int, clock: int) {
    match status
    case Running => chkType == ChkReport && chkTime == clock + 120
    case Waiting => chkType == ChkReport && chkTime == clock + 120
    case Ready => chkType == ChkTask && chkTime == clock + 300
    case Finished => chkType == ChkResult && chkTime == 0
    case Stopped => chkType == ChkResult && chkTime == 0
    case Interrupted => chkType == ChkResult && chkTime == 0
    case _ => false
  }

  /** A check of a report takes over its status, its progress if it is a percentage, and its two times. A report that runs
      or waits is looked at again, one that is new makes the task idle, and all others are fetched at once. When neither
      status nor progress have changed, only the time of the next check has. */
  lemma ReportEffect<P>(s: State<P>, p: P, e: Env)
    requires p in s.heap && s.heap[p].chkType == ChkReport && IsUuid(s.heap[p].curReport) && e.reportReply.ReportStatus?
    ensures var t, r, s' := s.heap[p], e.reportReply, QueryReport(s, p, e);
      var progress := if 0 <= r.progress <= 100 then r.progress else 0;
      && p in s'.heap && Changed(s, s', p, s'.heap[p])
      && (StatusWord(r.name, t.status) && progress == t.progress ==>
           s'.heap[p] == t.(chkTime := e.later + 120) && s'.saved == s.saved)
      && (!(StatusWord(r.name, t.status) && progress == t.progress) ==>
           var t' := s'.heap[p];
           && StatusWord(r.name, t'.status) && LeadsTo(t'.status, t'.chkType, t'.chkTime, e.later)
           && t' == t.(status := t'.status, progress := progress, chkType := t'.chkType, chkTime := t'.chkTime,
                       startTime := if |r.startTime| < 32 then r.startTime else "",
                       stopTime := if |r.stopTime| < 32 then r.stopTime else "")
           && StatusWritten(s, s', t', e))
  {
    hide Reschedule, SavedAfter, IsUuid, EncodeStatus, StatusWritten, StatusWord, ConvRunStatusName;
    var t, r := s.heap[p], e.reportReply;
    QueryReportIs(s, p, e);
    SameTask(s, p);
    WordsOf(r.name, t.status);
    Rescheduled(s, p, t, s.saved, e.later, 120);
    if ConvRunStatusName(r.name) != t.status || Clamp(r.progress) != t.progress {
      var t1 := Reported(t, ConvRunStatusName(r.name), Clamp(r.progress), r.startTime, r.stopTime);
      var t2 := t1.(chkType := AfterReport(t1));
      Rescheduled(s, p, t2, SavedAfter(s.saved, t2, e), e.later, ReportInterval(t1));
      Written(s, QueryReport(s, p, e), t2, QueryReport(s, p, e).heap[p], e);
    }
  }

  lemma WordsOf(name: string, status: Status)
    ensures StatusWord(name, status) <==> ConvRunStatusName(name) == status
    ensures ConvRunStatusName(name) in {Running, Waiting, Ready, Finished, Stopped, Interrupted}
    ensures StatusWord(name, ConvRunStatusName(name))
  {
  }

  /** Without a usable reply only the time of the next check changes. */
  lemma NoReplyEffect<P>(s: State<P>, p: P, e: Env)
    requires p in s.heap
    ensures !IsUuid(s.heap[p].rec.taskId) || e.taskReply.NoTaskReply? ==>
      Changed(s, QueryTask(s, p, e), p, s.heap[p].(chkTime := e.later + 300)) && QueryTask(s, p, e).saved == s.saved
    ensures !IsUuid(s.heap[p].curReport) || e.reportReply.NoReportReply? ==>
      Changed(s, QueryReport(s, p, e), p, s.heap[p].(chkTime := e.later + 120)) && QueryReport(s, p, e).saved == s.saved
  {
    hide Reschedule, SavedAfter, IsUuid;
    QueryTaskIs(s, p, e);
    QueryReportIs(s, p, e);
    SameTask(s, p);
    Rescheduled(s, p, s.heap[p], s.saved, e.later, 300);
    Rescheduled(s, p, s.heap[p], s.saved, e.later, 120);
  }

  // ----- the results of a report

  /** A check that finishes a report makes the task idle, writes the results and forgets them; the next check is due after
      the longest interval. Any other one keeps what has been fetched and is followed by the next after five seconds. */
  lemma ResultEffect<P>(s: State<P>, p: P, e: Env)
    requires p in s.heap && IsUuid(s.heap[p].rec.taskId) && IsUuid(s.heap[p].curReport)
    ensures var t, s' := s.heap[p], QueryResult(s, p, e);
      var info := Round(t.result, e.resultReply);
      && p in s'.heap && Changed(s, s', p, s'.heap[p])
      && (info.done && Printable(info.results, 0x1000000) ==>
           && s'.heap[p] == t.(chkType := ChkTask, result := Info(-1, 1, 10, false, []), chkTime := e.later + 300)
           && StatusWritten(s, s', s'.heap[p], e)
           && ResultFile(t, e) == if e.paths then Some(NvtText(info.results)) else None)
      && (!(info.done && Printable(info.results, 0x1000000)) ==>
           && s'.heap[p] == t.(result := info, chkTime := e.later + 5) && s'.saved == s.saved
           && ResultFile(t, e) == None)
  {
    hide Reschedule, SavedAfter, IsUuid, EncodeStatus, StatusWritten, Printable, Absorb, ResultAnswer, NvtText;
    var t := s.heap[p];
    AnswersGiven(t, e);
    FetchedInfo(t.result, e.resultReply);
    var t1 := t.(result := Round(t.result, e.resultReply));
    var t2 := t.(result := RESET, chkType := ChkTask);
    var t3 := t1.(chkType := ChkTask);
    WriteStatusIs(s, p, t3, e);
    SameStatusText(t3, t2);
    SameFile(s.saved, t3, t2, e);
    assert s.heap[p := t3][p := t2] == s.heap[p := t2];
    assert SetTask(s, p, t1).(saved := s.saved) == SetTask(s, p, t1);
    Rescheduled(s, p, t1, s.saved, e.later, 5);
    Rescheduled(s, p, t2, SavedAfter(s.saved, t2, e), e.later, 300);
    if Finishes(t, e) {
      Written(s, QueryResult(s, p, e), t2, QueryResult(s, p, e).heap[p], e);
    }
  }

  lemma FetchedInfo(info: Info, reply: Option<Page>)
    ensures !info.done && reply.Some? ==>
      Round(info, reply) == Absorb(info, reply.value).1 && (Round(info, reply).done ==> Absorb(info, reply.value).0 == 0)
    ensures info.done || reply.None? ==> Round(info, reply) == info
  {
    hide PushAll;
  }

  lemma SameFile(saved: map<string, string>, t: Task, t': Task, e: Env)
    requires t.rec == t'.rec && StatusText(t) == StatusText(t')
    ensures SavedAfter(saved, t, e) == SavedAfter(saved, t', e)
  {
    hide StatusText;
  }

  // ----- starting and stopping

  /** A start or stop that succeeds brings the next check of that one task forward; one that does not changes nothing. */
  lemma StartStopEffect<P>(s: State<P>, key: Key, e: Env, w: World)
    requires Inv(s, w)
    ensures var s1, s2 := StartTask(s, key, e).1, StopTask(s, key, e).1;
      && (StartTask(s, key, e).0 != Ok ==> s1 == s)
      && (StopTask(s, key, e).0 != Ok ==> s2 == s)
      && (forall p | p in s.heap && s.heap[p].rec.taskName == key.name ::
           && (StartTask(s, key, e).0 == Ok ==> Changed(s, s1, p, s.heap[p].(chkTime := 0)) && s1.saved == s.saved)
           && (StopTask(s, key, e).0 == Ok ==> Changed(s, s2, p, s.heap[p].(chkTime := 0)) && s2.saved == s.saved))
  {
    hide Inv, KeyOk, FindTask, Reschedule, InOrder, TasksOk, Holds, RunOrder, OnDisk, AllSavedOk, IsBusy, IsRunning;
    InvParts(s, w);
    LookUp(s, key.name);
    if FindTask(s, key.name).Some? {
      var p := FindTask(s, key.name).value;
      SameTask(s, p);
      Rescheduled(s, p, s.heap[p], s.saved, e.later, 0);
    }
  }

  // ----- creation

  lemma OneGroup(ids: string)
    ensures |Split(ids, ',')| == 1 <==> ',' !in ids
  {
    if ',' !in ids {
      assert Text.Free(ids, ',');
      SplitFree(ids, ',');
    }
  }

  /** What a created task is made of: the request, the answers of the server, the default port list and the clock. */
  lemma CreateEffect<P>(s: State<P>, p: P, param: CreateParam, e: Env, w: World)
    requires Inv(s, w) && p !in s.heap && InBuffers(param) && IsTimestamp(e.stamp) && ClockOk(e, w)
    requires CreateTask(s, p, param, e).0 == Ok
    ensures var s' := CreateTask(s, p, param, e).1;
      && p in s'.heap && s'.heap == s.heap[p := s'.heap[p]]
      && var t := s'.heap[p];
         var r := t.rec;
      && e.answers.task == Some(r.taskId) && e.answers.target == Some(r.targetId)
      && r.portlistId == "00000001-0000-0000-0000-000000000000"
      && r.taskName == param.name && r.groupId == param.groupId && r.groupName == param.groupName
      && r.hosts == param.hosts && r.scheduleType == param.scheduleType && r.scheduleTime == param.scheduleTime
      && r.scheduleList == param.scheduleList && r.createTime == e.stamp
      && (',' !in param.groupId ==> r.configId == param.groupId && r.configCreated == 0)
      && (',' in param.groupId ==> e.answers.config == Some(r.configId) && r.configCreated == 1)
      && (param.scheduleType == 0 ==> r.scheduleId == "" && r.scheduleCreated == 0)
      && (param.scheduleType != 0 ==> e.answers.schedule == Some(r.scheduleId) && r.scheduleCreated == 1)
      && t == Task(r, Created, 0, 0, 0, "", "", "", "", Info(-1, 1, 10, false, []), ChkTask, e.later + 300)
      && s'.saved == s.saved && s'.connOk == s.connOk
  {
    hide *;
    CreateTaskIs(s, p, param, e);
    var s' := CreateTask(s, p, param, e).1;
    var rec := BuildRecord(param, e.answers, e.stamp).value;
    CreatedIsValid(param, e.answers, e.stamp);
    InvParts(s, w);
    RegisteredFrom(s);
    FindIsLookup(s, s.heap.Keys, param.name);
    NewTaskRecord(rec);
    CreateFilesStep(s, p, NewTask(rec).(chkTime := NextChkTime(e.later, 300)), e);
    OneGroup(param.groupId);
    BuiltFrom(param, e.answers, e.stamp);
    NewTaskFields(rec, e.later);
  }

  lemma NewTaskFields(rec: Record, clock: int)
    ensures NewTask(rec).(chkTime := NextChkTime(clock, 300))
         == Task(rec, Created, 0, 0, 0, "", "", "", "", Info(-1, 1, 10, false, []), ChkTask, clock + 300)
  {
  }

  lemma BuiltFrom(param: CreateParam, a: Answers, now: string)
    ensures BuildRecord(param, a, now).Some? ==>
      var r := BuildRecord(param, a, now).value;
      && a.task == Some(r.taskId) && a.target == Some(r.targetId)
      && r.portlistId == "00000001-0000-0000-0000-000000000000"
      && r.taskName == param.name && r.groupId == param.groupId && r.groupName == param.groupName
      && r.hosts == param.hosts && r.scheduleType == param.scheduleType && r.scheduleTime == param.scheduleTime
      && r.scheduleList == param.scheduleList && r.createTime == now
      && (|Split(param.groupId, ',')| == 1 ==> r.configId == param.groupId && r.configCreated == 0)
      && (|Split(param.groupId, ',')| != 1 ==> a.config == Some(r.configId) && r.configCreated == 1)
      && (param.scheduleType == 0 ==> r.scheduleId == "" && r.scheduleCreated == 0)
      && (param.scheduleType != 0 ==> a.schedule == Some(r.scheduleId) && r.scheduleCreated == 1)
  {
    hide ParamOk, IsUuid, Split;
  }
}
