/** Every command and every background check keeps the invariant of `DaemonInv`. */
module DaemonSteps {
  import opened Wrappers
  import Text
  import opened Ordering
  import opened TaskRecord
  import opened Results
  import opened StatusFile
  import opened DaemonState
  import opened DaemonInv

  /** The clock stays in the range that the run queue can order. */
  predicate ClockOk(e: Env, w: World) {
    0 <= e.later && InTime(e.later + 300, w)
  }

  // ----- the queries

  lemma RescheduleIs<P>(s: State<P>, p: P, t: Task, saved: map<string, string>, clock: int, interval: int)
    ensures var t' := t.(chkTime := NextChkTime(clock, interval));
      Reschedule(SetTask(s, p, t).(saved := saved), p, clock, interval)
      == Requeue(SetTask(s, p, t').(saved := saved), p)
  {
    hide Requeue, NextChkTime;
    var t' := t.(chkTime := NextChkTime(clock, interval));
    assert s.heap[p := t][p := t'] == s.heap[p := t'];
  }

  lemma RetimedOk(t: Task, t': Task, e: Env, interval: nat, w: World)
    requires TaskOk(t', w) && Continues(t, t') && ClockOk(e, w) && interval <= 300
    ensures var t2 := t'.(chkTime := NextChkTime(e.later, interval)); TaskOk(t2, w) && Continues(t, t2)
  {
  }

  /** Changing a task within its phase rules, saving statuses and rescheduling it keeps the invariant. */
  lemma RescheduleKeeps<P>(s: State<P>, p: P, t: Task, saved: map<string, string>, e: Env, interval: nat, w: World)
    requires Inv(s, w) && p in s.heap && AllSavedOk(saved, w) && ClockOk(e, w) && interval <= 300
    requires TaskOk(t, w) && t.rec == s.heap[p].rec && Continues(s.heap[p], t)
    ensures Inv(Reschedule(SetTask(s, p, t).(saved := saved), p, e.later, interval), w)
  {
    hide *;
    var t' := t.(chkTime := NextChkTime(e.later, interval));
    RetimedOk(s.heap[p], t, e, interval, w);
    RescheduleIs(s, p, t, saved, e.later, interval);
    TouchKeeps(s, p, t', saved, w);
  }

  lemma SameTask<P>(s: State<P>, p: P)
    requires p in s.heap
    ensures TaskOf(s.heap, p) == s.heap[p]
    ensures SetTask(s, p, s.heap[p]).(saved := s.saved) == s && Continues(s.heap[p], s.heap[p])
  {
  }

  /** Putting a check off changes nothing else. */
  lemma PutOffKeeps<P>(s: State<P>, p: P, e: Env, interval: nat, w: World)
    requires Inv(s, w) && p in s.heap && ClockOk(e, w) && interval <= 300
    ensures Inv(Reschedule(s, p, e.later, interval), w)
  {
    hide *;
    InvParts(s, w);
    TaskIsOk(s.heap, p, w);
    SameTask(s, p);
    RescheduleKeeps(s, p, s.heap[p], s.saved, e, interval, w);
  }

  lemma TaskIsOk<P>(heap: map<P, Task>, p: P, w: World)
    requires TasksOk(heap, w) && p in heap
    ensures TaskOk(heap[p], w)
  {
  }

  /** The status files after `writeTaskStatusFile`. */
  function SavedAfter(saved: map<string, string>, t: Task, e: Env): map<string, string> {
    if e.paths && e.statusIo then saved[t.rec.taskId := StatusText(t)] else saved
  }

  lemma WriteStatusIs<P>(s: State<P>, p: P, t: Task, e: Env)
    ensures WriteStatus(SetTask(s, p, t), p, e) == SetTask(s, p, t).(saved := SavedAfter(s.saved, t, e))
  {
    hide StatusText;
  }

  /** Whatever report ids a task has, its status file is either refused or read as a status that a task can have. It is
      not refused if the ids and times are well formed. */
  lemma WrittenStatusOk(t: Task, w: World)
    requires TaskOk(t, w) && t.chkType != ChkDeleted && (w.wild || t.curReport != "")
    ensures StatusFileOk(StatusText(t), t.rec.taskId, w)
  {
    hide ParseStatus, EncodeStatus, IsUuid, Readable, Valid, Paged;
    ValidHasUuid(t.rec);
    WrittenKeepsPhase(t.rec.taskId, SavedOf(t));
    StatusTextIs(t);
    if !w.wild {
      WellFormedReadable(t);
      StatusRoundTripIff(t.rec.taskId, SavedOf(t));
    }
    if ParseStatus(StatusText(t), t.rec.taskId).Some? {
      ReadableParts(ParseStatus(StatusText(t), t.rec.taskId).value.value);
    }
  }

  lemma WellFormedReadable(t: Task)
    requires WellFormed(t) && t.curReport != "" && t.status != Failed && 0 <= t.progress <= 100
    ensures Readable(SavedOf(t))
  {
  }

  lemma ValidHasUuid(r: Record)
    requires Valid(r)
    ensures IsUuid(r.taskId)
  {
  }

  lemma StatusTextIs(t: Task)
    ensures StatusText(t) == EncodeStatus(t.rec.taskId, SavedOf(t))
  {
    hide EncodeStatus;
  }

  lemma ReadableParts(v: Saved)
    ensures Readable(v) ==> IsUuid(v.curReport) && v.curReport != "" && IsTimeText(v.startTime) && IsTimeText(v.stopTime)
    ensures Readable(v) ==>
      IsUuidOrEmpty(v.lastReport) && IsTimestampOrEmpty(v.startTime) && IsTimestampOrEmpty(v.stopTime)
  {
    if Readable(v) {
      ReadableTexts(v);
    }
  }

  lemma SavedAfterOk(saved: map<string, string>, t: Task, e: Env, w: World)
    requires AllSavedOk(saved, w) && TaskOk(t, w) && t.chkType != ChkDeleted && (w.wild || t.curReport != "")
    ensures AllSavedOk(SavedAfter(saved, t, e), w)
  {
    hide TaskOk, StatusFileOk, StatusText;
    WrittenStatusOk(t, w);
  }

  // ----- the task query

  /** A server that is not wild names no report ids but those of the right form. */
  predicate TaskReplyOk(r: TaskReply, w: World) {
    w.wild || (r.TaskReports? ==> IsUuidOrEmpty(r.cur) && IsUuidOrEmpty(r.last))
  }

  lemma StartedOk(t: Task, reportCnt: int, finishCnt: int, report: string, w: World)
    requires TaskOk(t, w) && t.chkType == ChkTask && report != "" && (w.wild || IsUuid(report))
    ensures var t' := Started(t, reportCnt, finishCnt, report);
      TaskOk(t', w) && t'.chkType == ChkReport && t'.curReport != "" && Continues(t, t') && t'.rec == t.rec
  {
    hide Valid, Paged, IsUuid;
  }

  lemma QueryTaskIs<P>(s: State<P>, p: P, e: Env)
    requires p in s.heap
    ensures var t := s.heap[p];
      var r := TaskAnswer(t, e.taskReply);
      var news := if r.TaskReports? then NewReport(t, r.cur, r.last) else None;
      QueryTask(s, p, e) ==
        if news.None? then Reschedule(s, p, e.later, Interval(ChkTask))
        else
          var t' := Started(t, r.reportCnt, r.finishCnt, news.value);
          Reschedule(SetTask(s, p, t').(saved := SavedAfter(s.saved, t', e)), p, e.later, 0)
  {
    hide Reschedule, WriteStatus, SetTask, NewReport, SavedAfter, TaskAnswer, Started;
    var t := s.heap[p];
    var r := TaskAnswer(t, e.taskReply);
    if r.TaskReports? && NewReport(t, r.cur, r.last).Some? {
      WriteStatusIs(s, p, Started(t, r.reportCnt, r.finishCnt, NewReport(t, r.cur, r.last).value), e);
    }
  }

  lemma NewReportNamed(t: Task, e: Env, w: World)
    requires TaskReplyOk(e.taskReply, w)
    ensures var r := TaskAnswer(t, e.taskReply);
      r.TaskReports? && NewReport(t, r.cur, r.last).Some? ==>
        var report := NewReport(t, r.cur, r.last).value; report != "" && (w.wild || IsUuid(report))
  {
    hide IsUuid;
  }

  lemma QueryTaskKeeps<P>(s: State<P>, p: P, e: Env, w: World)
    requires Inv(s, w) && p in s.heap && s.heap[p].chkType == ChkTask && ClockOk(e, w) && TaskReplyOk(e.taskReply, w)
    ensures Inv(QueryTask(s, p, e), w)
  {
    hide *;
    var t := s.heap[p];
    var r := TaskAnswer(t, e.taskReply);
    IntervalsSmall();
    QueryTaskIs(s, p, e);
    PutOffKeeps(s, p, e, Interval(ChkTask), w);
    if r.TaskReports? && NewReport(t, r.cur, r.last).Some? {
      var report := NewReport(t, r.cur, r.last).value;
      var t' := Started(t, r.reportCnt, r.finishCnt, report);
      NewReportNamed(t, e, w);
      InvParts(s, w);
      TaskIsOk(s.heap, p, w);
      StartedOk(t, r.reportCnt, r.finishCnt, report, w);
      SavedAfterOk(s.saved, t', e, w);
      RescheduleKeeps(s, p, t', SavedAfter(s.saved, t', e), e, 0, w);
    }
  }

  /** When a check finds a new report and its status file is written, the file gives the status of the task back if
      and only if the new report id and the one before it match the id pattern. `parseTask` takes any id over. */
  lemma QueryTaskSavedIff<P>(s: State<P>, p: P, e: Env, w: World)
    requires Inv(s, w) && p in s.heap && e.paths && e.statusIo && e.taskReply.TaskReports?
    requires NewReport(s.heap[p], e.taskReply.cur, e.taskReply.last).Some?
    ensures var s', t, id := QueryTask(s, p, e), s.heap[p], s.heap[p].rec.taskId;
      var report := NewReport(t, e.taskReply.cur, e.taskReply.last).value;
      && p in s'.heap && s'.heap[p].curReport == report && s'.heap[p].lastReport == t.curReport && id in s'.saved
      && (ParseStatus(s'.saved[id], id) == Some(Some(SavedOf(s'.heap[p]))) <==> IsUuid(report) && IsUuidOrEmpty(t.curReport))
      && (Text.Free(report, '\n') && Text.Free(t.curReport, '\n') ==>
            (ParseStatus(s'.saved[id], id).None? <==> !(IsUuid(report) && IsUuidOrEmpty(t.curReport))))
  {
    hide *;
    var t := s.heap[p];
    var report := NewReport(t, e.taskReply.cur, e.taskReply.last).value;
    var t' := Started(t, e.taskReply.reportCnt, e.taskReply.finishCnt, report);
    InvParts(s, w);
    TaskIsOk(s.heap, p, w);
    TaskOkParts(t, w);
    AnswersGiven(t, e);
    QueryTaskIs(s, p, e);
    StatusTextIs(t');
    StartedSaved(t, e.taskReply.reportCnt, e.taskReply.finishCnt, report);
    StatusRoundTripIff(t.rec.taskId, SavedOf(t'));
    if Text.Free(report, '\n') && Text.Free(t.curReport, '\n') {
      UnreadableFails(t.rec.taskId, SavedOf(t'));
    }
    RescheduledTask(s, p, t', SavedAfter(s.saved, t', e), e.later, 0);
    SavedUnder(s.saved, t', e);
  }

  lemma TaskOkParts(t: Task, w: World)
    requires TaskOk(t, w)
    ensures IsUuid(t.rec.taskId) && (t.chkType == ChkResult ==> IsUuid(t.curReport))
    ensures PhaseOk(t.status, t.chkType, t.progress, t.curReport)
    ensures t.chkType == ChkResult ==> Paged(t.result, w.results(t.curReport))
  {
  }

  lemma AnswersGiven(t: Task, e: Env)
    ensures IsUuid(t.rec.taskId) ==> TaskAnswer(t, e.taskReply) == e.taskReply
    ensures IsUuid(t.rec.taskId) && IsUuid(t.curReport) ==> ResultAnswer(t, e.resultReply) == e.resultReply
  {
  }

  lemma StartedSaved(t: Task, reportCnt: int, finishCnt: int, report: string)
    ensures var t' := Started(t, reportCnt, finishCnt, report);
      var v := SavedOf(t');
      && (Readable(v) <==> IsUuid(report) && IsUuidOrEmpty(t.curReport))
      && IsTimeText(v.startTime) && IsTimeText(v.stopTime) && v.curReport == report && v.lastReport == t.curReport
      && t'.rec == t.rec && t'.curReport == report && t'.lastReport == t.curReport
  {
    hide IsUuid;
  }

  lemma RescheduledTask<P>(s: State<P>, p: P, t: Task, saved: map<string, string>, clock: int, interval: int)
    ensures var s' := Reschedule(SetTask(s, p, t).(saved := saved), p, clock, interval);
      && p in s'.heap && s'.heap[p] == t.(chkTime := s'.heap[p].chkTime) && s'.saved == saved
      && SavedOf(s'.heap[p]) == SavedOf(t)
  {
    hide QueueByCheck, Without, NextChkTime;
  }

  lemma SavedUnder(saved: map<string, string>, t: Task, e: Env)
    requires e.paths && e.statusIo
    ensures t.rec.taskId in SavedAfter(saved, t, e) && SavedAfter(saved, t, e)[t.rec.taskId] == StatusText(t)
  {
    hide StatusText;
  }

  // ----- the report query

  /** The times of a report come out of `strftime`; years have four digits unless the server is wild. */
  predicate ReportReplyOk(r: ReportReply, w: World) {
    r.ReportStatus? ==>
      && IsTimeText(r.startTime) && IsTimeText(r.stopTime)
      && (w.wild || (IsTimestampOrEmpty(r.startTime) && IsTimestampOrEmpty(r.stopTime)))
  }

  lemma ReportedOk(t: Task, status: Status, progress: int, startTime: string, stopTime: string, w: World)
    requires TaskOk(t, w) && t.chkType == ChkReport && IsUuid(t.curReport)
    requires status != Failed && IsTimeText(startTime) && IsTimeText(stopTime)
    requires w.wild || (IsTimestampOrEmpty(startTime) && IsTimestampOrEmpty(stopTime))
    ensures var t1 := Reported(t, status, Clamp(progress), startTime, stopTime);
      var t2 := t1.(chkType := AfterReport(t1));
      && TaskOk(t2, w) && t2.chkType != ChkDeleted && t2.curReport != "" && Continues(t, t2) && t2.rec == t.rec
      && ReportInterval(t1) <= 300
  {
    hide Valid, IsUuid, StableSortOf;
    ResetIsPaged(w.results(t.curReport));
  }

  lemma QueryReportIs<P>(s: State<P>, p: P, e: Env)
    requires p in s.heap
    ensures var t, r := s.heap[p], ReportAnswer(s.heap[p], e.reportReply);
      QueryReport(s, p, e) ==
        if r.NoReportReply? || (ConvRunStatusName(r.name) == t.status && Clamp(r.progress) == t.progress)
        then Reschedule(s, p, e.later, Interval(ChkReport))
        else
          var t1 := Reported(t, ConvRunStatusName(r.name), Clamp(r.progress), r.startTime, r.stopTime);
          var t2 := t1.(chkType := AfterReport(t1));
          Reschedule(SetTask(s, p, t2).(saved := SavedAfter(s.saved, t2, e)), p, e.later, ReportInterval(t1))
  {
    hide Reschedule, WriteStatus, SetTask, SavedAfter, ReportAnswer, Reported, AfterReport, ConvRunStatusName, Clamp,
         ReportInterval;
    var t, r := s.heap[p], ReportAnswer(s.heap[p], e.reportReply);
    if r.ReportStatus? {
      var t1 := Reported(t, ConvRunStatusName(r.name), Clamp(r.progress), r.startTime, r.stopTime);
      WriteStatusIs(s, p, t1.(chkType := AfterReport(t1)), e);
    }
  }

  lemma AnsweredReport(t: Task, e: Env, w: World)
    requires ReportAnswer(t, e.reportReply).ReportStatus? && ReportReplyOk(e.reportReply, w)
    ensures IsUuid(t.curReport) && t.curReport != "" && ConvRunStatusName(ReportAnswer(t, e.reportReply).name) != Failed
    ensures var r := ReportAnswer(t, e.reportReply);
      && IsTimeText(r.startTime) && IsTimeText(r.stopTime)
      && (w.wild || (IsTimestampOrEmpty(r.startTime) && IsTimestampOrEmpty(r.stopTime)))
  {
  }

  lemma QueryReportKeeps<P>(s: State<P>, p: P, e: Env, w: World)
    requires Inv(s, w) && p in s.heap && s.heap[p].chkType == ChkReport && ClockOk(e, w) && ReportReplyOk(e.reportReply, w)
    ensures Inv(QueryReport(s, p, e), w)
  {
    hide *;
    var t, r := s.heap[p], ReportAnswer(s.heap[p], e.reportReply);
    IntervalsSmall();
    QueryReportIs(s, p, e);
    PutOffKeeps(s, p, e, Interval(ChkReport), w);
    if r.ReportStatus? {
      InvParts(s, w);
      TaskIsOk(s.heap, p, w);
      AnsweredReport(t, e, w);
      ReportedOk(t, ConvRunStatusName(r.name), r.progress, r.startTime, r.stopTime, w);
      var t1 := Reported(t, ConvRunStatusName(r.name), Clamp(r.progress), r.startTime, r.stopTime);
      var t2 := t1.(chkType := AfterReport(t1));
      SavedAfterOk(s.saved, t2, e, w);
      RescheduleKeeps(s, p, t2, SavedAfter(s.saved, t2, e), e, ReportInterval(t1), w);
    }
  }

  // ----- the result query

  /** A reply to a result query comes from the fixed result list of the report. */
  ghost predicate ResultReplyOk(t: Task, reply: Option<Page>, w: World) {
    t.chkType == ChkResult && !t.result.done && reply.Some? ==>
      Results.Answers(reply.value, w.results(t.curReport), t.result.first, t.result.rows)
  }

  lemma ResultFetched(t: Task, reply: Option<Page>, w: World)
    requires TaskOk(t, w) && t.chkType == ChkResult && ResultReplyOk(t, reply, w)
    ensures TaskOk(t.(result := Round(t.result, reply)), w)
    ensures Continues(t, t.(result := Round(t.result, reply)))
  {
    hide Valid, IsUuid, Paged, Round, Results.Answers;
    AnswersQuery(t, reply, w);
    RoundPaged(t.result, if t.result.done then None else reply, w.results(t.curReport));
  }

  lemma AnswersQuery(t: Task, reply: Option<Page>, w: World)
    requires ResultReplyOk(t, reply, w) && t.chkType == ChkResult
    ensures !t.result.done && reply.Some? ==>
      Results.Answers(reply.value, w.results(t.curReport), t.result.first, t.result.rows)
    ensures t.result.done ==> Round(t.result, reply) == Round(t.result, None)
  {
  }

  lemma ResultsWritten(t: Task, w: World)
    requires TaskOk(t, w) && t.chkType == ChkResult
    ensures var t' := t.(result := RESET, chkType := ChkTask);
      TaskOk(t', w) && Continues(t, t')
  {
    hide Valid, IsUuid;
  }

  /** What `backend_query_result` amounts to: one round of fetching, and the next phase once all is written. */
  lemma QueryResultIs<P>(s: State<P>, p: P, e: Env)
    requires p in s.heap
    ensures var t := s.heap[p];
      var t1 := t.(result := Round(t.result, ResultAnswer(t, e.resultReply)));
      var t2 := t.(result := RESET, chkType := ChkTask);
      QueryResult(s, p, e) == Reschedule(SetTask(s, p, t1).(saved := s.saved), p, e.later, Interval(ChkResult))
      || QueryResult(s, p, e)
         == Reschedule(SetTask(s, p, t2).(saved := SavedAfter(s.saved, t2, e)), p, e.later, Interval(ChkTask))
  {
    hide Reschedule, Absorb, ResultAnswer, StatusText;
    var t := s.heap[p];
    var t1 := t.(result := Round(t.result, ResultAnswer(t, e.resultReply)));
    var t2 := t.(result := RESET, chkType := ChkTask);
    var t3 := t1.(chkType := ChkTask);
    WriteStatusIs(s, p, t3, e);
    assert SavedAfter(s.saved, t3, e) == SavedAfter(s.saved, t2, e) by {
      SameStatusText(t3, t2);
    }
    assert SetTask(SetTask(s, p, t3).(saved := SavedAfter(s.saved, t3, e)), p, t2)
        == SetTask(s, p, t2).(saved := SavedAfter(s.saved, t2, e)) by {
      assert s.heap[p := t3][p := t2] == s.heap[p := t2];
    }
    assert SetTask(s, p, t1).(saved := s.saved) == SetTask(s, p, t1);
  }

  lemma SameStatusText(t: Task, t': Task)
    requires t' == t.(result := t'.result)
    ensures StatusText(t) == StatusText(t')
  {
  }

  lemma QueryResultKeeps<P>(s: State<P>, p: P, e: Env, w: World)
    requires Inv(s, w) && p in s.heap && s.heap[p].chkType == ChkResult && ClockOk(e, w)
    requires ResultReplyOk(s.heap[p], e.resultReply, w)
    ensures Inv(QueryResult(s, p, e), w)
  {
    hide *;
    var t := s.heap[p];
    InvParts(s, w);
    TaskIsOk(s.heap, p, w);
    TaskOkParts(t, w);
    AnswersGiven(t, e);
    ResultFetched(t, e.resultReply, w);
    ResultsWritten(t, w);
    QueryResultIs(s, p, e);
    IntervalsSmall();
    var t1 := t.(result := Round(t.result, e.resultReply));
    var t2 := t.(result := RESET, chkType := ChkTask);
    RescheduleKeeps(s, p, t1, s.saved, e, Interval(ChkResult), w);
    SavedAfterOk(s.saved, t2, e, w);
    RescheduleKeeps(s, p, t2, SavedAfter(s.saved, t2, e), e, Interval(ChkTask), w);
  }

  lemma IntervalsSmall()
    ensures forall k: ChkType :: Interval(k) <= 300
  {
  }
}
