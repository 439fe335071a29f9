/** The commands and the background checks as the program runs them on the shared data. Each method is proved to be
    the step of `DaemonState` of the same name, and to leave no freed task in any queue. */
module GvmDaemon {
  import opened Wrappers
  import opened OwnedLists
  import opened TaskRecord
  import opened TaskCreate
  import opened Tokens
  import opened Results
  import opened ResultText
  import opened StatusFile
  import opened GvmTasks
  import opened GvmData
  import D = DaemonState
  import R = Registry
  import I = DaemonInv
  import F = DaemonFiles
  import C = DaemonCommands

  lemma ChangeNothing<P>(s: D.State<P>, p: P, t: D.Task)
    requires p in s.heap && s.heap[p] == t
    ensures D.SetTask(s, p, t) == s && D.TaskOf(s.heap, p) == t
  {
    assert s.heap[p := s.heap[p]] == s.heap;
  }

  lemma NewReportIs(t: D.Task, cur: string, last: string)
    ensures D.NewReport(t.(chkTime := 0), cur, last) == D.NewReport(t, cur, last)
  {
  }

  lemma StartedIs(t: D.Task, reportCnt: int, finishCnt: int, report: string)
    ensures var t' := D.Started(t, reportCnt, finishCnt, report);
      && t' == D.Started(t.(chkTime := 0), reportCnt, finishCnt, report).(chkTime := t.chkTime)
      && t'.rec == t.rec
  {
  }

  /** A report that the task does not know yet is taken over. */
  method TakeReport(data: GvmData, task: GvmTask, r: D.TaskReply) returns (needUpdate: bool)
    requires data.Valid() && task in data.heap && r.TaskReports?
    modifies data`heap, task
    ensures data.Valid() && task in data.heap
    ensures var t := old(data.heap)[task];
      match D.NewReport(t, r.cur, r.last)
      case None => !needUpdate && data.State() == old(data.State())
      case Some(report) =>
        && needUpdate
        && data.State() == D.SetTask(old(data.State()), task, D.Started(t, r.reportCnt, r.finishCnt, report))
  {
    hide *;
    ghost var s, t := data.State(), data.heap[task];
    data.ValidIs();
    data.ApartIs(data.heap.Keys, data.mainFoot, data.runFoot);
    data.Loosen(task);
    FieldsAre(task);
    NewReportIs(t, r.cur, r.last);
    if D.NewReport(t, r.cur, r.last).Some? {
      StartedIs(t, r.reportCnt, r.finishCnt, D.NewReport(t, r.cur, r.last).value);
      StartedIs(t.(chkTime := 0), r.reportCnt, r.finishCnt, D.NewReport(t, r.cur, r.last).value);
    }
    ChangeNothing(s, task, t);
    needUpdate := task.TakeReport(r);
    FieldsAre(task);
    data.Sync(task);
  }

  /** `backend_query_task`; the query and the parsing of its answer are in `e`. */
  method BackendQueryTask(data: GvmData, task: GvmTask, e: D.Env)
    requires data.Valid() && task in data.heap
    modifies data, data.Parts()
    ensures data.Valid()
    ensures data.State() == D.QueryTask(old(data.State()), task, e)
  {
    hide *;
    data.ValidIs();
    data.PartsHold();
    FieldsOf(data.heap, task);
    QueryTaskIs(data.State(), task, e);
    var interval := 300;
    if IsUuid(task.rec.taskId) && e.taskReply.TaskReports? {
      var needUpdate := TakeReport(data, task, e.taskReply);
      if needUpdate {
        data.WriteTaskStatusFile(task, e);
        interval := 0;
      }
    }
    data.Reschedule(task, e.later, interval);
  }

  lemma QueryTaskIs<P>(s: D.State<P>, p: P, e: D.Env)
    requires p in s.heap
    ensures var t, r := s.heap[p], e.taskReply;
      D.QueryTask(s, p, e) ==
        if IsUuid(t.rec.taskId) && r.TaskReports? && D.NewReport(t, r.cur, r.last).Some? then
          D.Reschedule(D.WriteStatus(D.SetTask(s, p, D.Started(t, r.reportCnt, r.finishCnt,
            D.NewReport(t, r.cur, r.last).value)), p, e), p, e.later, 0)
        else D.Reschedule(s, p, e.later, 300)
  {
    hide D.Reschedule, D.WriteStatus, D.SetTask, D.NewReport, D.Started, IsUuid;
  }

  lemma ReportedIs(t: D.Task, status: Status, progress: int, start: string, stop: string)
    ensures var u := t.(chkTime := 0);
      var t1, u1 := D.Reported(t, status, progress, start, stop), D.Reported(u, status, progress, start, stop);
      && u1.(chkType := D.AfterReport(u1)).(chkTime := t.chkTime) == t1.(chkType := D.AfterReport(t1))
      && D.ReportInterval(u1) == D.ReportInterval(t1)
      && t1.rec == t.rec && u1.rec == t.rec
  {
  }

  /** What a report says about a task is taken over, if it is news. */
  method TakeStatus(data: GvmData, task: GvmTask, status: Status, progress: int, start: string, stop: string)
    returns (needUpdate: bool, interval: nat)
    requires data.Valid() && task in data.heap
    modifies data`heap, task
    ensures data.Valid() && task in data.heap
    ensures var t := old(data.heap)[task];
      var t1 := D.Reported(t, status, progress, start, stop);
      if status == t.status && progress == t.progress then
        !needUpdate && interval == 120 && data.State() == old(data.State())
      else
        && needUpdate && interval == D.ReportInterval(t1)
        && data.State() == D.SetTask(old(data.State()), task, t1.(chkType := D.AfterReport(t1)))
  {
    hide *;
    ghost var s, t := data.State(), data.heap[task];
    data.ValidIs();
    data.ApartIs(data.heap.Keys, data.mainFoot, data.runFoot);
    data.Loosen(task);
    FieldsAre(task);
    ReportedIs(t, status, progress, start, stop);
    ChangeNothing(s, task, t);
    needUpdate, interval := task.TakeStatus(status, progress, start, stop);
    FieldsAre(task);
    data.Sync(task);
  }

  /** `backend_query_report`. */
  method BackendQueryReport(data: GvmData, task: GvmTask, e: D.Env)
    requires data.Valid() && task in data.heap
    modifies data, data.Parts()
    ensures data.Valid()
    ensures data.State() == D.QueryReport(old(data.State()), task, e)
  {
    hide *;
    data.ValidIs();
    data.PartsHold();
    FieldsOf(data.heap, task);
    FieldsAre(task);
    QueryReportIs(data.State(), task, e);
    var interval := 120;
    if IsUuid(task.curReport) && e.reportReply.ReportStatus? {
      var progress := if 0 <= e.reportReply.progress <= 100 then e.reportReply.progress else 0;
      var needUpdate, wait := TakeStatus(data, task, D.ConvRunStatusName(e.reportReply.name), progress,
                                         e.reportReply.startTime, e.reportReply.stopTime);
      interval := wait;
      if needUpdate {
        data.WriteTaskStatusFile(task, e);
      }
    }
    data.Reschedule(task, e.later, interval);
  }

  lemma QueryReportIs<P>(s: D.State<P>, p: P, e: D.Env)
    requires p in s.heap
    ensures var t, r := s.heap[p], e.reportReply;
      var progress := if r.ReportStatus? && 0 <= r.progress <= 100 then r.progress else 0;
      D.QueryReport(s, p, e) ==
        if !IsUuid(t.curReport) || r.NoReportReply?
           || (D.ConvRunStatusName(r.name) == t.status && progress == t.progress)
        then D.Reschedule(s, p, e.later, 120)
        else
          var t1 := D.Reported(t, D.ConvRunStatusName(r.name), progress, r.startTime, r.stopTime);
          D.Reschedule(D.WriteStatus(D.SetTask(s, p, t1.(chkType := D.AfterReport(t1))), p, e), p, e.later,
                       D.ReportInterval(t1))
  {
    hide D.Reschedule, D.WriteStatus, D.SetTask, D.ConvRunStatusName, D.Reported, D.AfterReport, D.ReportInterval, IsUuid;
  }

  lemma FetchedIs(t: D.Task, e: D.Env)
    ensures D.Fetched(t, e) ==
      if t.result.done then (0, t.result)
      else if IsUuid(t.rec.taskId) && IsUuid(t.curReport) && e.resultReply.Some? then
        Absorb(t.result, e.resultReply.value)
      else (-1, t.result)
  {
    hide Absorb, IsUuid;
  }

  twostate lemma OnlyResult(task: GvmTask)
    requires unchanged(task)
    ensures task.Fields() == old(task.Fields()).(result := task.result.Value())
  {
  }

  /** The fetching part of `backend_query_result`. */
  method FetchResults(data: GvmData, task: GvmTask, e: D.Env) returns (ret: int)
    requires data.Valid() && task in data.heap
    modifies data`heap, task.result
    ensures data.Valid() && task in data.heap && data.Parts() == old(data.Parts())
    ensures var t := old(data.heap)[task];
      && ret == D.Fetched(t, e).0
      && data.State() == D.SetTask(old(data.State()), task, t.(result := D.Fetched(t, e).1))
  {
    hide *;
    ghost var h, t := data.heap, data.heap[task];
    data.ValidIs();
    data.ApartIs(data.heap.Keys, data.mainFoot, data.runFoot);
    data.Loosen(task);
    FetchedIs(t, e);
    FieldsAre(task);
    ret := 0;
    if !task.result.done {
      if IsUuid(task.rec.taskId) && IsUuid(task.curReport) && e.resultReply.Some? {
        ret := task.result.ParseResult(e.resultReply.value);
      } else {
        ret := -1;
      }
    }
    OnlyResult(task);
    FieldsAre(task);
    data.Sync(task);
    assert data.heap.Keys == h.Keys;
    data.SameParts(h);
  }

  /** The part of `backend_query_result` that ends a report. */
  method FinishResults(data: GvmData, task: GvmTask, e: D.Env)
    requires data.Valid() && task in data.heap
    modifies data`heap, data`saved, task, task.result
    ensures data.Valid() && task in data.heap
    ensures var s, t := old(data.State()), old(data.heap)[task];
      data.State() == D.SetTask(D.WriteStatus(D.SetTask(s, task, t.(chkType := ChkTask)), task, e), task,
                                t.(chkType := ChkTask, result := RESET))
  {
    hide *;
    data.ValidIs();
    data.ApartIs(data.heap.Keys, data.mainFoot, data.runFoot);
    data.Loosen(task);
    FieldsAre(task);
    task.SetChkType(ChkTask);
    FieldsAre(task);
    data.Sync(task);
    ResetResults(data, task, e);
  }

  /** The status file is written, and `resetGvmResultInfo`. */
  method ResetResults(data: GvmData, task: GvmTask, e: D.Env)
    requires data.Valid() && task in data.heap
    modifies data`heap, data`saved, task.result
    ensures data.Valid() && task in data.heap
    ensures data.State()
         == D.SetTask(D.WriteStatus(old(data.State()), task, e), task, old(data.heap)[task].(result := RESET))
  {
    hide *;
    data.WriteTaskStatusFile(task, e);
    data.ValidIs();
    data.ApartIs(data.heap.Keys, data.mainFoot, data.runFoot);
    data.Loosen(task);
    FieldsAre(task);
    label L:
    task.result.Reset();
    OnlyResult@L(task);
    FieldsAre(task);
    data.Sync(task);
  }

  /** `backend_query_result`; `written` is the text that goes into the result file. */
  method BackendQueryResult(data: GvmData, task: GvmTask, outbuf: Buffer, e: D.Env) returns (written: Option<string>)
    requires data.Valid() && task in data.heap && outbuf.capacity == D.WRITE_LIMIT && outbuf !in data.Parts()
    modifies data, data.Parts(), outbuf
    ensures data.Valid()
    ensures data.State() == D.QueryResult(old(data.State()), task, e)
    ensures written == D.ResultFile(old(data.heap)[task], e)
  {
    hide *;
    data.ValidIs();
    data.PartsHold();
    QueryResultIs(data.State(), task, e);
    var interval := 5;
    written := None;
    var ret := FetchResults(data, task, e);
    data.ValidIs();
    FieldsOf(data.heap, task);
    FieldsAre(task);
    if ret == 0 && task.result.done {
      ret, written := FinishReport(data, task, outbuf, e);
      if ret == 0 {
        interval := 300;
      }
    }
    data.ValidIs();
    data.Reschedule(task, e.later, interval);
  }

  /** The results are printed and written, and the task starts over, if there is room for them. */
  method FinishReport(data: GvmData, task: GvmTask, outbuf: Buffer, e: D.Env) returns (ret: int, written: Option<string>)
    requires data.Valid() && task in data.heap && outbuf.capacity == D.WRITE_LIMIT && outbuf !in data.Parts()
    modifies data`heap, data`saved, task, task.result, outbuf
    ensures data.Valid() && task in data.heap
    ensures var s, t := old(data.State()), old(data.heap)[task];
      if Printable(t.result.results, D.WRITE_LIMIT) then
        && ret == 0 && written == (if e.paths then Some(NvtText(t.result.results)) else None)
        && data.State() == D.SetTask(D.WriteStatus(D.SetTask(s, task, t.(chkType := ChkTask)), task, e), task,
                                     t.(chkType := ChkTask, result := RESET))
      else ret != 0 && written == None && data.State() == s
  {
    hide *;
    data.ValidIs();
    written := None;
    ret := PrintResults(data, task, outbuf);
    if ret == 0 {
      if e.paths {
        written := Some(outbuf.text);
      }
      FinishResults(data, task, e);
    }
  }

  /** `printNvts` on the results of a task. */
  method PrintResults(data: GvmData, task: GvmTask, outbuf: Buffer) returns (ret: int)
    requires data.Valid() && task in data.heap && outbuf !in data.Parts()
    modifies outbuf
    ensures data.Valid() && data.State() == old(data.State())
    ensures var results := data.heap[task].result.results;
      && (ret == 0 <==> Printable(results, outbuf.capacity))
      && (ret == 0 ==> outbuf.text == NvtText(results))
  {
    hide *;
    data.ValidIs();
    data.PartsHold();
    FieldsOf(data.heap, task);
    FieldsAre(task);
    OtherBuffer(outbuf, data, task);
    ret := PrintNvts(outbuf, task.result.results);
    data.ValidIs();
  }

  lemma QueryResultIs<P>(s: D.State<P>, p: P, e: D.Env)
    requires p in s.heap
    ensures var t := s.heap[p];
      var (ret, info) := D.Fetched(t, e);
      var s1 := D.SetTask(s, p, t.(result := info));
      var finishes := ret == 0 && info.done && Printable(info.results, D.WRITE_LIMIT);
      && p in s1.heap && s1.heap[p] == t.(result := info)
      && D.ResultFile(t, e) == (if finishes && e.paths then Some(NvtText(info.results)) else None)
      && D.QueryResult(s, p, e) ==
        if finishes then
          D.Reschedule(D.SetTask(D.WriteStatus(D.SetTask(s1, p, s1.heap[p].(chkType := ChkTask)), p, e), p,
                                 s1.heap[p].(chkType := ChkTask, result := RESET)), p, e.later, 300)
        else D.Reschedule(s1, p, e.later, 5)
  {
    hide D.Reschedule, D.Fetched, D.WriteStatus, Printable, NvtText;
    var t := s.heap[p];
    var t1 := t.(result := D.Fetched(t, e).1);
    assert s.heap[p := t1][p := t.(result := RESET, chkType := ChkTask)] == s.heap[p := t.(result := RESET, chkType := ChkTask)];
    assert s.heap[p := t1][p := t1.(chkType := ChkTask)] == s.heap[p := t1.(chkType := ChkTask)];
  }

  // ----- the scheduler

  /** Once the registry is in order without the task, no queue leads to it any more. */
  lemma FreedIsGone<P>(s: D.State<P>, p: P)
    requires I.Registered(D.Free(s, p))
    ensures p !in s.createque && p !in s.runque && p !in s.nameset
  {
  }

  /** Taking a registered task out by its name takes out that task. */
  lemma GoneFromQueue<P>(s: D.State<P>, p: P)
    requires I.Registered(s) && p in s.heap
    ensures var removed := D.DelTask(s, s.heap[p].rec.taskName);
      removed.Some? ==> p !in removed.value.createque
  {
    hide *;
    F.RegisteredParts(s);
    F.NameOfIs(s, p);
    R.DeleteInOrder(s, p, s.heap.Keys);
    var removed := D.DelTask(s, s.heap[p].rec.taskName);
    if removed.Some? {
      F.KnownTasks(removed.value, s.heap.Keys - {p});
      I.HoldsIn(removed.value.createque, s.heap.Keys - {p}, p);
    }
  }

  /** The files of a registered task go, and the task with them, if they can. */
  method DropTask(data: GvmData, task: GvmTask, buffer: Buffer, e: D.Env) returns (ret: int)
    requires data.Valid() && task in data.heap && I.Registered(data.State())
    requires buffer.capacity == D.WRITE_LIMIT && buffer !in data.Parts()
    modifies data, data.Parts(), buffer
    ensures data.Valid() && (ret != 0 ==> task in data.heap) && data.runFoot == old(data.runFoot)
    ensures var (ok, s') := D.DeleteFiles(old(data.State()), task, e);
      (ret == 0) == ok && data.State() == if ok then D.Free(s', task) else s'
  {
    hide *;
    data.ValidIs();
    data.PartsHold();
    GoneFromQueue(data.State(), task);
    F.DeleteFilesStep(data.State(), task, e);
    ret := data.DelTaskRelationFiles(task, buffer, e);
    data.ValidIs();
    if ret == 0 {
      FreedIsGone(data.State(), task);
      data.FreeTask(task);
    }
  }

  /** `runGvmChecks`: looks at the head of the run queue and says whether it was due. */
  method RunGvmChecks(data: GvmData, buffer: Buffer, outbuf: Buffer, e: D.Env) returns (busy: bool)
    requires data.Valid() && I.Registered(data.State())
    requires buffer.capacity == D.WRITE_LIMIT && buffer !in data.Parts()
    requires outbuf.capacity == D.WRITE_LIMIT && outbuf !in data.Parts()
    modifies data, data.Parts(), buffer, outbuf
    ensures data.Valid()
    ensures (busy, data.State()) == D.RunChecks(old(data.State()), e)
  {
    hide *;
    data.ValidIs();
    data.PartsHold();
    RunChecksIs(data.State(), e);
    if !data.connOk {
      return false;
    }
    var head := data.NextToCheck();
    data.ValidIs();
    if head.None? {
      return false;
    }
    var task := head.value;
    FieldsOf(data.heap, task);
    data.CheckTimeIs(task);
    FieldsAre(task);
    if e.now < task.runlist.key.val {
      return false;
    }
    busy := true;
    if task.chkType == ChkTask {
      BackendQueryTask(data, task, e);
    } else if task.chkType == ChkReport {
      BackendQueryReport(data, task, e);
    } else if task.chkType == ChkResult {
      var _ := BackendQueryResult(data, task, outbuf, e);
    } else {
      DropOrPutOff(data, task, buffer, e);
    }
  }

  /** A deletion in the background: it is put off when it fails. */
  method DropOrPutOff(data: GvmData, task: GvmTask, buffer: Buffer, e: D.Env)
    requires data.Valid() && task in data.heap && I.Registered(data.State())
    requires buffer.capacity == D.WRITE_LIMIT && buffer !in data.Parts()
    modifies data, data.Parts(), buffer
    ensures data.Valid()
    ensures var (ok, s') := D.DeleteFiles(old(data.State()), task, e);
      data.State() == if ok then D.Free(s', task) else D.Reschedule(s', task, e.later, 300)
  {
    hide *;
    data.PartsHold();
    var ret := DropTask(data, task, buffer, e);
    if ret != 0 {
      data.PartsHold();
      data.Reschedule(task, e.later, 300);
    }
  }

  lemma RunChecksIs<P>(s: D.State<P>, e: D.Env)
    ensures D.RunChecks(s, e) ==
      if !s.connOk || |s.runque| == 0 then (false, s)
      else
        var p := s.runque[0];
        var t := D.TaskOf(s.heap, p);
        if e.now < t.chkTime then (false, s)
        else if t.chkType == ChkTask then (true, D.QueryTask(s, p, e))
        else if t.chkType == ChkReport then (true, D.QueryReport(s, p, e))
        else if t.chkType == ChkResult then (true, D.QueryResult(s, p, e))
        else
          var (ok, s') := D.DeleteFiles(s, p, e);
          (true, if ok then D.Free(s', p) else D.Reschedule(s', p, e.later, 300))
  {
    hide D.QueryTask, D.QueryReport, D.QueryResult, D.DeleteFiles, D.Reschedule, D.Free;
  }

  // ----- commands

  /** `daemon_start_task`. */
  method DaemonStartTask(data: GvmData, key: D.Key, e: D.Env) returns (code: D.Code)
    requires data.Valid()
    modifies data, data.Parts()
    ensures data.Valid()
    ensures (code, data.State()) == D.StartTask(old(data.State()), key, e)
  {
    hide *;
    data.ValidIs();
    data.PartsHold();
    StartTaskIs(data.State(), key, e);
    if !D.KeyOk(key) {
      return D.ParamInvalid;
    }
    if !data.connOk {
      return D.GvmdConn;
    }
    var found := data.FindTask(key.name);
    data.ValidIs();
    if found.None? {
      return D.TaskNotFound;
    }
    var task := found.value;
    FieldsOf(data.heap, task);
    BusyIs(data.heap[task]);
    if task.IsBusy() {
      return D.TaskIsBusy;
    }
    if !e.startOk {
      return D.ProcFail;
    }
    data.Reschedule(task, e.later, 0);
    code := D.Ok;
  }

  lemma BusyIs(t: D.Task)
    ensures D.IsBusy(t.(chkTime := 0)) == D.IsBusy(t) && D.IsRunning(t.(chkTime := 0)) == D.IsRunning(t)
  {
  }

  lemma StartTaskIs<P>(s: D.State<P>, key: D.Key, e: D.Env)
    ensures var found := D.FindTask(s, key.name);
      D.StartTask(s, key, e) ==
        if !D.KeyOk(key) then (D.ParamInvalid, s)
        else if !s.connOk then (D.GvmdConn, s)
        else if found.None? then (D.TaskNotFound, s)
        else if D.IsBusy(D.TaskOf(s.heap, found.value)) then (D.TaskIsBusy, s)
        else if !e.startOk then (D.ProcFail, s)
        else (D.Ok, D.Reschedule(s, found.value, e.later, 0))
  {
    hide D.KeyOk, D.FindTask, D.IsBusy, D.Reschedule;
  }

  /** `daemon_stop_task`. */
  method DaemonStopTask(data: GvmData, key: D.Key, e: D.Env) returns (code: D.Code)
    requires data.Valid()
    modifies data, data.Parts()
    ensures data.Valid()
    ensures (code, data.State()) == D.StopTask(old(data.State()), key, e)
  {
    hide *;
    data.ValidIs();
    data.PartsHold();
    StopTaskIs(data.State(), key, e);
    if !D.KeyOk(key) {
      return D.ParamInvalid;
    }
    if !data.connOk {
      return D.GvmdConn;
    }
    var found := data.FindTask(key.name);
    data.ValidIs();
    if found.None? {
      return D.TaskNotFound;
    }
    var task := found.value;
    FieldsOf(data.heap, task);
    BusyIs(data.heap[task]);
    if !task.IsRunning() {
      return D.TaskIsNotRunning;
    }
    if !e.stopOk {
      return D.ProcFail;
    }
    data.Reschedule(task, e.later, 0);
    code := D.Ok;
  }

  lemma StopTaskIs<P>(s: D.State<P>, key: D.Key, e: D.Env)
    ensures var found := D.FindTask(s, key.name);
      D.StopTask(s, key, e) ==
        if !D.KeyOk(key) then (D.ParamInvalid, s)
        else if !s.connOk then (D.GvmdConn, s)
        else if found.None? then (D.TaskNotFound, s)
        else if !D.IsRunning(D.TaskOf(s.heap, found.value)) then (D.TaskIsNotRunning, s)
        else if !e.stopOk then (D.ProcFail, s)
        else (D.Ok, D.Reschedule(s, found.value, e.later, 0))
  {
    hide D.KeyOk, D.FindTask, D.IsRunning, D.Reschedule;
  }

  lemma MarksKeepKeys(t: D.Task, e: D.Env)
    ensures var r := D.ClearMarks(t.rec, e);
      r.taskName == t.rec.taskName && r.createTime == t.rec.createTime && C.Cleared(t, e) == t.(rec := r)
  {
  }

  /** The marks that the server made obsolete are cleared. */
  method ClearMarks(data: GvmData, task: GvmTask, e: D.Env)
    requires data.Valid() && task in data.heap
    modifies data`heap, task
    ensures data.Valid() && task in data.heap
    ensures data.State() == D.SetTask(old(data.State()), task, C.Cleared(old(data.heap)[task], e))
  {
    hide *;
    ghost var t := data.heap[task];
    data.ValidIs();
    data.ApartIs(data.heap.Keys, data.mainFoot, data.runFoot);
    data.Loosen(task);
    FieldsAre(task);
    MarksKeepKeys(t, e);
    task.ClearMarks(e);
    data.Sync(task);
  }

  /** `setTaskChkType` for a deletion that could not be completed. */
  method MarkDeleted(data: GvmData, task: GvmTask)
    requires data.Valid() && task in data.heap
    modifies data`heap, task
    ensures data.Valid()
    ensures data.State() == D.SetTask(old(data.State()), task, old(data.heap)[task].(chkType := ChkDeleted))
  {
    hide *;
    data.ValidIs();
    data.ApartIs(data.heap.Keys, data.mainFoot, data.runFoot);
    data.Loosen(task);
    FieldsAre(task);
    task.SetChkType(ChkDeleted);
    FieldsAre(task);
    data.Sync(task);
  }

  /** `daemon_delete_task`: the task is freed as soon as its files are gone, and otherwise left to the background. */
  method DaemonDeleteTask(data: GvmData, buffer: Buffer, key: D.Key, e: D.Env) returns (code: D.Code)
    requires data.Valid() && I.Registered(data.State())
    requires buffer.capacity == D.WRITE_LIMIT && buffer !in data.Parts()
    modifies data, data.Parts(), buffer
    ensures data.Valid()
    ensures (code, data.State()) == D.DeleteTask(old(data.State()), key, e)
  {
    hide *;
    data.ValidIs();
    data.PartsHold();
    DeleteTaskIs(data.State(), key, e);
    if !D.KeyOk(key) {
      return D.ParamInvalid;
    }
    if !data.connOk {
      return D.GvmdConn;
    }
    var found := data.FindTask(key.name);
    data.ValidIs();
    if found.None? {
      return D.TaskNotFound;
    }
    var task := found.value;
    FieldsOf(data.heap, task);
    BusyIs(data.heap[task]);
    if task.IsBusy() {
      return D.TaskIsBusy;
    }
    if !e.deleteOk {
      return D.ProcFail;
    }
    DeleteFound(data, task, buffer, e);
    code := D.Ok;
  }

  /** The deletion of a task that the server has agreed to. */
  method DeleteFound(data: GvmData, task: GvmTask, buffer: Buffer, e: D.Env)
    requires data.Valid() && task in data.heap && I.Registered(data.State())
    requires buffer.capacity == D.WRITE_LIMIT && buffer !in data.Parts()
    modifies data, data.Parts(), buffer
    ensures data.Valid()
    ensures var s := old(data.State());
      var (ok, s') := D.DeleteFiles(D.SetTask(s, task, C.Cleared(s.heap[task], e)), task, e);
      data.State()
      == if ok then D.Free(s', task) else D.SetTask(s', task, D.TaskOf(s'.heap, task).(chkType := ChkDeleted))
  {
    hide *;
    ghost var s := data.State();
    data.ValidIs();
    data.PartsHold();
    MarksKeepKeys(data.heap[task], e);
    I.SetTaskSaved(s, task, C.Cleared(data.heap[task], e), s.saved);
    C.ClearedRegistered(s, task, C.Cleared(data.heap[task], e));
    ClearMarks(data, task, e);
    data.ValidIs();
    data.SameParts(s.heap);
    var ret := DropTask(data, task, buffer, e);
    if ret != 0 {
      data.ValidIs();
      data.PartsHold();
      F.TaskOfIs(data.heap, task);
      MarkDeleted(data, task);
    }
  }

  lemma DeleteTaskIs<P>(s: D.State<P>, key: D.Key, e: D.Env)
    ensures var found := D.FindTask(s, key.name);
      D.DeleteTask(s, key, e) ==
        if !D.KeyOk(key) then (D.ParamInvalid, s)
        else if !s.connOk then (D.GvmdConn, s)
        else if found.None? then (D.TaskNotFound, s)
        else if D.IsBusy(D.TaskOf(s.heap, found.value)) then (D.TaskIsBusy, s)
        else if !e.deleteOk then (D.ProcFail, s)
        else
          var p := found.value;
          var (ok, s') := D.DeleteFiles(D.SetTask(s, p, C.Cleared(D.TaskOf(s.heap, p), e)), p, e);
          (D.Ok, if ok then D.Free(s', p) else D.SetTask(s', p, D.TaskOf(s'.heap, p).(chkType := ChkDeleted)))
  {
    hide D.KeyOk, D.FindTask, D.IsBusy, D.DeleteFiles;
  }

  lemma CreateTaskIs<P>(s: D.State<P>, p: P, param: CreateParam, e: D.Env)
    ensures var rec := BuildRecord(param, e.answers, e.stamp);
      D.CreateTask(s, p, param, e) ==
        if !ParamOk(param) then (D.ParamInvalid, s)
        else if !s.connOk then (D.GvmdConn, s)
        else if D.FindTask(s, param.name).Some? then (D.AlreadyExists, s)
        else if rec.None? then (D.ProcFail, s)
        else
          var r := D.CreateFiles(D.SetTask(s, p, D.NewTask(rec.value).(chkTime := D.NextChkTime(e.later, 300))), p, e);
          if r.0 then (D.Ok, r.1) else (D.InternalFail, D.Free(r.1, p))
  {
    hide ParamOk, D.FindTask, BuildRecord, D.CreateFiles, D.NextChkTime;
  }

  lemma FilledIs(rec: Record)
    ensures D.NewTask(D.NO_RECORD).(rec := rec) == D.NewTask(rec) && D.NewTask(rec).rec == rec
    ensures forall time: int :: D.NewTask(rec).(chkTime := time).rec == rec
  {
  }

  lemma OtherObjects(data: GvmData, t: GvmTask)
    ensures (data as object) != t && (data as object) != t.result
    ensures (data as object) != t.mainlist && (data as object) != t.runlist
  {
  }

  lemma OtherBuffer(buffer: Buffer, data: GvmData, t: GvmTask)
    ensures (buffer as object) != data
    ensures (buffer as object) != t && (buffer as object) != t.result
    ensures (buffer as object) != t.mainlist && (buffer as object) != t.runlist
  {
  }

  /** A new task is registered, written down and queued, or freed again. */
  method RegisterTask(data: GvmData, t: GvmTask, rec: Record, buffer: Buffer, param: CreateParam, e: D.Env)
    returns (code: D.Code)
    requires data.Valid() && I.Registered(data.State()) && InBuffers(param) && IsTimestamp(e.stamp)
    requires ParamOk(param) && D.FindTask(data.State(), param.name).None?
    requires BuildRecord(param, e.answers, e.stamp) == Some(rec)
    requires t !in data.heap && t.result !in data.owner && t !in data.createque
    requires t !in data.Parts() && t.result !in data.Parts() && t.mainlist !in data.Parts() && t.runlist !in data.Parts()
    requires t.Fields() == D.NewTask(rec) && t.rec == rec
    requires t.mainlist.Detached() && t.mainlist.key == Key(rec.createTime, t)
    requires t.runlist.Detached() && t.runlist.key == Key(D.NextChkTime(e.later, 300), t)
    requires buffer.capacity == D.WRITE_LIMIT && buffer !in data.Parts()
    modifies data, data.Parts(), buffer, t.mainlist, t.runlist
    ensures data.Valid()
    ensures var s := old(data.State());
      var r := D.CreateFiles(D.SetTask(s, t, D.NewTask(rec).(chkTime := D.NextChkTime(e.later, 300))), t, e);
      (code, data.State()) == if r.0 then (D.Ok, r.1) else (D.InternalFail, D.Free(r.1, t))
  {
    hide *;
    ghost var s := data.State();
    data.ValidIs();
    data.PartsHold();
    OtherObjects(data, t);
    OtherBuffer(buffer, data, t);
    NewNameFree(s, rec, param, e);
    FilledIs(rec);
    F.CreateFilesStep(s, t, D.NewTask(rec).(chkTime := D.NextChkTime(e.later, 300)), e);
    label L:
    data.Adopt(t);
    data.AdoptedParts@L(t);
    data.ValidIs();
    data.PartsHold();
    var ret := data.CreateTaskRelationFiles(t, buffer, e);
    if ret == 0 {
      return D.Ok;
    }
    data.ValidIs();
    FreedIsGone(data.State(), t);
    data.FreeTask(t);
    code := D.InternalFail;
  }

  lemma NewNameFree<P>(s: D.State<P>, rec: Record, param: CreateParam, e: D.Env)
    requires I.Registered(s) && InBuffers(param) && IsTimestamp(e.stamp) && ParamOk(param)
    requires D.FindTask(s, param.name).None? && BuildRecord(param, e.answers, e.stamp) == Some(rec)
    ensures R.NameFree(s, s.heap.Keys, rec.taskName)
  {
    hide *;
    F.RegisteredParts(s);
    R.FindIsLookup(s, s.heap.Keys, param.name);
    CreatedIsValid(param, e.answers, e.stamp);
  }

  /** The record and the first check time of a task that the registry does not know yet. */
  method FillTask(data: GvmData, t: GvmTask, rec: Record, e: D.Env)
    requires data.Valid() && t.Fields() == D.NewTask(D.NO_RECORD) && t.mainlist.Detached() && t.runlist.Detached()
    requires t !in data.Parts() && t.mainlist !in data.Parts() && t.runlist !in data.Parts()
    modifies t, t.mainlist, t.runlist
    ensures data.Valid() && data.State() == old(data.State())
    ensures data.Parts() == old(data.Parts()) && data.owner == old(data.owner)
    ensures t.Fields() == D.NewTask(rec) && t.rec == rec
    ensures t.mainlist.Detached() && t.mainlist.key == Key(rec.createTime, t)
    ensures t.runlist.Detached() && t.runlist.key == Key(D.NextChkTime(e.later, 300), t)
  {
    hide *;
    data.ValidIs();
    data.PartsHold();
    FilledIs(rec);
    OtherObjects(data, t);
    t.Fill(rec);
    t.SetNextChkTime(e.later, 300);
    FieldsAre(t);
    data.ValidIs();
  }

  /** `daemon_create_task`: the task object is the new one, and it is freed again unless it gets registered. */
  method DaemonCreateTask(data: GvmData, buffer: Buffer, param: CreateParam, e: D.Env)
    returns (code: D.Code, ghost task: GvmTask)
    requires data.Valid() && I.Registered(data.State()) && InBuffers(param) && IsTimestamp(e.stamp)
    requires buffer.capacity == D.WRITE_LIMIT && buffer !in data.Parts()
    modifies data, data.Parts(), buffer
    ensures data.Valid() && fresh(task)
    ensures (code, data.State()) == D.CreateTask(old(data.State()), task, param, e)
  {
    hide *;
    var t := data.NewGvmTask();
    task := t;
    data.ValidIs();
    CreateTaskIs(data.State(), t, param, e);
    if !ParamOk(param) {
      return D.ParamInvalid, task;
    }
    if !data.connOk {
      return D.GvmdConn, task;
    }
    var known := data.FindTask(param.name);
    data.ValidIs();
    if known.Some? {
      return D.AlreadyExists, task;
    }
    var rec := BuildRecord(param, e.answers, e.stamp);
    if rec.None? {
      return D.ProcFail, task;
    }
    FillTask(data, t, rec.value, e);
    code := RegisterTask(data, t, rec.value, buffer, param, e);
  }
}
