/** Every command and every background check keeps the invariant, and what their answers promise. */
module DaemonCommands {
  import opened Wrappers
  import opened Ordering
  import opened StrOrder
  import opened TaskRecord
  import opened TaskCreate
  import opened Tokens
  import opened Results
  import opened StatusFile
  import opened DaemonState
  import opened Registry
  import opened DaemonInv
  import opened DaemonSteps
  import opened DaemonFiles

  // ----- creating

  lemma CreateTaskIs<P>(s: State<P>, p: P, param: CreateParam, e: Env)
    ensures var rec := BuildRecord(param, e.answers, e.stamp);
      var (code, s') := CreateTask(s, p, param, e);
      if !ParamOk(param) || !s.connOk || FindTask(s, param.name).Some? || rec.None? then code != Ok && s' == s
      else
        var t := NewTask(rec.value).(chkTime := NextChkTime(e.later, 300));
        var r := CreateFiles(SetTask(s, p, t), p, e);
        code == (if r.0 then Ok else InternalFail) && s' == if r.0 then r.1 else Free(r.1, p)
  {
    hide ParamOk, BuildRecord, CreateFiles, FindTask;
  }

  lemma CreatedTaskOk(rec: Record, e: Env, w: World)
    requires Valid(rec) && ClockOk(e, w)
    ensures TaskOk(NewTask(rec).(chkTime := NextChkTime(e.later, 300)), w)
  {
  }

  lemma SavedLess(saved: map<string, string>, id: string, w: World)
    requires AllSavedOk(saved, w)
    ensures AllSavedOk(saved - {id}, w)
  {
  }

  lemma CreatedOnDisk<P>(s: State<P>, io: bool)
    requires Registered(s) && forall p | p in s.heap :: Valid(s.heap[p].rec)
    requires WriteTaskFile(s, io).Some?
    ensures OnDisk(WriteTaskFile(s, io).value.file, s.heap)
  {
    hide *;
    RegisteredParts(s);
    WrittenMirrors(s, io, s.heap.Keys);
    assert (map p | p in s.heap && p in s.heap.Keys :: s.heap[p]) == s.heap;
  }

  lemma CreateWrites<P>(s: State<P>, p: P, e: Env)
    requires p in s.heap && p !in s.runque && CreateFiles(s, p, e).0
    ensures var s' := CreateFiles(s, p, e).1;
      WriteTaskFile(s', e.taskFileIo).Some? && WriteTaskFile(s', e.taskFileIo).value.file == s'.file
  {
    hide FileText, QueueByCheck, QueueByCreate, DelTask;
  }

  /** Creation keeps the invariant; when it does not succeed, the registry is exactly as it was. */
  lemma CreateTaskKeeps<P>(s: State<P>, p: P, param: CreateParam, e: Env, w: World)
    requires Inv(s, w) && p !in s.heap && InBuffers(param) && IsTimestamp(e.stamp) && ClockOk(e, w)
    ensures var (code, s') := CreateTask(s, p, param, e);
      && Inv(s', w)
      && (code != Ok ==> s' == s.(capacity := s'.capacity, saved := s'.saved))
      && (code == Ok ==> p in s'.heap && s'.heap == s.heap[p := s'.heap[p]] && s'.heap[p].rec.taskName == param.name
                         && Registered(s'))
  {
    hide *;
    InvParts(s, w);
    CreateTaskIs(s, p, param, e);
    var rec := BuildRecord(param, e.answers, e.stamp);
    FindIsLookup(s, s.heap.Keys, param.name);
    CreatedIsValid(param, e.answers, e.stamp);
    if ParamOk(param) && s.connOk && FindTask(s, param.name).None? && rec.Some? {
      var t := NewTask(rec.value).(chkTime := NextChkTime(e.later, 300));
      CreatedTaskOk(rec.value, e, w);
      NewTaskRecord(rec.value);
      RegisteredFrom(s);
      CreateFilesStep(s, p, t, e);
      var (ok, s') := CreateFiles(SetTask(s, p, t), p, e);
      TasksTouch(s.heap, p, t, w);
      if ok {
        HoldsIn(s.runque, s.heap.Keys, p);
        SetTaskSaved(s, p, t, s.saved);
        CreateWrites(SetTask(s, p, t), p, e);
        CreatedInRunOrder(s, p, t, w);
        TasksValid(s'.heap, w);
        CreatedOnDisk(s', e.taskFileIo);
        RegisteredParts(s');
        InvFromParts(s', w);
      } else {
        SavedLess(s.saved, t.rec.taskId, w);
        RegisteredParts(Free(s', p));
        InvFromParts(Free(s', p), w);
      }
    } else {
      InvFromParts(s, w);
    }
  }

  lemma NewTaskRecord(rec: Record)
    ensures forall time: int :: NewTask(rec).(chkTime := time).rec == rec
  {
  }

  lemma CreatedInRunOrder<P>(s: State<P>, p: P, t: Task, w: World)
    requires TasksOk(s.heap, w) && TaskOk(t, w) && p !in s.heap
    requires Holds(s.runque, s.heap.Keys) && RunOrder(s.heap, s.runque, w)
    ensures RunOrder(s.heap[p := t], QueueByCheck(s.heap[p := t], s.runque, p), w)
  {
    hide TaskOk, TasksOk, Sorted, QueueByCheck, ChkTimes, Holds;
    TasksInRange(s.heap, w);
    InRange(t, w);
    forall x | x in s.runque ensures x in s.heap {
      HoldsIn(s.runque, s.heap.Keys, x);
    }
    ChkTimesFrame(s.heap, s.heap[p := t], s.runque);
    QueueKeepsOrder(s.heap[p := t], s.runque, p, w);
  }

  /** A created task is found under its name from then on, and all other names lead where they led before. */
  lemma CreatedIsFound<P>(s: State<P>, p: P, param: CreateParam, e: Env, w: World, name: string)
    requires Inv(s, w) && p !in s.heap && InBuffers(param) && IsTimestamp(e.stamp) && ClockOk(e, w)
    requires CreateTask(s, p, param, e).0 == Ok
    ensures var s' := CreateTask(s, p, param, e).1;
      FindTask(s', name) == if name == param.name then Some(p) else FindTask(s, name)
  {
    hide *;
    CreateTaskKeeps(s, p, param, e, w);
    var s' := CreateTask(s, p, param, e).1;
    InvParts(s, w);
    RegisteredParts(s');
    LookUp(s, name);
    LookUp(s', name);
  }

  /** A created task can be started and deleted at once, but not stopped, and its first check is due after exactly the
      longest interval. */
  lemma CreatedIsIdle<P>(s: State<P>, p: P, param: CreateParam, e: Env, key: Key, e': Env, w: World)
    requires Inv(s, w) && p !in s.heap && InBuffers(param) && IsTimestamp(e.stamp) && ClockOk(e, w)
    requires CreateTask(s, p, param, e).0 == Ok && KeyOk(key) && key.name == param.name
    ensures var s' := CreateTask(s, p, param, e).1;
      && (StartTask(s', key, e').0 == Ok <==> e'.startOk)
      && (DeleteTask(s', key, e').0 == Ok <==> e'.deleteOk)
      && StopTask(s', key, e').0 == TaskIsNotRunning
      && p in s'.heap && forall now :: Expired(s'.heap[p], now) <==> now >= e.later + 300
  {
    hide *;
    CreateTaskIs(s, p, param, e);
    CreateTaskKeeps(s, p, param, e, w);
    CreatedIsFound(s, p, param, e, w, param.name);
    var s' := CreateTask(s, p, param, e).1;
    var rec := BuildRecord(param, e.answers, e.stamp).value;
    CreatedIsValid(param, e.answers, e.stamp);
    InvParts(s, w);
    RegisteredFrom(s);
    FindIsLookup(s, s.heap.Keys, param.name);
    NewTaskRecord(rec);
    CreateFilesStep(s, p, NewTask(rec).(chkTime := NextChkTime(e.later, 300)), e);
    NewIsIdle(rec, e, w);
    TaskOfIs(s'.heap, p);
    IdleAnswers(s', p, key, e');
  }

  lemma NewIsIdle(rec: Record, e: Env, w: World)
    requires ClockOk(e, w)
    ensures var t := NewTask(rec).(chkTime := NextChkTime(e.later, 300));
      !IsBusy(t) && !IsRunning(t) && forall now :: Expired(t, now) <==> now >= e.later + 300
  {
  }

  lemma IdleAnswers<P>(s: State<P>, p: P, key: Key, e: Env)
    requires KeyOk(key) && s.connOk && FindTask(s, key.name) == Some(p)
    requires !IsBusy(TaskOf(s.heap, p)) && !IsRunning(TaskOf(s.heap, p))
    ensures StartTask(s, key, e).0 == Ok <==> e.startOk
    ensures DeleteTask(s, key, e).0 == Ok <==> e.deleteOk
    ensures StopTask(s, key, e).0 == TaskIsNotRunning
  {
    hide KeyOk, FindTask, DeleteFiles, IsBusy, IsRunning, Reschedule;
  }

  /** Looking a name up in the registry. */
  lemma LookUp<P>(s: State<P>, name: string)
    requires InOrder(s, s.heap.Keys)
    ensures forall p | p in s.heap && s.heap[p].rec.taskName == name :: FindTask(s, name) == Some(p)
    ensures FindTask(s, name).Some? ==>
      var p := FindTask(s, name).value; p in s.heap && s.heap[p].rec.taskName == name
  {
    hide InOrder, FindTask;
    FindIsLookup(s, s.heap.Keys, name);
    var r := FindTask(s, name);
    forall p | p in s.heap && s.heap[p].rec.taskName == name ensures r == Some(p) {
      assert NameOf(s, p) == name;
      NamesDistinct(s, p, r.value);
    }
  }

  // ----- starting and stopping

  /** Starting and stopping only bring the next check forward. */
  lemma StartStopKeeps<P>(s: State<P>, key: Key, e: Env, w: World)
    requires Inv(s, w) && ClockOk(e, w)
    ensures Inv(StartTask(s, key, e).1, w) && Inv(StopTask(s, key, e).1, w)
  {
    hide Inv, KeyOk, FindTask, Reschedule, ClockOk, InOrder, TasksOk, Holds, RunOrder, OnDisk, AllSavedOk;
    InvParts(s, w);
    LookUp(s, key.name);
    if FindTask(s, key.name).Some? {
      PutOffKeeps(s, FindTask(s, key.name).value, e, 0, w);
    }
  }

  /** In every reachable state the phase alone decides: starting and deleting succeed exactly for a task in the idle
      phase, stopping exactly for one that runs, which is only so while its report is followed. */
  lemma CommandsRespectPhases<P>(s: State<P>, key: Key, e: Env, w: World)
    requires Inv(s, w)
    ensures var found := FindTask(s, key.name);
      var t := if found.Some? then TaskOf(s.heap, found.value) else BLANK;
      var known := KeyOk(key) && s.connOk && found.Some?;
      && (StartTask(s, key, e).0 == Ok <==> known && e.startOk && t.chkType == ChkTask)
      && (DeleteTask(s, key, e).0 == Ok <==> known && e.deleteOk && t.chkType == ChkTask)
      && (StopTask(s, key, e).0 == Ok <==> known && e.stopOk && t.status in {Waiting, Running})
      && (StopTask(s, key, e).0 == Ok ==> t.chkType == ChkReport)
  {
    hide Inv, KeyOk, FindTask, Reschedule, InOrder, TasksOk, Holds, RunOrder, OnDisk, AllSavedOk, DeleteFiles, Valid,
         IsUuid, Paged;
    InvParts(s, w);
    LookUp(s, key.name);
    if FindTask(s, key.name).Some? {
      TaskIsOk(s.heap, FindTask(s, key.name).value, w);
    }
  }

  // ----- deleting

  function Cleared(t: Task, e: Env): Task {
    t.(rec := ClearMarks(t.rec, e))
  }

  lemma DeleteTaskIs<P>(s: State<P>, key: Key, e: Env)
    ensures var found := FindTask(s, key.name);
      var (code, s') := DeleteTask(s, key, e);
      if !KeyOk(key) || !s.connOk || found.None? then code != Ok && s' == s
      else
        var p, t := found.value, TaskOf(s.heap, found.value);
        if IsBusy(t) || !e.deleteOk then code != Ok && s' == s
        else
          var (ok, s1) := DeleteFiles(SetTask(s, p, Cleared(t, e)), p, e);
          code == Ok && s' == if ok then Free(s1, p) else SetTask(s1, p, TaskOf(s1.heap, p).(chkType := ChkDeleted))
  {
    hide KeyOk, FindTask, DeleteFiles;
  }

  lemma ClearedIs(t: Task, e: Env)
    requires Valid(t.rec)
    ensures Valid(Cleared(t, e).rec)
    ensures Cleared(t, e).rec.taskName == t.rec.taskName && Cleared(t, e).rec.createTime == t.rec.createTime
    ensures Cleared(t, e).rec.taskId == t.rec.taskId && Cleared(t, e).chkTime == t.chkTime
    ensures MarksDropped(t.rec, Cleared(t, e).rec)
  {
  }

  lemma PendingOk(t: Task, e: Env, w: World)
    requires TaskOk(t, w) && !IsBusy(t)
    ensures TaskOk(Cleared(t, e).(chkType := ChkDeleted), w)
    ensures forall r :: Agrees(r, t) ==> Agrees(r, Cleared(t, e).(chkType := ChkDeleted))
  {
    hide IsUuid, Paged, IsName, IsComm, IsHostList, ScheduleOk, IsTimestamp;
  }

  lemma ClearedRegistered<P>(s: State<P>, p: P, t: Task)
    requires Registered(s) && p in s.heap
    requires t.rec.taskName == s.heap[p].rec.taskName && t.rec.createTime == s.heap[p].rec.createTime
    ensures Registered(s.(heap := s.heap[p := t]))
  {
    hide *;
    RegisteredParts(s);
    var s' := s.(heap := s.heap[p := t]);
    assert s'.heap.Keys == s.heap.Keys;
    RegisteredTouch(s, s', p, t);
    RegisteredFrom(s');
  }

  /** A deletion that comes through leaves no trace of the task; one that does not leaves it waiting for the
      background. Either way the invariant holds. */
  lemma DeleteTaskKeeps<P>(s: State<P>, key: Key, e: Env, w: World)
    requires Inv(s, w)
    ensures Inv(DeleteTask(s, key, e).1, w)
  {
    hide *;
    InvParts(s, w);
    RegisteredFrom(s);
    DeleteTaskIs(s, key, e);
    LookUp(s, key.name);
    var found := FindTask(s, key.name);
    if KeyOk(key) && s.connOk && found.Some? && e.deleteOk && !IsBusy(TaskOf(s.heap, found.value)) {
      var p := found.value;
      TaskOfIs(s.heap, p);
      TaskIsOk(s.heap, p, w);
      DeleteCommitted(s, p, e, w);
    }
  }

  lemma DeleteCommitted<P>(s: State<P>, p: P, e: Env, w: World)
    requires Inv(s, w) && p in s.heap && !IsBusy(s.heap[p])
    ensures var (ok, s1) := DeleteFiles(SetTask(s, p, Cleared(s.heap[p], e)), p, e);
      && (ok ==> Inv(Free(s1, p), w) && Free(s1, p).heap == s.heap - {p})
      && (!ok ==> p in s1.heap && Inv(SetTask(s1, p, TaskOf(s1.heap, p).(chkType := ChkDeleted)), w)
                  && SetTask(s1, p, TaskOf(s1.heap, p).(chkType := ChkDeleted)).heap
                     == s.heap[p := Cleared(s.heap[p], e).(chkType := ChkDeleted)])
  {
    hide *;
    var t := Cleared(s.heap[p], e);
    var s0 := SetTask(s, p, t);
    InvParts(s, w);
    RegisteredFrom(s);
    TasksValid(s.heap, w);
    ClearedIs(s.heap[p], e);
    SetTaskSaved(s, p, t, s.saved);
    ClearedRegistered(s, p, t);
    DeleteFilesStep(s0, p, e);
    var (ok, s1) := DeleteFiles(s0, p, e);
    FreeIs(s1, p);
    if ok {
      assert s0.heap - {p} == s.heap - {p};
      PartsWithout(s.heap, s.runque, s.saved, p, t.rec.taskId, w);
      DeleteFilesOnDisk(s0, p, e);
      RegisteredParts(Free(s1, p));
      InvFromParts(Free(s1, p), w);
    } else {
      DeletePending(s, p, e, s1, w);
    }
  }

  lemma DeletePending<P>(s: State<P>, p: P, e: Env, s1: State<P>, w: World)
    requires Inv(s, w) && p in s.heap && !IsBusy(s.heap[p])
    requires s1 == s.(heap := s.heap[p := Cleared(s.heap[p], e)], createque := s1.createque) && Registered(s1)
    ensures var s' := SetTask(s1, p, TaskOf(s1.heap, p).(chkType := ChkDeleted));
      && s'.heap == s.heap[p := Cleared(s.heap[p], e).(chkType := ChkDeleted)]
      && Inv(s', w)
  {
    hide *;
    var t := Cleared(s.heap[p], e).(chkType := ChkDeleted);
    TaskOfIs(s1.heap, p);
    SetTaskSaved(s1, p, t, s1.saved);
    InvParts(s, w);
    TaskIsOk(s.heap, p, w);
    TasksValid(s.heap, w);
    ClearedIs(s.heap[p], e);
    PendingOk(s.heap[p], e, w);
    assert s1.heap[p := t] == s.heap[p := t];
    var s' := s1.(heap := s.heap[p := t]);
    ClearedRegistered(s1, p, t);
    RegisteredParts(s');
    TasksTouch(s.heap, p, t, w);
    OnDiskChange(s.file, s.heap, p, t);
    SameTimes(s.heap, s'.heap, s.runque, p, w);
    InvFromParts(s', w);
  }

  lemma SameTimes<P>(h: map<P, Task>, h': map<P, Task>, q: seq<P>, p: P, w: World)
    requires RunOrder(h, q, w) && Holds(q, h.Keys) && p in h && p in h' && h' == h[p := h'[p]]
    requires h[p].chkTime == h'[p].chkTime
    ensures RunOrder(h', q, w)
  {
  }

  // ----- the background checks

  /** A background check keeps the invariant, whatever it finds. */
  lemma RunChecksKeeps<P>(s: State<P>, e: Env, w: World)
    requires Inv(s, w) && ClockOk(e, w) && TaskReplyOk(e.taskReply, w) && ReportReplyOk(e.reportReply, w)
    requires |s.runque| > 0 ==> ResultReplyOk(TaskOf(s.heap, s.runque[0]), e.resultReply, w)
    ensures Inv(RunChecks(s, e).1, w)
  {
    hide Inv, ClockOk, TaskReplyOk, ReportReplyOk, ResultReplyOk, QueryTask, QueryReport, QueryResult, DeleteFiles, Reschedule,
         Free, InOrder, Holds, RunOrder, TasksOk, AllSavedOk, OnDisk;
    if s.connOk && |s.runque| > 0 {
      var p := s.runque[0];
      InvParts(s, w);
      HoldsIn(s.runque, s.heap.Keys, p);
      match s.heap[p].chkType {
        case ChkTask => QueryTaskKeeps(s, p, e, w);
        case ChkReport => QueryReportKeeps(s, p, e, w);
        case ChkResult => QueryResultKeeps(s, p, e, w);
        case ChkDeleted =>
          DeleteFilesKeeps(s, p, e, w);
          var (ok, s') := DeleteFiles(s, p, e);
          if !ok {
            PutOffKeeps(s', p, e, Interval(ChkDeleted), w);
          }
      }
    }
  }

  /** An idle answer with a good connection means that no task is due: looking at the head is enough. */
  lemma IdleMeansNothingDue<P>(s: State<P>, e: Env, w: World)
    requires Inv(s, w) && !w.late && s.connOk && !RunChecks(s, e).0
    ensures RunChecks(s, e).1 == s
    ensures forall p | p in s.heap :: !Expired(s.heap[p], e.now)
  {
    hide QueryTask, QueryReport, QueryResult, DeleteFiles, Reschedule, InOrder, Valid, PhaseOk, Paged, OnDisk, AllSavedOk,
         Holds, Sorted;
    forall p | p in s.heap ensures !Expired(s.heap[p], e.now) {
      HoldsIn(s.runque, s.heap.Keys, p);
      var i :| 0 <= i < |s.runque| && s.runque[i] == p;
      HoldsIn(s.runque, s.heap.Keys, s.runque[0]);
      HeadIsEarliest(s, i, w);
    }
  }

  lemma HeadIsEarliest<P>(s: State<P>, i: nat, w: World)
    requires !w.late && RunOrder(s.heap, s.runque, w) && TasksOk(s.heap, w) && Holds(s.runque, s.heap.Keys) && i < |s.runque|
    ensures s.runque[0] in s.heap && s.runque[i] in s.heap
    ensures s.heap[s.runque[0]].chkTime <= s.heap[s.runque[i]].chkTime
  {
    hide Valid, PhaseOk, Paged, TaskOk;
    HoldsIn(s.runque, s.heap.Keys, s.runque[0]);
    HoldsIn(s.runque, s.heap.Keys, s.runque[i]);
    TasksInRange(s.heap, w);
    var times := ChkTimes(s.heap, s.runque);
    if i > 0 {
      assert CmpChkTime(times[0], times[i]) <= 0;
    }
  }

  /** When the result file of a report is written, every result that the server holds is in it, once, ordered by
      host and otherwise as the server lists them. */
  lemma ResultsComplete<P>(s: State<P>, p: P, e: Env, w: World)
    requires Inv(s, w) && p in s.heap && s.heap[p].chkType == ChkResult && p in s.runque
    requires ResultReplyOk(s.heap[p], e.resultReply, w)
    requires TaskOf(QueryResult(s, p, e).heap, p).chkType != ChkResult
    ensures var info := Round(s.heap[p].result, e.resultReply);
      && info.done && StableSortOf(info.results, w.results(s.heap[p].curReport), CmpHost)
      && forall i, j | 0 <= i < j < |info.results| :: StrCmp(info.results[i].host, info.results[j].host) <= 0
  {
    hide *;
    var t := s.heap[p];
    InvParts(s, w);
    TaskIsOk(s.heap, p, w);
    TaskOkParts(t, w);
    AnswersGiven(t, e);
    ResultFetched(t, e.resultReply, w);
    FetchedPaged(t.(result := Round(t.result, e.resultReply)), w);
    DoneIsAll(Round(t.result, e.resultReply), w.results(t.curReport));
    LeavesWhenDone(s, p, e);
    HostsInOrder(Round(t.result, e.resultReply).results, w.results(t.curReport));
  }

  lemma FetchedPaged(t: Task, w: World)
    requires TaskOk(t, w) && t.chkType == ChkResult
    ensures Paged(t.result, w.results(t.curReport))
  {
  }

  lemma DoneIsAll(info: Info, all: seq<Nvt>)
    requires Paged(info, all)
    ensures info.done ==> StableSortOf(info.results, all, CmpHost)
  {
    hide StableSortOf;
    assert info.done ==> all[..|info.results|] == all;
  }

  lemma LeavesWhenDone<P>(s: State<P>, p: P, e: Env)
    requires p in s.heap && s.heap[p].chkType == ChkResult && ResultAnswer(s.heap[p], e.resultReply) == e.resultReply
    ensures TaskOf(QueryResult(s, p, e).heap, p).chkType != ChkResult ==> Round(s.heap[p].result, e.resultReply).done
  {
  }
}
