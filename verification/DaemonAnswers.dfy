/** When the commands of the daemon succeed, and the code they answer when they do not. */
module DaemonAnswers {
  import opened Wrappers
  import Text
  import opened Ordering
  import opened StrOrder
  import opened TaskRecord
  import opened Tokens
  import opened TaskCreate
  import opened Results
  import opened StatusFile
  import opened DaemonState
  import opened Registry
  import opened DaemonInv
  import opened DaemonSteps
  import opened DaemonFiles
  import opened DaemonCommands
  import opened DaemonEffects

  ghost predicate Known<P>(s: State<P>, name: string) {
    exists p :: p in s.heap && s.heap[p].rec.taskName == name
  }

  ghost predicate Idle<P>(s: State<P>, name: string) {
    exists p :: p in s.heap && s.heap[p].rec.taskName == name && s.heap[p].chkType == ChkTask
  }

  ghost predicate Runs<P>(s: State<P>, name: string) {
    exists p :: p in s.heap && s.heap[p].rec.taskName == name && s.heap[p].status in {Waiting, Running}
  }

  /** The answer of a command that is given a task by its key: the first test that fails decides. */
  ghost function AnswerTo<P>(s: State<P>, key: Key, fit: bool, unfit: Code, serverOk: bool): Code {
    if !IsName(key.name) || !IsUuid(key.taskId) || !IsUuid(key.targetId) then ParamInvalid
    else if !s.connOk then GvmdConn
    else if !Known(s, key.name) then TaskNotFound
    else if !fit then unfit
    else if !serverOk then ProcFail
    else Ok
  }

  /** Starting and deleting need a task in the idle phase, stopping one that runs or waits. */
  lemma AnswersOf<P>(s: State<P>, key: Key, e: Env, w: World)
    requires Inv(s, w)
    ensures StartTask(s, key, e).0 == AnswerTo(s, key, Idle(s, key.name), TaskIsBusy, e.startOk)
    ensures StopTask(s, key, e).0 == AnswerTo(s, key, Runs(s, key.name), TaskIsNotRunning, e.stopOk)
    ensures DeleteTask(s, key, e).0 == AnswerTo(s, key, Idle(s, key.name), TaskIsBusy, e.deleteOk)
  {
    hide *;
    InvParts(s, w);
    LookUp(s, key.name);
    var found := FindTask(s, key.name);
    CodesAre(s, key, e);
    PlacesOf(s, key.name, w);
    AnswerIs(s, key, Idle(s, key.name), TaskIsBusy, e.startOk);
    AnswerIs(s, key, Runs(s, key.name), TaskIsNotRunning, e.stopOk);
    AnswerIs(s, key, Idle(s, key.name), TaskIsBusy, e.deleteOk);
  }

  lemma AnswerIs<P>(s: State<P>, key: Key, fit: bool, unfit: Code, serverOk: bool)
    ensures AnswerTo(s, key, fit, unfit, serverOk) ==
      if !KeyOk(key) then ParamInvalid
      else if !s.connOk then GvmdConn
      else if !Known(s, key.name) then TaskNotFound
      else if !fit then unfit
      else if !serverOk then ProcFail
      else Ok
  {
    hide IsName, IsUuid, Known;
  }

  lemma CodesAre<P>(s: State<P>, key: Key, e: Env)
    ensures var found := FindTask(s, key.name);
      var t := if found.Some? then TaskOf(s.heap, found.value) else BLANK;
      var first := if !KeyOk(key) then ParamInvalid else if !s.connOk then GvmdConn else TaskNotFound;
      var known := KeyOk(key) && s.connOk && found.Some?;
      && StartTask(s, key, e).0
         == (if !known then first else if IsBusy(t) then TaskIsBusy else if e.startOk then Ok else ProcFail)
      && StopTask(s, key, e).0
         == (if !known then first else if !IsRunning(t) then TaskIsNotRunning else if e.stopOk then Ok else ProcFail)
      && DeleteTask(s, key, e).0
         == (if !known then first else if IsBusy(t) then TaskIsBusy else if e.deleteOk then Ok else ProcFail)
  {
    hide KeyOk, FindTask, Reschedule, DeleteFiles, IsBusy, IsRunning, SetTask;
  }

  /** The task of a name decides what is said about the name. */
  lemma PlacesOf<P>(s: State<P>, name: string, w: World)
    requires Inv(s, w)
    ensures var found := FindTask(s, name);
      var t := if found.Some? then TaskOf(s.heap, found.value) else BLANK;
      && (Known(s, name) <==> found.Some?)
      && (found.Some? ==> (Idle(s, name) <==> !IsBusy(t)) && (Runs(s, name) <==> IsRunning(t)))
  {
    hide Inv, FindTask, InOrder, TasksOk, Holds, RunOrder, OnDisk, AllSavedOk, Valid, IsUuid, Paged, IsTimeText, WellFormed;
    InvParts(s, w);
    LookUp(s, name);
    if FindTask(s, name).Some? {
      TaskIsOk(s.heap, FindTask(s, name).value, w);
    }
  }

  // ----- room in the task file

  lemma {:induction false} SizeConcat(a: seq<Record>, b: seq<Record>)
    ensures |EncodeAll(a + b)| == |EncodeAll(a)| + |EncodeAll(b)|
  {
    hide TaskRecord.Encode;
    if |a| == 0 {
      assert a + b == b;
    } else {
      assert (a + b)[1..] == a[1..] + b;
      SizeConcat(a[1..], b);
    }
  }

  lemma SizeOne(r: Record)
    ensures |EncodeAll([r])| == |TaskRecord.Encode(r)|
  {
    hide TaskRecord.Encode;
    assert [r][1..] == [];
    assert EncodeAll([]) == "";
  }

  lemma SizeInsert(rs: seq<Record>, i: nat, r: Record)
    requires i <= |rs|
    ensures |EncodeAll(rs[..i] + [r] + rs[i..])| == |EncodeAll(rs)| + |TaskRecord.Encode(r)|
  {
    hide *;
    SizeOne(r);
    SizeConcat(rs[..i] + [r], rs[i..]);
    SizeConcat(rs[..i], [r]);
    SizeConcat(rs[..i], rs[i..]);
    assert rs[..i] + rs[i..] == rs;
  }

  /** The size of the task file as it is written for the registry. */
  function FileSize<P(==)>(s: State<P>): nat {
    |EncodeAll(Records(s.heap, s.createque))|
  }

  lemma WriteIff<P>(s: State<P>, io: bool)
    ensures WriteTaskFile(s, io).Some? <==> io && |EncodeAll(Records(s.heap, s.createque))| <= 0x1000000
  {
    hide EncodeAll, Records;
  }

  lemma RecordsInsert<P>(heap: map<P, Task>, q: seq<P>, i: nat, p: P)
    requires i <= |q| && p in heap
    ensures Records(heap, InsertAt(q, i, p)) == Records(heap, q)[..i] + [heap[p].rec] + Records(heap, q)[i..]
  {
  }

  /** A new task makes the file longer by its record. */
  lemma SizeWith<P>(s: State<P>, p: P, t: Task)
    requires InOrder(s, s.heap.Keys) && p !in s.heap
    ensures var heap := s.heap[p := t];
      |EncodeAll(Records(heap, QueueByCreate(heap, s.createque, p)))| == FileSize(s) + |TaskRecord.Encode(t.rec)|
  {
    hide *;
    var heap := s.heap[p := t];
    QueuedAt(heap, s.createque, p);
    var i := InsertIndex(CreateTimes(heap, s.createque), TaskOf(heap, p).rec.createTime, StrCmp);
    KnownTasks(s, s.heap.Keys);
    RecordsFrame(s.heap, heap, s.createque, s.heap.Keys);
    RecordsInsert(heap, s.createque, i, p);
    SizeIs(s);
    RecordsLength(heap, s.createque);
    SizeInsert(Records(heap, s.createque), i, t.rec);
  }

  lemma QueuedAt<P>(heap: map<P, Task>, q: seq<P>, p: P)
    ensures var i := InsertIndex(CreateTimes(heap, q), TaskOf(heap, p).rec.createTime, StrCmp);
      i <= |q| && QueueByCreate(heap, q, p) == InsertAt(q, i, p)
  {
  }

  lemma RecordsLength<P>(heap: map<P, Task>, q: seq<P>)
    ensures |Records(heap, q)| == |q|
  {
  }

  lemma SizeIs<P>(s: State<P>)
    ensures FileSize(s) == |EncodeAll(Records(s.heap, s.createque))|
  {
  }

  lemma RecordsRemove<P>(heap: map<P, Task>, q: seq<P>, i: nat)
    requires i < |q| && q[i] in heap
    ensures var rs := Records(heap, RemoveAt(q, i));
      |rs| == |q| - 1 && Records(heap, q) == rs[..i] + [heap[q[i]].rec] + rs[i..]
  {
  }

  /** Without a task, the file is shorter by its record. */
  lemma SizeWithout<P>(s: State<P>, p: P)
    requires InOrder(s, s.heap.Keys) && p in s.heap
    ensures |EncodeAll(Records(s.heap, Without(s.createque, p)))| == FileSize(s) - |TaskRecord.Encode(s.heap[p].rec)|
  {
    hide *;
    KnownTasks(s, s.heap.Keys);
    WithoutHolds(s.createque, p, s.heap.Keys);
    var i := IndexOf(s.createque, p);
    IndexIs(s.createque, p);
    RecordsRemove(s.heap, s.createque, i);
    SizeIs(s);
    SizeInsert(Records(s.heap, RemoveAt(s.createque, i)), i, s.heap[p].rec);
  }

  lemma IndexIs<P>(q: seq<P>, p: P)
    requires p in q
    ensures IndexOf(q, p) < |q| && q[IndexOf(q, p)] == p
  {
  }

  // ----- creation

  predicate HasId(answer: Option<string>) {
    answer.Some? && IsUuid(answer.value)
  }

  /** The server answers with an id to each request that a creation makes: always for a target and a task, for a schedule
      unless the type is 0, and for a merged configuration if there are several. */
  predicate Served(param: CreateParam, a: Answers) {
    && 0 <= param.scheduleType <= 4
    && HasId(a.target) && HasId(a.task)
    && (param.scheduleType != 0 ==> HasId(a.schedule))
    && (',' in param.groupId ==> HasId(a.config))
  }

  lemma ServedIff(param: CreateParam, a: Answers, now: string)
    requires ParamOk(param)
    ensures BuildRecord(param, a, now).Some? <==> Served(param, a)
  {
    hide ParamOk, IsUuid, Text.Split;
    OneGroup(param.groupId);
  }

  lemma CreateCodes<P>(s: State<P>, p: P, param: CreateParam, e: Env)
    ensures var rec := BuildRecord(param, e.answers, e.stamp);
      CreateTask(s, p, param, e).0 ==
        if !ParamOk(param) then ParamInvalid
        else if !s.connOk then GvmdConn
        else if FindTask(s, param.name).Some? then AlreadyExists
        else if rec.None? then ProcFail
        else if CreateFiles(SetTask(s, p, NewTask(rec.value).(chkTime := NextChkTime(e.later, 300))), p, e).0 then Ok
        else InternalFail
  {
    hide ParamOk, FindTask, BuildRecord, CreateFiles, SetTask, NextChkTime, NewTask;
  }

  lemma CreateFilesIff<P>(s: State<P>, p: P, e: Env)
    ensures CreateFiles(s, p, e).0 <==>
      && e.paths && e.dir && (|s.nameset| < s.capacity || e.memory) && e.taskFileIo
      && |EncodeAll(Records(s.heap, QueueByCreate(s.heap, s.createque, p)))| <= 0x1000000
  {
    hide QueueByCreate, Names, InsertIndex, WriteTaskFile, EncodeAll, DelTask, DropDir, AddRun;
    if AddTask(s, p, e.memory).Some? {
      WriteIff(AddTask(s, p, e.memory).value, e.taskFileIo);
    }
  }

  /** The answer to a creation: the first test that fails decides. At the end there have to be a directory, room among the
      names or memory for more of it, and room in the buffer for the new record behind the others. */
  lemma CreateAnswer<P>(s: State<P>, p: P, param: CreateParam, e: Env, w: World)
    requires Inv(s, w) && p !in s.heap
    ensures ParamOk(param) && Served(param, e.answers) ==> BuildRecord(param, e.answers, e.stamp).Some?
    ensures CreateTask(s, p, param, e).0 ==
      if !ParamOk(param) then ParamInvalid
      else if !s.connOk then GvmdConn
      else if Known(s, param.name) then AlreadyExists
      else if !Served(param, e.answers) then ProcFail
      else
        var rec := BuildRecord(param, e.answers, e.stamp).value;
        if e.paths && e.dir && (|s.nameset| < s.capacity || e.memory) && e.taskFileIo
           && FileSize(s) + |TaskRecord.Encode(rec)| <= 0x1000000
        then Ok else InternalFail
  {
    hide *;
    InvParts(s, w);
    PlacesOf(s, param.name, w);
    CreateCodes(s, p, param, e);
    if ParamOk(param) {
      ServedIff(param, e.answers, e.stamp);
      if Served(param, e.answers) {
        var t := NewTask(BuildRecord(param, e.answers, e.stamp).value).(chkTime := NextChkTime(e.later, 300));
        NewTaskRecord(BuildRecord(param, e.answers, e.stamp).value);
        SetTaskSaved(s, p, t, s.saved);
        CreateFilesIff(SetTask(s, p, t), p, e);
        SizeWith(s, p, t);
      }
    }
  }

  lemma FilesUndone<P>(s: State<P>, p: P, e: Env)
    requires p in s.heap && !CreateFiles(s, p, e).0
    requires AddTask(s, p, e.memory).Some? ==>
      var added := AddTask(s, p, e.memory).value;
      && added == s.(nameset := added.nameset, createque := added.createque, capacity := added.capacity)
      && DelTask(added, s.heap[p].rec.taskName).Some?
      && var undone := DelTask(added, s.heap[p].rec.taskName).value;
         undone == s.(capacity := undone.capacity)
    ensures CreateFiles(s, p, e).1.saved == if e.paths && e.dir then s.saved - {s.heap[p].rec.taskId} else s.saved
  {
    hide AddTask, DelTask, WriteTaskFile, AddRun;
  }

  /** A creation that the files do not come through for takes the directory of the task back, if it was made, and leaves
      nothing else behind but possibly a larger name array. */
  lemma CreateUndone<P>(s: State<P>, p: P, param: CreateParam, e: Env, w: World)
    requires Inv(s, w) && p !in s.heap && InBuffers(param) && IsTimestamp(e.stamp) && ClockOk(e, w)
    requires CreateTask(s, p, param, e).0 == InternalFail
    ensures BuildRecord(param, e.answers, e.stamp).Some?
    ensures var id := BuildRecord(param, e.answers, e.stamp).value.taskId;
      var s' := CreateTask(s, p, param, e).1;
      s' == s.(capacity := s'.capacity, saved := if e.paths && e.dir then s.saved - {id} else s.saved)
  {
    hide *;
    CreateTaskKeeps(s, p, param, e, w);
    CreateTaskIs(s, p, param, e);
    CreateCodes(s, p, param, e);
    InvParts(s, w);
    FindIsLookup(s, s.heap.Keys, param.name);
    CreatedIsValid(param, e.answers, e.stamp);
    var rec := BuildRecord(param, e.answers, e.stamp).value;
    var t := NewTask(rec).(chkTime := NextChkTime(e.later, 300));
    NewTaskRecord(rec);
    AddFresh(s, p, t, e.memory);
    SetTaskSaved(s, p, t, s.saved);
    FilesUndone(SetTask(s, p, t), p, e);
    FreeIs(CreateFiles(SetTask(s, p, t), p, e).1, p);
  }

  // ----- deletion

  /** Whether a deletion comes through: the file can be written, with the records of the other tasks. */
  ghost predicate Erasable<P>(s: State<P>, p: P, e: Env)
    requires p in s.heap
  {
    e.paths && e.taskFileIo && FileSize(s) - |TaskRecord.Encode(s.heap[p].rec)| <= 0x1000000
  }

  lemma DeleteFilesIff<P>(s: State<P>, s0: State<P>, p: P, t: Task, e: Env)
    requires Registered(s) && Registered(s0) && p in s.heap && s0 == s.(heap := s.heap[p := t])
    ensures DeleteFiles(s0, p, e).0 <==> Erasable(s, p, e)
  {
    hide *;
    RegisteredParts(s);
    RegisteredParts(s0);
    NameOfIs(s0, p);
    DeleteInOrder(s0, p, s0.heap.Keys);
    DeleteThenAdd(s0, p, e.memory, s0.heap.Keys);
    DeleteFilesIs(s0, p, e);
    var removed := DelTask(s0, s0.heap[p].rec.taskName).value;
    WriteIff(removed, e.taskFileIo);
    KnownTasks(s, s.heap.Keys);
    WithoutHolds(s.createque, p, s.heap.Keys);
    RecordsFrame(s.heap, s0.heap, Without(s.createque, p), s.heap.Keys - {p});
    SizeWithout(s, p);
    ErasableIs(s, p, e);
  }

  lemma ErasableIs<P>(s: State<P>, p: P, e: Env)
    requires p in s.heap
    ensures Erasable(s, p, e)
       <==> e.paths && e.taskFileIo && FileSize(s) - |TaskRecord.Encode(s.heap[p].rec)| <= 0x1000000
  {
  }

  /** A deletion that succeeds takes the task and its status file away, if the files can follow; otherwise it marks the task
      for the background, with the marks of what the server has deleted already cleared. One that fails changes nothing. */
  lemma DeleteEffect<P>(s: State<P>, p: P, key: Key, e: Env, w: World)
    requires Inv(s, w) && p in s.heap && s.heap[p].rec.taskName == key.name
    ensures var (code, s') := DeleteTask(s, key, e);
      var t := s.heap[p];
      && (code != Ok ==> s' == s)
      && (code == Ok && Erasable(s, p, e) ==>
           && s'.heap == s.heap - {p} && s'.saved == s.saved - {t.rec.taskId} && s'.connOk == s.connOk
           && p !in s'.runque && p !in s'.createque && p !in s'.nameset)
      && (code == Ok && !Erasable(s, p, e) ==>
           s' == s.(heap := s.heap[p := t.(chkType := ChkDeleted, rec := t.rec.(
             scheduleCreated := if e.deleteScheduleOk then 0 else t.rec.scheduleCreated,
             configCreated := if e.deleteConfigOk then 0 else t.rec.configCreated))], createque := s'.createque))
  {
    hide *;
    InvParts(s, w);
    RegisteredFrom(s);
    DeleteTaskIs(s, key, e);
    LookUp(s, key.name);
    TaskOfIs(s.heap, p);
    if DeleteTask(s, key, e).0 == Ok {
      DeleteFound(s, p, e, w);
      ClearedFields(s.heap[p], e);
      FreeIs(DeleteFiles(SetTask(s, p, Cleared(s.heap[p], e)), p, e).1, p);
    }
  }

  lemma ClearedFields(t: Task, e: Env)
    ensures Cleared(t, e).(chkType := ChkDeleted) == t.(chkType := ChkDeleted, rec := t.rec.(
      scheduleCreated := if e.deleteScheduleOk then 0 else t.rec.scheduleCreated,
      configCreated := if e.deleteConfigOk then 0 else t.rec.configCreated))
  {
  }

  lemma NotQueued<P>(s: State<P>, p: P)
    requires Registered(s) && p !in s.heap
    ensures p !in s.runque && p !in s.createque && p !in s.nameset
  {
  }

  lemma DeleteFound<P>(s: State<P>, p: P, e: Env, w: World)
    requires Inv(s, w) && p in s.heap
    ensures var t := Cleared(s.heap[p], e);
      var (ok, s1) := DeleteFiles(SetTask(s, p, t), p, e);
      && (ok <==> Erasable(s, p, e))
      && (ok ==>
           && Free(s1, p).heap == s.heap - {p} && s1.saved == s.saved - {s.heap[p].rec.taskId} && s1.connOk == s.connOk
           && p !in s1.runque && p !in s1.createque && p !in s1.nameset)
      && (!ok ==>
           SetTask(s1, p, TaskOf(s1.heap, p).(chkType := ChkDeleted))
           == s.(heap := s.heap[p := t.(chkType := ChkDeleted)], createque := s1.createque))
  {
    hide *;
    InvParts(s, w);
    RegisteredFrom(s);
    TasksValid(s.heap, w);
    var t := Cleared(s.heap[p], e);
    ClearedIs(s.heap[p], e);
    SetTaskSaved(s, p, t, s.saved);
    ClearedRegistered(s, p, t);
    var s0 := SetTask(s, p, t);
    DeleteFilesStep(s0, p, e);
    DeleteFilesIff(s, s0, p, t, e);
    var (ok, s1) := DeleteFiles(s0, p, e);
    FreeIs(s1, p);
    if ok {
      assert s0.heap - {p} == s.heap - {p};
      NotQueued(Free(s1, p), p);
    } else {
      TaskOfIs(s1.heap, p);
      SetTaskSaved(s1, p, t.(chkType := ChkDeleted), s1.saved);
      assert s0.heap[p := t.(chkType := ChkDeleted)] == s.heap[p := t.(chkType := ChkDeleted)];
    }
  }

  /** The background completes a deletion in the same way, or tries again after the longest interval. */
  lemma BackgroundDelete<P>(s: State<P>, e: Env, w: World)
    requires Inv(s, w) && s.connOk && |s.runque| > 0
    requires s.runque[0] in s.heap && s.heap[s.runque[0]].chkType == ChkDeleted && e.now >= s.heap[s.runque[0]].chkTime
    ensures var p, s' := s.runque[0], RunChecks(s, e).1;
      && RunChecks(s, e).0
      && (Erasable(s, p, e) ==>
           && s'.heap == s.heap - {p} && s'.saved == s.saved - {s.heap[p].rec.taskId} && s'.connOk == s.connOk
           && p !in s'.runque && p !in s'.createque && p !in s'.nameset)
      && (!Erasable(s, p, e) ==>
           && s'.heap == s.heap[p := s.heap[p].(chkTime := e.later + 300)]
           && s' == s.(heap := s'.heap, createque := s'.createque, runque := s'.runque))
  {
    hide *;
    var p := s.runque[0];
    InvParts(s, w);
    RegisteredFrom(s);
    TaskOfIs(s.heap, p);
    CheckIs(s, e);
    DeleteFilesStep(s, p, e);
    assert s.heap[p := s.heap[p]] == s.heap;
    DeleteFilesIff(s, s, p, s.heap[p], e);
    var (ok, s1) := DeleteFiles(s, p, e);
    FreeIs(s1, p);
    if ok {
      NotQueued(Free(s1, p), p);
    } else {
      SameTask(s1, p);
      Rescheduled(s1, p, s1.heap[p], s1.saved, e.later, 300);
      ChangedIs(s1, Reschedule(s1, p, e.later, 300), p, s1.heap[p].(chkTime := e.later + 300));
    }
  }

  lemma ChangedIs<P>(s: State<P>, s': State<P>, p: P, t: Task)
    requires Changed(s, s', p, t)
    ensures s' == s.(heap := s.heap[p := t], runque := s'.runque, saved := s'.saved)
  {
  }

  /** What a check does is decided by the phase of the head of the run queue. */
  lemma CheckIs<P>(s: State<P>, e: Env)
    requires s.connOk && |s.runque| > 0 && s.runque[0] in s.heap
    ensures var p := s.runque[0];
      var t := s.heap[p];
      && RunChecks(s, e).0 == (e.now >= t.chkTime)
      && (e.now < t.chkTime ==> RunChecks(s, e).1 == s)
      && (e.now >= t.chkTime && t.chkType == ChkTask ==> RunChecks(s, e).1 == QueryTask(s, p, e))
      && (e.now >= t.chkTime && t.chkType == ChkReport ==> RunChecks(s, e).1 == QueryReport(s, p, e))
      && (e.now >= t.chkTime && t.chkType == ChkResult ==> RunChecks(s, e).1 == QueryResult(s, p, e))
      && (e.now >= t.chkTime && t.chkType == ChkDeleted ==>
           var (ok, s') := DeleteFiles(s, p, e);
           RunChecks(s, e).1 == if ok then Free(s', p) else Reschedule(s', p, e.later, 300))
  {
    hide QueryTask, QueryReport, QueryResult, DeleteFiles, Free, Reschedule;
  }
}
