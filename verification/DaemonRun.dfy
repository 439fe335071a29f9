/** Whole runs of the daemon: any sequence of commands, background checks, connection tests and restarts. */
module DaemonRun {
  import opened Wrappers
  import opened Ordering
  import opened Text
  import opened TaskRecord
  import opened TaskCreate
  import opened Tokens
  import opened StatusFile
  import opened DaemonState
  import opened Registry
  import opened DaemonInv
  import opened DaemonSteps
  import opened DaemonFiles
  import opened DaemonCommands
  import opened DaemonBoot

  datatype Event<P> =
    | Create(p: P, param: CreateParam, env: Env)
    | Start(key: Key, env: Env)
    | Stop(key: Key, env: Env)
    | Delete(key: Key, env: Env)
    | Check(env: Env)
    | Pinged(ok: bool)
    | Restart(ps: seq<P>, memory: bool, now: int)

  /** What a running daemon does. */
  function Act<P(==)>(s: State<P>, ev: Event<P>): State<P> {
    match ev
    case Create(p, param, e) => CreateTask(s, p, param, e).1
    case Start(key, e) => StartTask(s, key, e).1
    case Stop(key, e) => StopTask(s, key, e).1
    case Delete(key, e) => DeleteTask(s, key, e).1
    case Check(e) => RunChecks(s, e).1
    case Pinged(ok) => Ping(s, ok)
    case Restart(_, _, _) => s
  }

  /** A daemon that runs, or the files that the last one left. */
  datatype Daemon<P> = Up(state: State<P>) | Down(left: string, statuses: map<string, string>) {
    function File(): string {
      if Up? then state.file else left
    }

    function Saved(): map<string, string> {
      if Up? then state.saved else statuses
    }
  }

  /** A restart starts from the files, or fails and leaves them. */
  function Step<P(==)>(d: Daemon<P>, ev: Event<P>): Daemon<P> {
    match ev
    case Restart(ps, memory, now) =>
      var s := Boot(d.File(), d.Saved(), ps, memory, now);
      if s.Some? then Up(s.value) else Down(d.File(), d.Saved())
    case _ => if d.Up? then Up(Act(d.state, ev)) else d
  }

  /** What the surroundings owe: fresh memory, parameters that fitted their buffers, a clock that does not start below
      zero, times in the form of `strftime`, and results from a fixed list. Everything else may go wrong at any time.
      Unless the world is late, the clock stays in the range of the comparator, and unless it is wild, the server names
      report ids and times of the right form only. */
  ghost predicate Legal<P>(s: State<P>, ev: Event<P>, w: World) {
    match ev
    case Create(p, param, e) => p !in s.heap && InBuffers(param) && IsTimestamp(e.stamp) && ClockOk(e, w)
    case Start(key, e) => ClockOk(e, w)
    case Stop(key, e) => ClockOk(e, w)
    case Delete(key, e) => true
    case Check(e) =>
      && ClockOk(e, w) && TaskReplyOk(e.taskReply, w) && ReportReplyOk(e.reportReply, w)
      && (|s.runque| > 0 ==> ResultReplyOk(TaskOf(s.heap, s.runque[0]), e.resultReply, w))
    case Pinged(ok) => true
    case Restart(_, _, _) => true
  }

  ghost predicate LegalStep<P>(d: Daemon<P>, ev: Event<P>, w: World) {
    if ev.Restart? then Distinct(ev.ps) && 0 <= ev.now && InTime(ev.now + 300, w)
    else d.Up? ==> Legal(d.state, ev, w)
  }

  ghost predicate DaemonOk<P>(d: Daemon<P>, w: World) {
    match d
    case Up(s) => Inv(s, w)
    case Down(file, saved) => FilesOk(file, saved, w)
  }

  lemma ActKeeps<P>(s: State<P>, ev: Event<P>, w: World)
    requires Inv(s, w) && Legal(s, ev, w)
    ensures Inv(Act(s, ev), w)
  {
    hide Inv, ClockOk, TaskReplyOk, ReportReplyOk, ResultReplyOk, CreateTask, StartTask, StopTask, DeleteTask, RunChecks, Ping,
         InBuffers, IsTimestamp;
    match ev {
      case Create(p, param, e) => CreateTaskKeeps(s, p, param, e, w);
      case Start(key, e) => StartStopKeeps(s, key, e, w);
      case Stop(key, e) => StartStopKeeps(s, key, e, w);
      case Delete(key, e) => DeleteTaskKeeps(s, key, e, w);
      case Check(e) => RunChecksKeeps(s, e, w);
      case Pinged(ok) => PingKeeps(s, ok, w);
      case Restart(_, _, _) =>
    }
  }

  lemma StepKeeps<P>(d: Daemon<P>, ev: Event<P>, w: World)
    requires DaemonOk(d, w) && LegalStep(d, ev, w)
    ensures DaemonOk(Step(d, ev), w)
  {
    hide Inv, FilesOk, Legal, Act, Boot, Distinct, RecordsFail, ParseFile;
    if ev.Restart? {
      if d.Up? {
        InvFilesOk(d.state, w);
      }
      BootRestores(d.File(), d.Saved(), ev.ps, ev.memory, ev.now, w);
    } else if d.Up? {
      ActKeeps(d.state, ev, w);
    }
  }

  lemma PingKeeps<P>(s: State<P>, ok: bool, w: World)
    requires Inv(s, w)
    ensures Inv(Ping(s, ok), w)
  {
    hide *;
    InvParts(s, w);
    PingIs(s, ok);
    SameKeysOf(s.heap, s.heap, s.heap.Keys);
    InOrderFrame(s, Ping(s, ok), s.heap.Keys);
    InvFromParts(Ping(s, ok), w);
  }

  lemma PingIs<P>(s: State<P>, ok: bool)
    ensures Ping(s, ok) == s.(lastPingOk := ok, connOk := Ping(s, ok).connOk)
  {
  }

  function RunAll<P(==)>(d: Daemon<P>, evs: seq<Event<P>>): Daemon<P>
    decreases |evs|
  {
    if |evs| == 0 then d else RunAll(Step(d, evs[0]), evs[1..])
  }

  ghost predicate LegalRun<P>(d: Daemon<P>, evs: seq<Event<P>>, w: World)
    decreases |evs|
  {
    |evs| > 0 ==> LegalStep(d, evs[0], w) && LegalRun(Step(d, evs[0]), evs[1..], w)
  }

  lemma {:induction false} RunKeeps<P>(d: Daemon<P>, evs: seq<Event<P>>, w: World)
    requires DaemonOk(d, w) && LegalRun(d, evs, w)
    ensures DaemonOk(RunAll(d, evs), w)
    decreases |evs|
  {
    hide DaemonOk, LegalStep, Step;
    if |evs| > 0 {
      StepKeeps(d, evs[0], w);
      RunKeeps(Step(d, evs[0]), evs[1..], w);
    }
  }

  /** No daemon yet, and nothing on disk. */
  function Fresh<P>(): Daemon<P> {
    Down("", map[])
  }

  lemma FreshOk<P>(w: World)
    ensures DaemonOk(Fresh<P>(), w)
  {
    ParseNothing();
    hide ParseFile;
  }

  /** From nothing on disk, everything that the invariant says holds in every state that a run can reach, over any
      number of restarts, and the files stay in order when no daemon runs. */
  lemma EveryRunIsSafe<P>(evs: seq<Event<P>>, w: World)
    requires LegalRun(Fresh<P>(), evs, w)
    ensures var d := RunAll(Fresh<P>(), evs);
      if d.Up? then Inv(d.state, w) else FilesOk(d.left, d.statuses, w)
  {
    hide Inv, FilesOk, LegalRun, RunAll, Fresh;
    FreshOk<P>(w);
    RunKeeps(Fresh<P>(), evs, w);
  }

  // ----- the file against the registry

  ghost function RecordsOf<P>(heap: map<P, Task>): set<Record> {
    set p | p in heap :: heap[p].rec
  }

  /** The task file decodes to exactly the records of the registered tasks. */
  ghost predicate FileIsRegistry<P>(s: State<P>) {
    ParseFile(s.file).Some? && Elems(ParseFile(s.file).value) == RecordsOf(s.heap)
  }

  lemma NameOnFile<P>(heap: map<P, Task>, rs: seq<Record>, p: P) returns (r: Record)
    requires Mirrors(heap, rs) && p in heap
    ensures r in rs && r.taskName == heap[p].rec.taskName && Agrees(r, heap[p])
  {
    hide Agrees;
    assert heap[p].rec.taskName in TaskNames(heap);
    assert heap[p].rec.taskName in RecordNames(rs);
    r :| r in rs && r.taskName == heap[p].rec.taskName;
  }

  lemma OwnerOfName<P>(heap: map<P, Task>, rs: seq<Record>, r: Record) returns (p: P)
    requires Mirrors(heap, rs) && r in rs
    ensures p in heap && r.taskName == heap[p].rec.taskName && Agrees(r, heap[p])
  {
    hide Agrees;
    assert r.taskName in RecordNames(rs);
    assert r.taskName in TaskNames(heap);
    p :| p in heap && r.taskName == heap[p].rec.taskName;
  }

  /** As long as no deletion is pending, the file and the registry are the same, if and only if the file does not fill
      the write buffer. */
  lemma FileIsRegistryUnlessPending<P>(s: State<P>, w: World)
    requires Inv(s, w) && forall p | p in s.heap :: s.heap[p].chkType != ChkDeleted
    ensures FileIsRegistry(s) <==> |s.file| < WRITE_LIMIT
  {
    hide Registered, RunOrder, TasksOk, AllSavedOk, ParseFile, Mirrors, FileIsRegistry;
    var rs := ParseFile(s.file).value;
    if |s.file| < WRITE_LIMIT {
      MirroredIsRegistry(s, rs);
    } else {
      var last :| Mirrors(s.heap, rs + [last]);
      LastIsMissing(s, rs, last);
    }
  }

  lemma MirroredIsRegistry<P>(s: State<P>, rs: seq<Record>)
    requires ParseFile(s.file) == Some(rs) && Mirrors(s.heap, rs)
    requires forall p | p in s.heap :: s.heap[p].chkType != ChkDeleted
    ensures FileIsRegistry(s)
  {
    hide ParseFile, Mirrors, MarksDropped;
    forall r ensures r in Elems(rs) <==> r in RecordsOf(s.heap) {
      if r in rs {
        var p := OwnerOfName(s.heap, rs, r);
        assert s.heap[p].rec == r;
      }
      if p :| p in s.heap && s.heap[p].rec == r {
        var r' := NameOnFile(s.heap, rs, p);
      }
    }
  }

  lemma LastIsMissing<P>(s: State<P>, rs: seq<Record>, last: Record)
    requires ParseFile(s.file) == Some(rs) && Mirrors(s.heap, rs + [last])
    ensures !FileIsRegistry(s)
  {
    hide ParseFile, Agrees;
    var all := rs + [last];
    assert all[|rs|] == last && last in all;
    forall i | 0 <= i < |rs| ensures rs[i].taskName != last.taskName {
      assert all[i] == rs[i];
    }
    var p := OwnerOfName(s.heap, all, last);
    assert s.heap[p].rec in RecordsOf(s.heap);
  }

  /** The server takes back no schedule and no configuration that was created with the task. */
  predicate MarksKept(r: Record, e: Env) {
    && (e.deleteScheduleOk ==> r.scheduleCreated == 0)
    && (e.deleteConfigOk ==> r.configCreated == 0)
  }

  /** A deletion that the server accepted but that could not be written down leaves the file as it was. The file
      then still matches the registry exactly when the server did not also take back a schedule or a configuration
      that had been created with the task: those marks are dropped in memory only. */
  lemma PendingDeletionOnFileIff<P>(s: State<P>, p: P, e: Env, w: World)
    requires Inv(s, w) && p in s.heap && !IsBusy(s.heap[p]) && FileIsRegistry(s)
    requires !DeleteFiles(SetTask(s, p, Cleared(s.heap[p], e)), p, e).0
    ensures var s1 := DeleteFiles(SetTask(s, p, Cleared(s.heap[p], e)), p, e).1;
      FileIsRegistry(SetTask(s1, p, TaskOf(s1.heap, p).(chkType := ChkDeleted))) <==> MarksKept(s.heap[p].rec, e)
  {
    hide *;
    var rec := s.heap[p].rec;
    InvParts(s, w);
    DeleteCommitted(s, p, e, w);
    PendingFile(s, p, e, w);
    var s1 := DeleteFiles(SetTask(s, p, Cleared(s.heap[p], e)), p, e).1;
    var s' := SetTask(s1, p, TaskOf(s1.heap, p).(chkType := ChkDeleted));
    ClearedIffMarked(s.heap[p], e);
    RecordChanged(s, s', p, ClearMarks(rec, e), w);
  }

  lemma ClearedIffMarked(t: Task, e: Env)
    ensures ClearMarks(t.rec, e) == t.rec <==> MarksKept(t.rec, e)
    ensures ClearMarks(t.rec, e).taskName == t.rec.taskName
    ensures Cleared(t, e).(chkType := ChkDeleted).rec == ClearMarks(t.rec, e)
  {
  }

  lemma PendingFile<P>(s: State<P>, p: P, e: Env, w: World)
    requires Inv(s, w) && p in s.heap && !DeleteFiles(SetTask(s, p, Cleared(s.heap[p], e)), p, e).0
    ensures var s1 := DeleteFiles(SetTask(s, p, Cleared(s.heap[p], e)), p, e).1;
      SetTask(s1, p, TaskOf(s1.heap, p).(chkType := ChkDeleted)).file == s.file
  {
    hide *;
    var t := Cleared(s.heap[p], e);
    InvParts(s, w);
    TasksValid(s.heap, w);
    RegisteredFrom(s);
    ClearedIs(s.heap[p], e);
    SetTaskSaved(s, p, t, s.saved);
    ClearedRegistered(s, p, t);
    DeleteFilesStep(SetTask(s, p, t), p, e);
    var s1 := DeleteFiles(SetTask(s, p, t), p, e).1;
    SetTaskSaved(s1, p, TaskOf(s1.heap, p).(chkType := ChkDeleted), s1.saved);
  }

  lemma RecordChanged<P>(s: State<P>, s': State<P>, p: P, rec: Record, w: World)
    requires Inv(s, w) && FileIsRegistry(s) && p in s.heap && s'.file == s.file
    requires p in s'.heap && s'.heap == s.heap[p := s'.heap[p]] && s'.heap[p].rec == rec
    requires rec.taskName == s.heap[p].rec.taskName
    ensures FileIsRegistry(s') <==> rec == s.heap[p].rec
  {
    hide RunOrder, TasksOk, AllSavedOk, ParseFile, OnDisk, InOrder, Holds, Elems;
    if rec in RecordsOf(s.heap) {
      var q :| q in s.heap && s.heap[q].rec == rec;
      NamesDistinct(s, p, q);
      assert rec == s.heap[p].rec;
    }
    if rec == s.heap[p].rec {
      SameRecordSet(s.heap, s'.heap);
    } else {
      assert s'.heap[p].rec in RecordsOf(s'.heap);
    }
  }

  lemma SameRecordSet<P>(h: map<P, Task>, h': map<P, Task>)
    requires h.Keys == h'.Keys && forall p | p in h :: h[p].rec == h'[p].rec
    ensures RecordsOf(h) == RecordsOf(h')
  {
  }

  // ----- deletions

  /** What a background check does to other tasks than the one it looks at: nothing. */
  lemma ChecksTouchHead<P>(s: State<P>, e: Env, p: P, w: World)
    requires Inv(s, w) && p in s.heap
    ensures var s' := RunChecks(s, e).1;
      && (|s.runque| == 0 || p != s.runque[0] ==> p in s'.heap && s'.heap[p] == s.heap[p])
      && (s.heap[p].chkType == ChkDeleted ==> p !in s'.heap || s'.heap[p].chkType == ChkDeleted)
  {
    hide Inv, DeleteFiles, QueryTask, QueryReport, QueryResult, Reschedule, InOrder, Holds, RunOrder, TasksOk,
         OnDisk, AllSavedOk;
    if |s.runque| > 0 {
      var h := s.runque[0];
      InvParts(s, w);
      HoldsIn(s.runque, s.heap.Keys, h);
      DeleteFilesKeeps(s, h, e, w);
      QueriesTouchOne(s, h, e);
      var (ok, s') := DeleteFiles(s, h, e);
      RescheduleFrame(s', h, e.later, Interval(ChkDeleted));
    }
  }

  /** Only the task `p` may differ. */
  ghost predicate OnlyTask<P>(h: map<P, Task>, h': map<P, Task>, p: P) {
    p in h' && h' == h[p := h'[p]]
  }

  lemma RescheduleFrame<P>(s: State<P>, p: P, clock: int, interval: int)
    ensures var s' := Reschedule(s, p, clock, interval);
      OnlyTask(s.heap, s'.heap, p) && s'.heap[p].chkType == TaskOf(s.heap, p).chkType
  {
    hide QueueByCheck, Without, NextChkTime;
  }

  lemma QueriesTouchOne<P>(s: State<P>, p: P, e: Env)
    requires p in s.heap
    ensures OnlyTask(s.heap, QueryTask(s, p, e).heap, p)
    ensures OnlyTask(s.heap, QueryReport(s, p, e).heap, p)
    ensures OnlyTask(s.heap, QueryResult(s, p, e).heap, p)
  {
    hide *;
    QueryTaskIs(s, p, e);
    QueryReportIs(s, p, e);
    QueryResultIs(s, p, e);
    forall t: Task, saved, interval
      ensures OnlyTask(s.heap, Reschedule(SetTask(s, p, t).(saved := saved), p, e.later, interval).heap, p)
    {
      ChangedTouches(s, p, t, saved, e.later, interval);
    }
    RescheduleFrame(s, p, e.later, Interval(ChkTask));
    RescheduleFrame(s, p, e.later, Interval(ChkReport));
  }

  lemma ChangedTouches<P>(s: State<P>, p: P, t: Task, saved: map<string, string>, clock: int, interval: int)
    ensures OnlyTask(s.heap, Reschedule(SetTask(s, p, t).(saved := saved), p, clock, interval).heap, p)
  {
    RescheduleFrame(SetTask(s, p, t).(saved := saved), p, clock, interval);
    hide Reschedule;
  }

  /** A pending deletion is never given up but by a restart: the task either goes or stays pending. */
  lemma PendingStays<P>(s: State<P>, ev: Event<P>, p: P, w: World)
    requires Inv(s, w) && Legal(s, ev, w)
    requires p in s.heap && s.heap[p].chkType == ChkDeleted
    ensures var s' := Act(s, ev); p !in s'.heap || s'.heap[p].chkType == ChkDeleted
  {
    hide Inv, ClockOk, TaskReplyOk, ReportReplyOk, ResultReplyOk, CreateTask, StartTask, StopTask, DeleteTask, RunChecks,
         InBuffers, IsTimestamp;
    match ev {
      case Create(q, param, e) => CreateTaskKeeps(s, q, param, e, w);
      case Start(key, e) => StartStopFrame(s, key, e, p, w);
      case Stop(key, e) => StartStopFrame(s, key, e, p, w);
      case Delete(key, e) => DeleteFrame(s, key, e, p, w);
      case Check(e) => ChecksTouchHead(s, e, p, w);
      case Pinged(ok) =>
      case Restart(_, _, _) =>
    }
  }

  lemma StartStopFrame<P>(s: State<P>, key: Key, e: Env, p: P, w: World)
    requires Inv(s, w) && p in s.heap
    ensures p in StartTask(s, key, e).1.heap && StartTask(s, key, e).1.heap[p].chkType == s.heap[p].chkType
    ensures p in StopTask(s, key, e).1.heap && StopTask(s, key, e).1.heap[p].chkType == s.heap[p].chkType
  {
    hide Inv, KeyOk, FindTask, Reschedule, IsBusy, IsRunning, InOrder, Holds, RunOrder, TasksOk, OnDisk, AllSavedOk;
    InvParts(s, w);
    LookUp(s, key.name);
    if FindTask(s, key.name).Some? {
      RescheduleFrame(s, FindTask(s, key.name).value, e.later, 0);
    }
  }

  lemma DeleteFrame<P>(s: State<P>, key: Key, e: Env, p: P, w: World)
    requires Inv(s, w) && p in s.heap
    ensures var s' := DeleteTask(s, key, e).1;
      p !in s'.heap || s'.heap[p].chkType == s.heap[p].chkType || s'.heap[p].chkType == ChkDeleted
  {
    hide *;
    InvParts(s, w);
    LookUp(s, key.name);
    DeleteTaskIs(s, key, e);
    var found := FindTask(s, key.name);
    if found.Some? {
      TaskOfIs(s.heap, found.value);
      if !IsBusy(s.heap[found.value]) {
        DeleteCommitted(s, found.value, e, w);
      }
    }
  }

  /** A deletion that came through: the name is free again, and every other name leads where it led before. */
  lemma DeletedIsGone<P>(s: State<P>, key: Key, e: Env, name: string, w: World)
    requires Inv(s, w)
    requires DeleteTask(s, key, e).0 == Ok && |DeleteTask(s, key, e).1.heap| < |s.heap|
    ensures FindTask(DeleteTask(s, key, e).1, name) == if name == key.name then None else FindTask(s, name)
  {
    hide *;
    InvParts(s, w);
    LookUp(s, key.name);
    DeleteTaskIs(s, key, e);
    var p := FindTask(s, key.name).value;
    var s' := DeleteTask(s, key, e).1;
    TaskOfIs(s.heap, p);
    DeleteCommitted(s, p, e, w);
    DeleteTaskKeeps(s, key, e, w);
    InvParts(s', w);
    SameSize(s.heap, p, Cleared(s.heap[p], e).(chkType := ChkDeleted));
    LookUp(s, name);
    LookUp(s', name);
  }

  lemma SameSize<P>(heap: map<P, Task>, p: P, t: Task)
    requires p in heap
    ensures |heap[p := t]| == |heap|
  {
  }

  // ----- an example of the difference

  const HOST := "10.0.0.1"
  const TIME := "2020-01-01 00:00:00"
  const SAMPLE := Record(PORT_LIST_ID, "scan", PORT_LIST_ID, "full", PORT_LIST_ID, 0, PORT_LIST_ID, PORT_LIST_ID, HOST, 1,
                         PORT_LIST_ID, 1, TIME, "", TIME)

  lemma SampleValid()
    ensures Valid(SAMPLE)
  {
    hide IsUuid, IsName, IsComm, IsHostList, IsTimestamp;
    PortListIsUuid();
    UuidIsComm(PORT_LIST_ID);
    SampleHost();
    SampleTexts();
    ShortIsComm();
  }

  lemma SampleTexts()
    ensures IsName("scan") && IsComm("full") && IsTimestamp(TIME)
  {
  }

  lemma DottedIsIp(a: string, b: string, c: string, d: string)
    requires IsIpNum(a) && IsIpNum(b) && IsIpNum(c) && IsIpNum(d)
    ensures IsIp(a + ['.'] + (b + ['.'] + (c + ['.'] + d)))
  {
    hide Split, CharIndex;
    assert Text.Free(a, '.') && Text.Free(b, '.') && Text.Free(c, '.') && Text.Free(d, '.');
    SplitCons(a, '.', b + ['.'] + (c + ['.'] + d));
    SplitCons(b, '.', c + ['.'] + d);
    SplitCons(c, '.', d);
    SplitFree(d, '.');
  }

  lemma SampleHost()
    ensures IsHostList(HOST) && IsComm(HOST) && |HOST| == 8
  {
    hide IsIpNum, IsComm, Split, CharIndex, IsIp;
    SampleDigits();
    DottedIsIp("10", "0", "0", "1");
    assert HOST == "10" + ['.'] + ("0" + ['.'] + ("0" + ['.'] + "1"));
    SplitFree(HOST, ',');
  }

  lemma SampleDigits()
    ensures IsIpNum("10") && IsIpNum("0") && IsIpNum("1") && IsComm(HOST)
  {
  }

  /** A registry that holds nothing but the sample task, as it is after its creation. */
  function SampleState(): State<nat> {
    State(map[0 := NewTask(SAMPLE)], [0], [0], [0], 100, EncodeAll([SAMPLE]), map[], true, true)
  }

  lemma {:induction false} BodySize(fs: seq<Field>)
    requires forall f | f in fs :: |f.key| + |f.val| <= 100
    ensures |Body(fs)| <= 104 * |fs|
  {
    if |fs| > 0 {
      assert fs[0] in fs;
      BodySize(fs[1..]);
    }
  }

  /** Every text of the record has at most `n` characters. */
  predicate TextsWithin(r: Record, n: nat) {
    && |r.taskId| <= n && |r.taskName| <= n && |r.groupId| <= n && |r.groupName| <= n && |r.configId| <= n
    && |r.targetId| <= n && |r.portlistId| <= n && |r.hosts| <= n && |r.scheduleId| <= n && |r.scheduleTime| <= n
    && |r.scheduleList| <= n && |r.createTime| <= n
  }

  lemma ShortFields(r: Record)
    requires TextsWithin(r, 50) && r.configCreated < 10 && r.scheduleType < 10 && r.scheduleCreated < 10
    ensures forall f | f in Fields(r) :: |f.key| + |f.val| <= 100
  {
    ItoaDigits(r.configCreated);
    ItoaDigits(r.scheduleType);
    ItoaDigits(r.scheduleCreated);
    hide Itoa;
  }

  lemma ShortRecord(r: Record)
    requires TextsWithin(r, 50) && r.configCreated < 10 && r.scheduleType < 10 && r.scheduleCreated < 10
    ensures |EncodeAll([r])| < 2000
  {
    ShortFields(r);
    BodySize(Fields(r));
    assert |Fields(r)| == 15;
    hide Body, Fields, TextsWithin;
    assert EncodeAll([r]) == TaskRecord.Encode(r) + EncodeAll([]);
  }

  lemma SampleShort()
    ensures TextsWithin(SAMPLE, 50) && SAMPLE.configCreated < 10 && SAMPLE.scheduleType < 10 && SAMPLE.scheduleCreated < 10
  {
  }

  lemma SampleInv(w: World)
    ensures Inv(SampleState(), w) && FileIsRegistry(SampleState())
  {
    hide Valid, ParseFile, EncodeAll, IsUuid, Mirrors, TextsWithin;
    var s := SampleState();
    SampleValid();
    FileRoundTripIff([SAMPLE]);
    SampleShort();
    ShortRecord(SAMPLE);
    assert s.heap.Keys == {0} && Elems([0]) == {0};
    assert InOrder(s, s.heap.Keys);
    RecordsMirror(s);
    assert Records(s.heap, s.createque) == [SAMPLE];
    FileIsRegistryUnlessPending(s, w);
  }

  /** If the server deletes the task and its schedule, but the task file cannot be written, the file still says
      that there is a schedule to delete, and the registry says that there is none. */
  lemma PendingDeletionDiverges(e: Env, w: World)
    requires e.deleteOk && e.deleteScheduleOk && !e.taskFileIo
    ensures var key := Key("scan", SAMPLE.taskId, SAMPLE.targetId);
      var (code, s') := DeleteTask(SampleState(), key, e);
      code == Ok && !FileIsRegistry(s') && ParseFile(s'.file) == Some([SAMPLE])
  {
    hide *;
    var s := SampleState();
    var key := Key("scan", SAMPLE.taskId, SAMPLE.targetId);
    SampleInv(w);
    SampleFacts(e);
    InvParts(s, w);
    LookUp(s, key.name);
    DeleteTaskIs(s, key, e);
    TaskOfIs(s.heap, 0);
    NoIoNoDelete(s, Cleared(s.heap[0], e), e, w);
    PendingDeletionOnFileIff(s, 0, e, w);
    PendingFile(s, 0, e, w);
  }

  lemma SampleFacts(e: Env)
    ensures var s, key := SampleState(), Key("scan", SAMPLE.taskId, SAMPLE.targetId);
      && KeyOk(key) && s.connOk && 0 in s.heap && s.heap[0].rec.taskName == key.name && !IsBusy(s.heap[0])
      && (e.deleteScheduleOk ==> !MarksKept(s.heap[0].rec, e))
      && ParseFile(s.file) == Some([SAMPLE])
      && Cleared(s.heap[0], e).rec.taskName == "scan" && Cleared(s.heap[0], e).rec.createTime == SAMPLE.createTime
      && s.heap[0].rec.createTime == SAMPLE.createTime
  {
    hide ParseFile, EncodeAll, IsUuid, IsName, Valid;
    SampleTexts();
    PortListIsUuid();
    SampleValid();
    FileRoundTripIff([SAMPLE]);
  }

  lemma NoIoNoDelete(s: State<nat>, t: Task, e: Env, w: World)
    requires Inv(s, w) && 0 in s.heap && !e.taskFileIo
    requires t.rec.taskName == s.heap[0].rec.taskName && t.rec.createTime == s.heap[0].rec.createTime
    ensures !DeleteFiles(SetTask(s, 0, t), 0, e).0
  {
    hide DelTask, AddTask, FileText, InOrder, TasksOk, RunOrder, OnDisk;
  }
}
