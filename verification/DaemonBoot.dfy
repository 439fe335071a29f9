/** Starting the daemon from its files. */
module DaemonBoot {
  import opened Wrappers
  import opened Ordering
  import opened StrOrder
  import opened ListSet
  import opened TaskRecord
  import opened Results
  import opened StatusFile
  import opened DaemonState
  import opened Registry
  import opened DaemonInv
  import opened DaemonSteps
  import opened DaemonFiles

  /** `createData`. */
  function Empty<P>(file: string, saved: map<string, string>): State<P> {
    State(map[], [], [], [], GROWTH_STEP, file, saved, false, true)
  }

  /** The tasks that `parseTaskRecord` adds, in file order; `ps` are what the allocator returns. */
  function AddAll<P(==)>(s: State<P>, ps: seq<P>, rs: seq<Record>, memory: bool): Option<State<P>>
    decreases |rs|
  {
    if |rs| == 0 then Some(s)
    else if |ps| == 0 then None
    else
      var s' :- AddTask(SetTask(s, ps[0], NewTask(rs[0])), ps[0], memory);
      AddAll(s', ps[1..], rs[1..], memory)
  }

  /** What a status file says goes into the task that it belongs to. */
  function Load(t: Task, saved: map<string, string>): Task {
    if t.rec.taskId !in saved then t
    else match ParseStatus(saved[t.rec.taskId], t.rec.taskId)
      case Some(Some(v)) =>
        t.(startTime := v.startTime, stopTime := v.stopTime, status := v.status, chkType := v.chkType,
           progress := v.progress, curReport := v.curReport, lastReport := v.lastReport)
      case _ => t
  }

  /** `readTaskStatusFile` fails: there is a status file under that id, and it is refused. */
  predicate StatusBad(saved: map<string, string>, id: string) {
    id in saved && ParseStatus(saved[id], id).None?
  }

  predicate LoadFails<P(==)>(heap: map<P, Task>, q: seq<P>, saved: map<string, string>) {
    exists p | p in q :: StatusBad(saved, TaskOf(heap, p).rec.taskId)
  }

  function LoadAll<P(==)>(heap: map<P, Task>, saved: map<string, string>): map<P, Task> {
    map p | p in heap :: Load(heap[p], saved)
  }

  /** `addGvmChecks`. */
  function ScheduleAll<P(==)>(s: State<P>, q: seq<P>, now: int): State<P>
    decreases |q|
  {
    if |q| == 0 then s
    else
      var t := TaskOf(s.heap, q[0]).(chkTime := NextChkTime(now, Interval(ChkTask)));
      ScheduleAll(AddRun(SetTask(s, q[0], t), q[0]), q[1..], now)
  }

  /** `initDaemon`. */
  function Boot<P(==)>(file: string, saved: map<string, string>, ps: seq<P>, memory: bool, now: int): Option<State<P>> {
    if |file| > READ_LIMIT then None
    else
      var rs :- ParseFile(file);
      var s :- AddAll(Empty(file, saved), ps, rs, memory);
      if LoadFails(s.heap, s.createque, saved) then None
      else Some(ScheduleAll(s.(heap := LoadAll(s.heap, saved)), s.createque, now))
  }

  // ----- adding the tasks of the file

  ghost predicate FileOrder(rs: seq<Record>) {
    && (forall i, j | 0 <= i < j < |rs| :: rs[i].taskName != rs[j].taskName)
    && (forall i, j | 0 <= i < j < |rs| :: StrCmp(rs[i].createTime, rs[j].createTime) <= 0)
  }

  /** The records `rs` may follow the tasks that are registered. */
  ghost predicate Follows<P>(s: State<P>, rs: seq<Record>) {
    && (forall p, r | p in s.heap && r in rs :: s.heap[p].rec.taskName != r.taskName)
    && (forall t, r | t in CreateTimes(s.heap, s.createque) && r in rs :: StrCmp(t, r.createTime) <= 0)
  }

  lemma AppendIndex(keys: seq<string>, x: string)
    requires forall t | t in keys :: StrCmp(t, x) <= 0
    ensures InsertIndex(keys, x, StrCmp) == |keys|
  {
  }

  lemma AppendIs<T>(q: seq<T>, x: T)
    ensures InsertAt(q, |q|, x) == q + [x]
  {
  }

  /** A record that comes last in creation order is appended to the creation queue. */
  lemma AddNext<P>(s: State<P>, p: P, r: Record)
    requires InOrder(s, s.heap.Keys) && p !in s.heap && Follows(s, [r])
    ensures var added := AddTask(SetTask(s, p, NewTask(r)), p, true);
      && added.Some?
      && var s' := added.value;
      && s' == s.(heap := s.heap[p := NewTask(r)], createque := s.createque + [p], nameset := s'.nameset,
                  capacity := s'.capacity)
      && InOrder(s', s'.heap.Keys)
      && CreateTimes(s'.heap, s'.createque) == CreateTimes(s.heap, s.createque) + [r.createTime]
  {
    hide *;
    var m, t := s.heap.Keys, NewTask(r);
    var s0 := SetTask(s, p, t);
    NewTaskIs(r);
    NextIsFree(s, r);
    SetTaskSaved(s, p, t, s.saved);
    SameKeysOf(s.heap, s0.heap, m);
    InOrderFrame(s, s0, m);
    NameFreeFrame(s, s0, m, t.rec.taskName);
    NameOfIs(s0, p);
    AddInOrder(s0, p, true, m);
    KnownTasks(s, m);
    ElemsWithin(s.createque, m);
    KeysFrame(s.heap, s0.heap, s.createque, m);
    TaskOfIs(s0.heap, p);
    NextIsLast(s, r);
    AddTaskIs(s0, p);
    assert s0.heap.Keys == m + {p};
    TimesSnoc(s0.heap, s.createque, p);
  }

  lemma NewTaskIs(r: Record)
    ensures NewTask(r).rec == r
  {
  }

  lemma ElemsWithin<P>(q: seq<P>, m: set<P>)
    requires Holds(q, m)
    ensures Elems(q) <= m
  {
  }

  lemma TimesSnoc<P>(heap: map<P, Task>, q: seq<P>, p: P)
    requires p in heap
    ensures CreateTimes(heap, q + [p]) == CreateTimes(heap, q) + [heap[p].rec.createTime]
  {
  }

  lemma NextIsFree<P>(s: State<P>, r: Record)
    requires Follows(s, [r])
    ensures NameFree(s, s.heap.Keys, r.taskName)
  {
  }

  lemma NextIsLast<P>(s: State<P>, r: Record)
    requires Follows(s, [r])
    ensures InsertIndex(CreateTimes(s.heap, s.createque), r.createTime, StrCmp) == |s.createque|
  {
    assert r in [r];
    AppendIndex(CreateTimes(s.heap, s.createque), r.createTime);
  }

  lemma AddTaskIs<P>(s: State<P>, p: P)
    requires p in s.heap
    requires InsertIndex(CreateTimes(s.heap, s.createque), s.heap[p].rec.createTime, StrCmp) == |s.createque|
    ensures var added := AddTask(s, p, true);
      && added.Some?
      && added.value == s.(createque := s.createque + [p], nameset := added.value.nameset, capacity := added.value.capacity)
  {
    hide CreateTimes, Names;
    AppendIs(s.createque, p);
  }

  lemma FollowsNext<P>(s: State<P>, s': State<P>, p: P, rs: seq<Record>)
    requires |rs| > 0 && Follows(s, rs) && FileOrder(rs)
    requires s'.heap == s.heap[p := NewTask(rs[0])]
    requires CreateTimes(s'.heap, s'.createque) == CreateTimes(s.heap, s.createque) + [rs[0].createTime]
    ensures Follows(s, [rs[0]]) && Follows(s', rs[1..]) && FileOrder(rs[1..])
  {
  }

  lemma FollowsFirst<P>(s: State<P>, rs: seq<Record>)
    requires |rs| > 0 && Follows(s, rs)
    ensures Follows(s, [rs[0]])
  {
  }

  /** Loading records in file order registers exactly them, in that order. */
  lemma {:induction false} AddAllInOrder<P>(s: State<P>, ps: seq<P>, rs: seq<Record>)
    requires InOrder(s, s.heap.Keys) && Follows(s, rs) && FileOrder(rs)
    requires |ps| >= |rs| && Distinct(ps) && forall p | p in ps :: p !in s.heap
    ensures var r := AddAll(s, ps, rs, true);
      && r.Some?
      && var s' := r.value;
      && s' == s.(heap := s'.heap, createque := s.createque + ps[..|rs|], nameset := s'.nameset, capacity := s'.capacity)
      && InOrder(s', s'.heap.Keys)
      && s'.heap.Keys == s.heap.Keys + Elems(ps[..|rs|])
      && (forall p | p in s.heap :: s'.heap[p] == s.heap[p])
      && (forall i | 0 <= i < |rs| :: ps[i] in s'.heap && s'.heap[ps[i]] == NewTask(rs[i]))
    decreases |rs|
  {
    hide InOrder, Follows, FileOrder, AddTask, SetTask, CreateTimes, NewTask, Distinct;
    if |rs| == 0 {
      assert ps[..0] == [] && Elems<P>([]) == {};
      assert s.createque + [] == s.createque;
      return;
    }
    FollowsFirst(s, rs);
    AddNext(s, ps[0], rs[0]);
    var s1 := AddTask(SetTask(s, ps[0], NewTask(rs[0])), ps[0], true).value;
    FollowsNext(s, s1, ps[0], rs);
    DistinctTail(ps, s.heap.Keys);
    AddAllInOrder(s1, ps[1..], rs[1..]);
    AddAllGlue(s, s1, AddAll(s1, ps[1..], rs[1..], true).value, ps, rs);
  }

  lemma DistinctTail<P>(ps: seq<P>, m: set<P>)
    requires |ps| > 0 && Distinct(ps) && forall p | p in ps :: p !in m
    ensures Distinct(ps[1..]) && ps[0] !in m && forall p | p in ps[1..] :: p !in m + {ps[0]}
  {
  }

  lemma PrefixCons<T>(ps: seq<T>, n: nat)
    requires 0 < n <= |ps|
    ensures ps[..n] == [ps[0]] + ps[1..][..n - 1]
    ensures Elems(ps[..n]) == {ps[0]} + Elems(ps[1..][..n - 1])
  {
  }

  lemma AddAllGlue<P>(s: State<P>, s1: State<P>, s': State<P>, ps: seq<P>, rs: seq<Record>)
    requires 0 < |rs| <= |ps| && ps[0] !in s.heap
    requires s1.heap == s.heap[ps[0] := NewTask(rs[0])]
    requires s1.createque == s.createque + [ps[0]]
    requires s'.createque == s1.createque + ps[1..][..|rs[1..]|]
    requires s'.heap.Keys == s1.heap.Keys + Elems(ps[1..][..|rs[1..]|])
    requires forall p | p in s1.heap :: s'.heap[p] == s1.heap[p]
    requires forall i | 0 <= i < |rs[1..]| :: ps[1..][i] in s'.heap && s'.heap[ps[1..][i]] == NewTask(rs[1..][i])
    ensures s'.createque == s.createque + ps[..|rs|]
    ensures s'.heap.Keys == s.heap.Keys + Elems(ps[..|rs|])
    ensures forall p | p in s.heap :: s'.heap[p] == s.heap[p]
    ensures forall i | 0 <= i < |rs| :: ps[i] in s'.heap && s'.heap[ps[i]] == NewTask(rs[i])
  {
    hide NewTask, Elems;
    PrefixCons(ps, |rs|);
    assert s.createque + [ps[0]] + ps[1..][..|rs[1..]|] == s.createque + ([ps[0]] + ps[1..][..|rs[1..]|]);
    forall i | 0 <= i < |rs| ensures ps[i] in s'.heap && s'.heap[ps[i]] == NewTask(rs[i]) {
      if i > 0 {
        assert ps[1..][i - 1] == ps[i] && rs[1..][i - 1] == rs[i];
      }
    }
  }

  // ----- loading the statuses

  lemma LoadedOk(r: Record, saved: map<string, string>, w: World)
    requires Valid(r) && AllSavedOk(saved, w)
    ensures TaskOk(Load(NewTask(r), saved), w)
    ensures Load(NewTask(r), saved).rec == r
    ensures Load(NewTask(r), saved).chkType != ChkDeleted
  {
    hide ParseStatus, Valid, IsUuid, Readable, StableSortOf;
    if r.taskId in saved {
      assert StatusFileOk(saved[r.taskId], r.taskId, w);
      var v := ParseStatus(saved[r.taskId], r.taskId);
      if v.Some? && v.value.Some? {
        ReadableParts(v.value.value);
        ResetIsPaged(w.results(v.value.value.curReport));
      }
    }
  }

  /** Some record of the task file has a status file that is refused. */
  ghost predicate RecordsFail(rs: seq<Record>, saved: map<string, string>) {
    exists r | r in rs :: StatusBad(saved, r.taskId)
  }

  lemma LoadFailsIff<P>(heap: map<P, Task>, ps: seq<P>, rs: seq<Record>, saved: map<string, string>)
    requires |ps| >= |rs| && forall i | 0 <= i < |rs| :: ps[i] in heap && heap[ps[i]] == NewTask(rs[i])
    ensures LoadFails(heap, ps[..|rs|], saved) <==> RecordsFail(rs, saved)
  {
    hide StatusBad;
    var q := ps[..|rs|];
    if p :| p in q && StatusBad(saved, TaskOf(heap, p).rec.taskId) {
      var i :| 0 <= i < |q| && q[i] == p;
      assert ps[i] == p && rs[i] in rs;
    }
    if r :| r in rs && StatusBad(saved, r.taskId) {
      var i :| 0 <= i < |rs| && rs[i] == r;
      assert q[i] == ps[i] && ps[i] in q;
    }
  }

  // ----- scheduling

  /** Scheduling changes nothing but check times and the run queue, which then holds every task, in order. */
  lemma {:induction false} ScheduleAllQueues<P>(s: State<P>, q: seq<P>, now: int, m: set<P>, w: World)
    requires 0 <= now && InTime(now + 300, w)
    requires Distinct(q) && Holds(s.runque, m) && (forall p | p in q :: p !in m && p in s.heap) && m <= s.heap.Keys
    requires RunOrder(s.heap, s.runque, w) && forall p | p in s.heap :: InTime(s.heap[p].chkTime, w)
    ensures var s' := ScheduleAll(s, q, now);
      && s' == s.(heap := s'.heap, runque := s'.runque)
      && s'.heap.Keys == s.heap.Keys
      && (forall p | p in s.heap :: s'.heap[p] == s.heap[p].(chkTime := s'.heap[p].chkTime)
                                    && InTime(s'.heap[p].chkTime, w))
      && Holds(s'.runque, m + Elems(q))
      && RunOrder(s'.heap, s'.runque, w)
    decreases |q|
  {
    hide Holds, RunOrder, AddRun, SetTask, Distinct;
    if |q| == 0 {
      NothingAdded(m, q);
      return;
    }
    var t := TaskOf(s.heap, q[0]).(chkTime := NextChkTime(now, Interval(ChkTask)));
    assert q[0] in q;
    ScheduleOne(s, q[0], t, m, w);
    DistinctTail(q, m);
    var s1 := AddRun(SetTask(s, q[0], t), q[0]);
    ScheduleAllQueues(s1, q[1..], now, m + {q[0]}, w);
    ElemsCons(q);
    assert m + {q[0]} + Elems(q[1..]) == m + Elems(q);
  }

  lemma NothingAdded<P>(m: set<P>, q: seq<P>)
    requires |q| == 0
    ensures m + Elems(q) == m
  {
  }

  lemma ElemsCons<P>(q: seq<P>)
    requires |q| > 0
    ensures Elems(q) == {q[0]} + Elems(q[1..])
  {
  }

  lemma ScheduleOne<P>(s: State<P>, p: P, t: Task, m: set<P>, w: World)
    requires p in s.heap && p !in m && m <= s.heap.Keys && Holds(s.runque, m) && RunOrder(s.heap, s.runque, w)
    requires forall x | x in s.heap :: InTime(s.heap[x].chkTime, w)
    requires InTime(t.chkTime, w)
    ensures var s' := AddRun(SetTask(s, p, t), p);
      && s' == s.(heap := s.heap[p := t], runque := s'.runque)
      && Holds(s'.runque, m + {p})
      && RunOrder(s'.heap, s'.runque, w)
  {
    hide *;
    var heap := s.heap[p := t];
    HoldsIn(s.runque, m, p);
    SetTaskSaved(s, p, t, s.saved);
    AddRunIs(SetTask(s, p, t), p);
    QueueHolds(heap, s.runque, p, m);
    forall x | x in s.runque ensures x in m {
      HoldsIn(s.runque, m, x);
    }
    ChkTimesFrame(s.heap, heap, s.runque);
    RunOrderSame(s.heap, heap, s.runque, w);
    QueueKeepsOrder(heap, s.runque, p, w);
  }

  lemma RunOrderSame<P>(h: map<P, Task>, h': map<P, Task>, q: seq<P>, w: World)
    requires RunOrder(h, q, w) && ChkTimes(h, q) == ChkTimes(h', q)
    ensures RunOrder(h', q, w)
  {
  }

  // ----- the restart as a whole

  /** What the files are like at all times, also when no daemon runs. */
  ghost predicate FilesOk(file: string, saved: map<string, string>, w: World) {
    ParseFile(file).Some? && FileOrder(ParseFile(file).value) && AllSavedOk(saved, w)
  }

  lemma InvFilesOk<P>(s: State<P>, w: World)
    requires Inv(s, w)
    ensures FilesOk(s.file, s.saved, w)
  {
    hide InOrder, RunOrder, TasksOk, AllSavedOk, ParseFile, OnDisk;
    OnDiskParts(s.file, s.heap);
  }

  lemma AddTaskMemory<P>(s: State<P>, p: P, memory: bool)
    ensures AddTask(s, p, memory).Some? ==> AddTask(s, p, memory) == AddTask(s, p, true)
  {
    hide Names, QueueByCreate, InsertIndex;
  }

  /** Scarce memory makes no difference to what is loaded, if everything is. */
  lemma {:induction false} AddAllMemory<P>(s: State<P>, ps: seq<P>, rs: seq<Record>, memory: bool)
    ensures AddAll(s, ps, rs, memory).Some? ==> |ps| >= |rs| && AddAll(s, ps, rs, memory) == AddAll(s, ps, rs, true)
    decreases |rs|
  {
    hide AddTask, SetTask, NewTask;
    if |rs| > 0 && |ps| > 0 {
      var s0 := SetTask(s, ps[0], NewTask(rs[0]));
      AddTaskMemory(s0, ps[0], memory);
      if AddTask(s0, ps[0], memory).Some? {
        AddAllMemory(AddTask(s0, ps[0], memory).value, ps[1..], rs[1..], memory);
      }
    }
  }

  /** With memory enough, the daemon starts unless the task file is larger than the reader allows or a status file is
      refused. A start arrives in a state that satisfies the invariant, with exactly the records of the file as the
      registry, in file order; no deletion is pending any more. */
  lemma BootRestores<P>(file: string, saved: map<string, string>, ps: seq<P>, memory: bool, now: int, w: World)
    requires FilesOk(file, saved, w) && Distinct(ps) && 0 <= now && InTime(now + 300, w)
    ensures var r, rs := Boot(file, saved, ps, memory, now), ParseFile(file).value;
      && (memory && |ps| >= |rs| ==> (r.None? <==> |file| > READ_LIMIT || RecordsFail(rs, saved)))
      && (|file| > READ_LIMIT || RecordsFail(rs, saved) ==> r.None?)
      && (r.Some? ==>
        && Inv(r.value, w)
        && rs == Records(r.value.heap, r.value.createque)
        && r.value.file == file && r.value.saved == saved
        && forall p | p in r.value.heap :: r.value.heap[p].chkType != ChkDeleted)
  {
    hide *;
    FilesOkParts(file, saved, w);
    var rs := ParseFile(file).value;
    FileValid(file);
    BootIs<P>(file, saved, ps, memory, now, rs);
    AddAllMemory(Empty<P>(file, saved), ps, rs, memory);
    if |file| <= READ_LIMIT && |ps| >= |rs| {
      EmptyInOrder<P>(file, saved, rs, ps);
      AddAllInOrder(Empty<P>(file, saved), ps, rs);
      var s1 := AddAll(Empty<P>(file, saved), ps, rs, true).value;
      LoadFailsIff(s1.heap, ps, rs, saved);
      BootFinishes(s1, ps, rs, now, w);
    }
  }

  lemma FilesOkParts(file: string, saved: map<string, string>, w: World)
    requires FilesOk(file, saved, w)
    ensures ParseFile(file).Some? && FileOrder(ParseFile(file).value) && AllSavedOk(saved, w)
  {
  }

  lemma OnDiskParts<P>(file: string, heap: map<P, Task>)
    requires OnDisk(file, heap)
    ensures ParseFile(file).Some? && FileOrder(ParseFile(file).value)
  {
    hide ParseFile;
    var rs := ParseFile(file).value;
    if |file| >= WRITE_LIMIT {
      var last :| Mirrors(heap, rs + [last]);
      assert forall i | 0 <= i < |rs| :: rs[i] == (rs + [last])[i];
    }
  }

  lemma BootIs<P>(file: string, saved: map<string, string>, ps: seq<P>, memory: bool, now: int, rs: seq<Record>)
    requires ParseFile(file) == Some(rs)
    ensures Boot(file, saved, ps, memory, now) ==
      if |file| > READ_LIMIT then None
      else
        var r := AddAll(Empty<P>(file, saved), ps, rs, memory);
        if r.None? || LoadFails(r.value.heap, r.value.createque, saved) then None
        else Some(ScheduleAll(r.value.(heap := LoadAll(r.value.heap, saved)), r.value.createque, now))
  {
  }

  lemma EmptyInOrder<P>(file: string, saved: map<string, string>, rs: seq<Record>, ps: seq<P>)
    ensures var s := Empty<P>(file, saved);
      && InOrder(s, s.heap.Keys) && Follows(s, rs) && s.heap == map[] && s.createque == [] && s.runque == []
      && s.file == file && s.saved == saved
    ensures forall p | p in ps :: p !in Empty<P>(file, saved).heap
  {
  }

  /** Loading the statuses and scheduling the checks completes the state. */
  lemma BootFinishes<P>(s1: State<P>, ps: seq<P>, rs: seq<Record>, now: int, w: World)
    requires |s1.file| <= READ_LIMIT && ParseFile(s1.file) == Some(rs) && AllSavedOk(s1.saved, w)
    requires 0 <= now && InTime(now + 300, w) && |ps| >= |rs| && Distinct(ps)
    requires InOrder(s1, s1.heap.Keys) && s1.createque == ps[..|rs|] && s1.heap.Keys == Elems(ps[..|rs|])
    requires s1.runque == []
    requires forall i | 0 <= i < |rs| :: ps[i] in s1.heap && s1.heap[ps[i]] == NewTask(rs[i])
    requires forall r | r in rs :: Valid(r)
    ensures var s' := ScheduleAll(s1.(heap := LoadAll(s1.heap, s1.saved)), s1.createque, now);
      && Inv(s', w)
      && rs == Records(s'.heap, s'.createque)
      && s'.file == s1.file && s'.saved == s1.saved
      && forall p | p in s'.heap :: s'.heap[p].chkType != ChkDeleted
  {
    hide *;
    var s2 := s1.(heap := LoadAll(s1.heap, s1.saved));
    var q := s1.createque;
    LoadedHeap(s1.heap, ps, rs, s1.saved, w);
    ToQueue(s2, ps, |rs|, w);
    ScheduleAllQueues(s2, q, now, {}, w);
    var s' := ScheduleAll(s2, q, now);
    SameKeysOf(s1.heap, s'.heap, s1.heap.Keys);
    InOrderFrame(s1, s', s1.heap.Keys);
    TasksRetimed(s2.heap, s'.heap, w);
    RecordsAre(s'.heap, ps, rs);
    RecordsMirror(s');
    SmallCarries(s1.file, rs);
    OnDiskFrom(s1.file, s'.heap, rs);
    InvFromParts(s', w);
  }

  lemma SmallCarries(file: string, rs: seq<Record>)
    requires |file| <= READ_LIMIT && ParseFile(file) == Some(rs)
    ensures Carries(file, rs)
  {
  }

  lemma LoadedHeap<P>(heap: map<P, Task>, ps: seq<P>, rs: seq<Record>, saved: map<string, string>, w: World)
    requires |ps| >= |rs| && heap.Keys == Elems(ps[..|rs|]) && AllSavedOk(saved, w)
    requires forall i | 0 <= i < |rs| :: ps[i] in heap && heap[ps[i]] == NewTask(rs[i])
    requires forall r | r in rs :: Valid(r)
    ensures var heap' := LoadAll(heap, saved);
      && heap'.Keys == heap.Keys
      && TasksOk(heap', w)
      && (forall p | p in heap :: heap'[p].rec == heap[p].rec && InTime(heap'[p].chkTime, w)
                                  && heap'[p].chkType != ChkDeleted)
      && forall i | 0 <= i < |rs| :: heap'[ps[i]].rec == rs[i]
  {
    hide Load, TaskOk, Valid, NewTask, AllSavedOk;
    var heap' := LoadAll(heap, saved);
    forall p | p in heap
      ensures TaskOk(heap'[p], w) && heap'[p].rec == heap[p].rec && InTime(heap'[p].chkTime, w)
      ensures heap'[p].chkType != ChkDeleted
    {
      var i :| 0 <= i < |ps[..|rs|]| && ps[..|rs|][i] == p;
      assert ps[i] == p && rs[i] in rs;
      LoadedOk(rs[i], saved, w);
      NewTaskIs(rs[i]);
      InRange(heap'[p], w);
    }
    forall i | 0 <= i < |rs| ensures heap'[ps[i]].rec == rs[i] {
      NewTaskIs(rs[i]);
    }
  }

  /** Before the first scheduling nothing is queued, and every task waits for it once. */
  lemma ToQueue<P>(s: State<P>, ps: seq<P>, n: nat, w: World)
    requires s.runque == [] && Distinct(ps) && n <= |ps| && s.heap.Keys == Elems(ps[..n])
    ensures Holds(s.runque, {}) && RunOrder(s.heap, s.runque, w)
    ensures Distinct(ps[..n]) && forall p | p in ps[..n] :: p in s.heap.Keys
    ensures {} + Elems(ps[..n]) == s.heap.Keys
  {
  }

  lemma TasksRetimed<P>(h: map<P, Task>, h': map<P, Task>, w: World)
    requires TasksOk(h, w) && h'.Keys == h.Keys
    requires forall p | p in h :: h'[p] == h[p].(chkTime := h'[p].chkTime) && InTime(h'[p].chkTime, w)
    ensures TasksOk(h', w)
  {
    hide Valid, PhaseOk, Paged;
    forall p | p in h' ensures TaskOk(h'[p], w) {
      assert TaskOk(h[p], w);
    }
  }

  lemma RecordsAre<P>(heap: map<P, Task>, ps: seq<P>, rs: seq<Record>)
    requires |ps| >= |rs| && forall i | 0 <= i < |rs| :: ps[i] in heap && heap[ps[i]].rec == rs[i]
    ensures Records(heap, ps[..|rs|]) == rs
  {
  }
}
