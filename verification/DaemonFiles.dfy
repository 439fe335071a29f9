/** Creating and deleting tasks: the registry and the task file change together or not at all. */
module DaemonFiles {
  import opened Wrappers
  import opened Ordering
  import opened StrOrder
  import opened TaskRecord
  import opened DaemonState
  import opened Registry
  import opened DaemonInv

  // ----- what a successful write leaves on disk

  /** What a file of these records decodes to: all of them, unless it fills the write buffer. */
  ghost predicate Carries(file: string, rs: seq<Record>) {
    if |file| < WRITE_LIMIT then ParseFile(file) == Some(rs)
    else |rs| > 0 && ParseFile(file) == Some(rs[..|rs| - 1])
  }

  /** The text written for the registry decodes to its records, but for the last one when it fills the buffer. */
  lemma WrittenText<P>(s: State<P>, io: bool)
    requires WriteTaskFile(s, io).Some?
    requires forall r | r in Records(s.heap, s.createque) :: Valid(r)
    ensures io && Carries(WriteTaskFile(s, io).value.file, Records(s.heap, s.createque))
  {
    hide ParseFile, Valid, EncodeAll;
    var rs := Records(s.heap, s.createque);
    FileRoundTripIff(rs);
    ParseNothing();
    if |EncodeAll(rs)| == WRITE_LIMIT {
      NoRecords();
      ExactFitLosesLast(rs, WRITE_LIMIT);
    }
  }

  lemma NoRecords()
    ensures EncodeAll([]) == ""
  {
  }

  lemma ElemsAt<T>(q: seq<T>, i: nat)
    requires i < |q|
    ensures q[i] in Elems(q)
  {
  }

  lemma RecordOwner<P>(heap: map<P, Task>, q: seq<P>, m: set<P>, r: Record) returns (p: P)
    requires Holds(q, m) && m <= heap.Keys && r in Records(heap, q)
    ensures p in m && heap[p].rec == r
  {
    var i :| 0 <= i < |q| && Records(heap, q)[i] == r;
    ElemsAt(q, i);
    p := q[i];
  }

  lemma NamesOfRecords<P>(heap: map<P, Task>, q: seq<P>)
    requires Holds(q, heap.Keys)
    ensures RecordNames(Records(heap, q)) == TaskNames(heap)
  {
  }

  lemma NamesDistinct<P>(s: State<P>, p: P, q: P)
    requires InOrder(s, s.heap.Keys) && p in s.heap && q in s.heap
    requires s.heap[p].rec.taskName == s.heap[q].rec.taskName
    ensures p == q
  {
    hide InOrder;
    assert NameOf(s, q) == NameOf(s, p);
    NameOnlyOnce(s, p, s.heap.Keys);
  }

  lemma RecordsMirror<P>(s: State<P>)
    requires InOrder(s, s.heap.Keys)
    ensures Mirrors(s.heap, Records(s.heap, s.createque))
  {
    hide InOrder, RecordNames, TaskNames, Sorted, Holds, MarksDropped;
    var rs := Records(s.heap, s.createque);
    Parts(s);
    NamesOfRecords(s.heap, s.createque);
    forall r, p | r in rs && p in s.heap && r.taskName == s.heap[p].rec.taskName ensures Agrees(r, s.heap[p]) {
      var q := RecordOwner(s.heap, s.createque, s.heap.Keys, r);
      NamesDistinct(s, p, q);
    }
    forall i, j | 0 <= i < j < |rs|
      ensures rs[i].taskName != rs[j].taskName && StrCmp(rs[i].createTime, rs[j].createTime) <= 0
    {
      CreatedInOrder(s, i, j);
    }
  }

  lemma Parts<P>(s: State<P>)
    requires InOrder(s, s.heap.Keys)
    ensures Holds(s.createque, s.heap.Keys)
  {
  }

  lemma CreatedInOrder<P>(s: State<P>, i: nat, j: nat)
    requires InOrder(s, s.heap.Keys) && i < j < |s.createque|
    ensures var rs := Records(s.heap, s.createque);
      rs[i].taskName != rs[j].taskName && StrCmp(rs[i].createTime, rs[j].createTime) <= 0
  {
    var times, p, q := CreateTimes(s.heap, s.createque), s.createque[i], s.createque[j];
    assert StrCmp(times[i], times[j]) <= 0;
    ElemsAt(s.createque, i);
    ElemsAt(s.createque, j);
    hide StrictlySorted, Sorted;
    if s.heap[p].rec.taskName == s.heap[q].rec.taskName {
      NamesDistinct(s, p, q);
    }
  }

  lemma RecordsValid<P>(heap: map<P, Task>, q: seq<P>, m: set<P>)
    requires Holds(q, m) && m <= heap.Keys && forall p | p in m :: Valid(heap[p].rec)
    ensures forall r | r in Records(heap, q) :: Valid(r)
  {
  }

  lemma RecordsFrame<P>(h: map<P, Task>, h': map<P, Task>, q: seq<P>, m: set<P>)
    requires Holds(q, m) && forall p | p in m :: p in h && p in h' && h[p].rec == h'[p].rec
    ensures Records(h, q) == Records(h', q)
  {
  }

  /** After a successful write the file mirrors the registry; `heap` may have more tasks than the registry. */
  lemma WrittenMirrors<P>(s: State<P>, io: bool, m: set<P>)
    requires InOrder(s, m) && WriteTaskFile(s, io).Some?
    requires forall p | p in m :: Valid(s.heap[p].rec)
    ensures var heap := map p | p in s.heap && p in m :: s.heap[p];
      OnDisk(WriteTaskFile(s, io).value.file, heap)
  {
    hide *;
    var heap := map p | p in s.heap && p in m :: s.heap[p];
    KnownTasks(s, m);
    assert heap.Keys == m;
    RecordsValid(s.heap, s.createque, m);
    WrittenText(s, io);
    SameKeysOf(s.heap, heap, m);
    InOrderFrame(s, s.(heap := heap), m);
    RecordsFrame(s.heap, heap, s.createque, m);
    RecordsMirror(s.(heap := heap));
    OnDiskFrom(WriteTaskFile(s, io).value.file, heap, Records(s.heap, s.createque));
  }

  lemma KnownTasks<P>(s: State<P>, m: set<P>)
    requires InOrder(s, m)
    ensures m <= s.heap.Keys && Holds(s.createque, m)
  {
  }

  lemma SameKeysOf<P>(h: map<P, Task>, h': map<P, Task>, m: set<P>)
    requires m <= h.Keys && m <= h'.Keys && forall p | p in m :: h[p].rec == h'[p].rec
    ensures SameKeys(h, h', m)
  {
  }

  lemma OnDiskFrom<P>(file: string, heap: map<P, Task>, rs: seq<Record>)
    requires Carries(file, rs) && Mirrors(heap, rs)
    ensures OnDisk(file, heap)
  {
    hide ParseFile, Mirrors;
    if |file| >= WRITE_LIMIT {
      assert rs[..|rs| - 1] + [rs[|rs| - 1]] == rs;
    }
  }

  // ----- deleting

  /** Deleting the files of a task either takes the task out of the registry, the run queue and the file, or leaves
      everything but the order of ties in the creation queue as it was. */
  lemma DeleteFilesStep<P>(s: State<P>, p: P, e: Env)
    requires Registered(s) && p in s.heap
    ensures var (ok, s') := DeleteFiles(s, p, e);
      && s' == s.(nameset := s'.nameset, createque := s'.createque, runque := s'.runque, file := s'.file, saved := s'.saved)
      && (!ok ==> s' == s.(createque := s'.createque) && Registered(s'))
      && (ok ==>
        && s'.runque == Without(s.runque, p)
        && s'.saved == s.saved - {s.heap[p].rec.taskId}
        && Registered(Free(s', p)))
  {
    hide *;
    var m := s.heap.Keys;
    RegisteredParts(s);
    NameOfIs(s, p);
    DeleteInOrder(s, p, m);
    DeleteThenAdd(s, p, e.memory, m);
    var removed := DelTask(s, s.heap[p].rec.taskName).value;
    DeleteFilesIs(s, p, e);
    WithoutHolds(s.runque, p, m);
    if WriteTaskFile(removed, e.taskFileIo).Some? && e.paths {
      var s' := DeleteFiles(s, p, e).1;
      WriteIs(removed, e.taskFileIo);
      FreeIs(s', p);
      var freed := Free(s', p);
      SameKeysOf(s.heap, freed.heap, m - {p});
      assert freed.heap.Keys == m - {p};
      InOrderFrame(removed, freed, m - {p});
      RegisteredFrom(freed);
    } else {
      var s' := DeleteFiles(s, p, e).1;
      RegisteredFrom(s');
    }
  }

  lemma RegisteredParts<P>(s: State<P>)
    requires Registered(s)
    ensures InOrder(s, s.heap.Keys) && Holds(s.runque, s.heap.Keys)
  {
  }

  lemma RegisteredFrom<P>(s: State<P>)
    requires InOrder(s, s.heap.Keys) && Holds(s.runque, s.heap.Keys)
    ensures Registered(s)
  {
  }

  lemma TaskOfIs<P>(heap: map<P, Task>, p: P)
    requires p in heap
    ensures TaskOf(heap, p) == heap[p]
  {
  }

  lemma NameOfIs<P>(s: State<P>, p: P)
    requires p in s.heap
    ensures NameOf(s, p) == s.heap[p].rec.taskName
  {
  }

  lemma FreeIs<P>(s: State<P>, p: P)
    ensures Free(s, p) == s.(heap := s.heap - {p})
  {
  }

  lemma WriteIs<P>(s: State<P>, io: bool)
    ensures WriteTaskFile(s, io).Some? ==>
      WriteTaskFile(s, io).value == s.(file := WriteTaskFile(s, io).value.file)
  {
  }

  lemma DeleteFilesIs<P>(s: State<P>, p: P, e: Env)
    requires p in s.heap && DelTask(s, s.heap[p].rec.taskName).Some?
    requires DelTask(s, s.heap[p].rec.taskName).value
          == s.(nameset := DelTask(s, s.heap[p].rec.taskName).value.nameset,
                createque := DelTask(s, s.heap[p].rec.taskName).value.createque)
    requires AddTask(DelTask(s, s.heap[p].rec.taskName).value, p, e.memory).Some?
    ensures var removed := DelTask(s, s.heap[p].rec.taskName).value;
      DeleteFiles(s, p, e) ==
        if !e.paths then (false, s)
        else if WriteTaskFile(removed, e.taskFileIo).Some? then
          (true, s.(nameset := removed.nameset, createque := removed.createque, runque := Without(s.runque, p),
                    file := WriteTaskFile(removed, e.taskFileIo).value.file,
                    saved := s.saved - {s.heap[p].rec.taskId}))
        else (false, AddTask(removed, p, e.memory).value)
  {
    hide DelTask, AddTask, FileText, Without;
  }

  lemma DeleteFilesOnDisk<P>(s: State<P>, p: P, e: Env)
    requires Registered(s) && p in s.heap && forall q | q in s.heap :: Valid(s.heap[q].rec)
    requires DeleteFiles(s, p, e).0
    ensures OnDisk(DeleteFiles(s, p, e).1.file, s.heap - {p})
  {
    hide *;
    var m := s.heap.Keys;
    RegisteredParts(s);
    NameOfIs(s, p);
    DeleteInOrder(s, p, m);
    DeleteThenAdd(s, p, e.memory, m);
    var removed := DelTask(s, s.heap[p].rec.taskName).value;
    DeleteFilesIs(s, p, e);
    var s' := DeleteFiles(s, p, e).1;
    FreeIs(s', p);
    KnownTasks(removed, m - {p});
    WrittenMirrors(removed, e.taskFileIo, m - {p});
    assert (map q | q in s.heap && q in m - {p} :: s.heap[q]) == s.heap - {p};
  }

  lemma TasksValid<P>(heap: map<P, Task>, w: World)
    requires TasksOk(heap, w)
    ensures forall p | p in heap :: Valid(heap[p].rec)
  {
  }

  /** The parts of the invariant that survive when a task and its status file go. */
  lemma PartsWithout<P>(heap: map<P, Task>, q: seq<P>, saved: map<string, string>, p: P, id: string, w: World)
    requires TasksOk(heap, w) && AllSavedOk(saved, w) && RunOrder(heap, q, w) && Holds(q, heap.Keys) && p in heap
    ensures TasksOk(heap - {p}, w) && AllSavedOk(saved - {id}, w)
    ensures RunOrder(heap - {p}, Without(q, p), w)
  {
    hide TaskOk, StatusFileOk, Sorted, ChkTimes, Without, Holds;
    WithoutRun(heap, q, p, heap.Keys, w);
    forall x | x in Without(q, p) ensures x in heap.Keys - {p} {
      HoldsIn(Without(q, p), heap.Keys - {p}, x);
    }
    ChkTimesFrame(heap, heap - {p}, Without(q, p));
  }

  /** Deleting the files of a task: either the task is gone for good, or all is as before. */
  lemma DeleteFilesKeeps<P>(s: State<P>, p: P, e: Env, w: World)
    requires Inv(s, w) && p in s.heap
    ensures var (ok, s') := DeleteFiles(s, p, e);
      && (!ok ==> Inv(s', w) && s' == s.(createque := s'.createque))
      && (ok ==> Inv(Free(s', p), w) && Free(s', p).heap == s.heap - {p})
  {
    hide *;
    InvParts(s, w);
    RegisteredFrom(s);
    DeleteFilesStep(s, p, e);
    var (ok, s') := DeleteFiles(s, p, e);
    FreeIs(s', p);
    if !ok {
      RegisteredParts(s');
      InvFromParts(s', w);
    } else {
      RegisteredParts(Free(s', p));
      TasksValid(s.heap, w);
      DeleteFilesOnDisk(s, p, e);
      PartsWithout(s.heap, s.runque, s.saved, p, s.heap[p].rec.taskId, w);
      InvFromParts(Free(s', p), w);
    }
  }

  // ----- creating

  lemma CreateFilesIs<P>(s: State<P>, p: P, e: Env)
    requires p in s.heap
    requires AddTask(s, p, e.memory).Some? ==>
      DelTask(AddTask(s, p, e.memory).value, s.heap[p].rec.taskName).Some?
    ensures var dropped := s.(saved := s.saved - {s.heap[p].rec.taskId});
      CreateFiles(s, p, e) ==
        if !e.paths || !e.dir then (false, s)
        else if AddTask(s, p, e.memory).None? then (false, dropped)
        else
          var added := AddTask(s, p, e.memory).value;
          if WriteTaskFile(added, e.taskFileIo).Some? then
            (true, AddRun(WriteTaskFile(added, e.taskFileIo).value, p))
          else
            var undone := DelTask(added, s.heap[p].rec.taskName).value;
            (false, undone.(saved := undone.saved - {TaskOf(undone.heap, p).rec.taskId}))
  {
  }

  lemma AddRunIs<P>(s: State<P>, p: P)
    requires p !in s.runque
    ensures AddRun(s, p) == s.(runque := QueueByCheck(s.heap, s.runque, p))
  {
  }

  lemma NameFreeFrame<P>(s: State<P>, s': State<P>, m: set<P>, name: string)
    requires NameFree(s, m, name) && m <= s.heap.Keys && forall p | p in m :: p in s'.heap && s'.heap[p] == s.heap[p]
    ensures NameFree(s', m, name)
  {
  }

  /** Adding a fresh task, and taking it out again. */
  lemma AddFresh<P>(s: State<P>, p: P, t: Task, memory: bool)
    requires InOrder(s, s.heap.Keys) && p !in s.heap && NameFree(s, s.heap.Keys, t.rec.taskName)
    ensures var s0 := s.(heap := s.heap[p := t]);
      AddTask(s0, p, memory).Some? ==>
        var added := AddTask(s0, p, memory).value;
        var undone := DelTask(added, t.rec.taskName);
        && added == s0.(nameset := added.nameset, createque := added.createque, capacity := added.capacity)
        && InOrder(added, s.heap.Keys + {p})
        && undone.Some? && undone.value == s0.(capacity := undone.value.capacity) && s.capacity <= undone.value.capacity
  {
    hide *;
    var m := s.heap.Keys;
    var s0 := s.(heap := s.heap[p := t]);
    SameKeysOf(s.heap, s0.heap, m);
    InOrderFrame(s, s0, m);
    NameFreeFrame(s, s0, m, t.rec.taskName);
    NameOfIs(s0, p);
    if AddTask(s0, p, memory).Some? {
      AddInOrder(s0, p, memory, m);
      AddThenDelete(s0, p, memory, m);
      AddKeeps(s0, p, memory);
    }
  }

  /** Creating the files of a task either registers and queues it, or leaves the registry exactly as it was. */
  lemma CreateFilesStep<P>(s: State<P>, p: P, t: Task, e: Env)
    requires Registered(s) && p !in s.heap && NameFree(s, s.heap.Keys, t.rec.taskName)
    ensures var (ok, s') := CreateFiles(SetTask(s, p, t), p, e);
      && (!ok ==> Free(s', p) == s.(capacity := s'.capacity, saved := s'.saved)
                  && s'.saved in {s.saved, s.saved - {t.rec.taskId}}
                  && Registered(Free(s', p)))
      && (ok ==> s' == s.(heap := s.heap[p := t], nameset := s'.nameset, createque := s'.createque,
                          capacity := s'.capacity, runque := s'.runque, file := s'.file)
                 && s'.runque == QueueByCheck(s.heap[p := t], s.runque, p)
                 && Registered(s'))
  {
    hide *;
    var m := s.heap.Keys;
    var s0 := SetTask(s, p, t);
    RegisteredParts(s);
    SetTaskSaved(s, p, t, s.saved);
    AddFresh(s, p, t, e.memory);
    CreateFilesIs(s0, p, e);
    var (ok, s') := CreateFiles(s0, p, e);
    if ok {
      var added := AddTask(s0, p, e.memory).value;
      WriteIs(added, e.taskFileIo);
      CreatedQueued(s, added, WriteTaskFile(added, e.taskFileIo).value, p);
    } else {
      TaskOfIs(s0.heap, p);
      FreeIs(s', p);
      Undone(s, s', p, t);
      RegisteredFrom(Free(s', p));
    }
  }

  lemma CreatedQueued<P>(s: State<P>, added: State<P>, written: State<P>, p: P)
    requires Holds(s.runque, s.heap.Keys) && p !in s.heap && InOrder(added, s.heap.Keys + {p})
    requires added.heap.Keys == s.heap.Keys + {p} && added.runque == s.runque
    requires written == added.(file := written.file)
    ensures AddRun(written, p) == written.(runque := QueueByCheck(written.heap, written.runque, p))
    ensures Registered(AddRun(written, p))
  {
    hide *;
    var s', m := AddRun(written, p), s.heap.Keys;
    HoldsIn(s.runque, m, p);
    AddRunIs(written, p);
    QueueHolds(written.heap, s.runque, p, m);
    SameKeysOf(added.heap, s'.heap, m + {p});
    InOrderFrame(added, s', m + {p});
    RegisteredFrom(s');
  }

  lemma AddKeeps<P>(s: State<P>, p: P, memory: bool)
    ensures AddTask(s, p, memory).Some? ==>
      var s' := AddTask(s, p, memory).value;
      s' == s.(nameset := s'.nameset, createque := s'.createque, capacity := s'.capacity) && s.capacity <= s'.capacity
  {
  }

  /** A task that is not registered leaves no trace but room in the name array. */
  lemma Undone<P>(s: State<P>, s': State<P>, p: P, t: Task)
    requires InOrder(s, s.heap.Keys) && s.capacity <= s'.capacity && p !in s.heap
    ensures s.heap[p := t] - {p} == s.heap
    ensures InOrder(s.(capacity := s'.capacity, saved := s'.saved), s.heap.Keys)
  {
  }
}
