/** Starting the daemon on the shared data (`initDaemon`), proved to be the restart of `DaemonBoot`. */
module GvmBoot {
  import opened Wrappers
  import opened Ordering
  import opened StrOrder
  import opened ListSet
  import opened TaskRecord
  import opened StatusFile
  import opened GvmTasks
  import opened GvmData
  import opened GvmDaemon
  import D = DaemonState
  import B = DaemonBoot
  import F = DaemonFiles

  /** `readTaskStatusFile`: what the status file says is taken over field by field, until one is refused; without a file,
      or without marks in it, there is nothing to do. */
  method ReadTaskStatus(data: GvmData, task: GvmTask) returns (ret: int)
    requires data.Valid() && task in data.heap
    modifies data`heap, task
    ensures data.Valid()
    ensures var t, id := old(data.heap)[task], old(data.heap)[task].rec.taskId;
      && (ret != 0 <==> B.StatusBad(data.saved, id))
      && (ret == 0 ==> data.State() == D.SetTask(old(data.State()), task, B.Load(t, data.saved)))
      && (ret != 0 ==>
        && id in data.saved && Marked(data.saved[id]).Some?
        && data.State() == D.SetTask(old(data.State()), task, D.Restored(t, Marked(data.saved[id]).value, id).1))
  {
    hide *;
    ghost var s, t := data.State(), data.heap[task];
    data.ValidIs();
    data.ApartIs(data.heap.Keys, data.mainFoot, data.runFoot);
    FieldsOf(data.heap, task);
    ChangeNothing(s, task, t);
    LoadIs(t, data.saved);
    ret := 0;
    var id := task.rec.taskId;
    if id in data.saved {
      var text := Marked(data.saved[id]);
      if text.Some? {
        data.Loosen(task);
        FieldsAre(task);
        RestoredRetimed(t, text.value, id);
        ret := task.Restore(text.value, id);
        FieldsAre(task);
        data.Sync(task);
      }
    }
  }

  lemma LoadIs(t: D.Task, saved: map<string, string>)
    ensures var id := t.rec.taskId;
      && (id !in saved || Marked(saved[id]).None? ==> B.Load(t, saved) == t && !B.StatusBad(saved, id))
      && (id in saved && Marked(saved[id]).Some? ==>
        var (ok, t') := D.Restored(t, Marked(saved[id]).value, id);
        (ok <==> !B.StatusBad(saved, id)) && (ok ==> B.Load(t, saved) == t'))
  {
    hide Marked, ParseFields, D.Restored;
    var id := t.rec.taskId;
    if id in saved && Marked(saved[id]).Some? {
      D.RestoredIff(t, Marked(saved[id]).value, id);
    }
  }

  lemma RestoredRetimed(t: D.Task, text: string, id: string)
    ensures var (ok, t') := D.Restored(t, text, id);
      && D.Restored(t.(chkTime := 0), text, id) == (ok, t'.(chkTime := 0))
      && t'.rec == t.rec && t'.chkTime == t.chkTime
  {
    hide Lookup, LookupInt, StatusOf, ChkOf;
  }

  // ----- one record after the other

  lemma {:induction false} AddAllSnoc<P>(s: D.State<P>, ps: seq<P>, rs: seq<Record>, p: P, r: Record, memory: bool)
    requires |ps| == |rs|
    ensures B.AddAll(s, ps + [p], rs + [r], memory) ==
      match B.AddAll(s, ps, rs, memory)
      case Some(s') => D.AddTask(D.SetTask(s', p, D.NewTask(r)), p, memory)
      case None => None
    decreases |rs|
  {
    hide D.AddTask, D.SetTask, D.NewTask;
    if |rs| == 0 {
      AddAllOne(s, p, r, memory);
      assert ps + [p] == [p] && rs + [r] == [r];
    } else {
      assert (ps + [p])[1..] == ps[1..] + [p] && (rs + [r])[1..] == rs[1..] + [r];
      var added := D.AddTask(D.SetTask(s, ps[0], D.NewTask(rs[0])), ps[0], memory);
      if added.Some? {
        AddAllSnoc(added.value, ps[1..], rs[1..], p, r, memory);
      }
    }
  }

  lemma AddAllOne<P>(s: D.State<P>, p: P, r: Record, memory: bool)
    ensures B.AddAll(s, [p], [r], memory) == D.AddTask(D.SetTask(s, p, D.NewTask(r)), p, memory)
    ensures B.AddAll(s, [], [], memory) == Some(s)
  {
  }

  /** Registering records touches no file. */
  lemma {:induction false} AddAllSaved<P>(s: D.State<P>, ps: seq<P>, rs: seq<Record>, memory: bool)
    ensures B.AddAll(s, ps, rs, memory).Some? ==> B.AddAll(s, ps, rs, memory).value.saved == s.saved
    decreases |rs|
  {
    hide D.QueueByCreate, InsertIndex, InsertAt, D.Names, D.NewTask;
    if |rs| > 0 && |ps| > 0 {
      var added := D.AddTask(D.SetTask(s, ps[0], D.NewTask(rs[0])), ps[0], memory);
      if added.Some? {
        AddAllSaved(added.value, ps[1..], rs[1..], memory);
      }
    }
  }

  /** What fails for the first records fails for all of them, with any further objects. */
  lemma {:induction false} AddAllPrefix<P>(s: D.State<P>, ps: seq<P>, more: seq<P>, rs: seq<Record>, n: nat, memory: bool)
    requires n <= |rs| && |ps| == n && B.AddAll(s, ps, rs[..n], memory).None?
    ensures B.AddAll(s, ps + more, rs, memory).None?
    decreases n
  {
    hide D.AddTask, D.SetTask, D.NewTask;
    if n > 0 {
      var added := D.AddTask(D.SetTask(s, ps[0], D.NewTask(rs[0])), ps[0], memory);
      if added.Some? {
        assert rs[..n][1..] == rs[1..][..n - 1];
        assert (ps + more)[1..] == ps[1..] + more;
        AddAllPrefix(added.value, ps[1..], more, rs[1..], n - 1, memory);
      }
    }
  }

  /** Objects beyond the last record are not needed. */
  lemma {:induction false} AddAllExtra<P>(s: D.State<P>, ps: seq<P>, more: seq<P>, rs: seq<Record>, memory: bool)
    requires B.AddAll(s, ps, rs, memory).Some?
    ensures B.AddAll(s, ps + more, rs, memory) == B.AddAll(s, ps, rs, memory)
    decreases |rs|
  {
    hide D.AddTask, D.SetTask, D.NewTask;
    if |rs| > 0 {
      assert (ps + more)[1..] == ps[1..] + more;
      AddAllExtra(D.AddTask(D.SetTask(s, ps[0], D.NewTask(rs[0])), ps[0], memory).value, ps[1..], more, rs[1..], memory);
    }
  }

  /** One record of the task file becomes a task object. */
  method NewRecordTask(data: GvmData, r: Record) returns (task: GvmTask)
    requires data.Valid()
    modifies data`heap, data`owner, data`mainFoot, data`runFoot
    ensures data.Valid() && fresh(task)
    ensures forall o | o in data.Parts() :: o in old(data.Parts()) || fresh(o)
    ensures task in data.heap && task !in old(data.heap) && task !in data.createque
    ensures data.State() == D.SetTask(old(data.State()), task, D.NewTask(r))
  {
    hide *;
    task := data.NewGvmTask();
    data.ValidIs();
    data.PartsHold();
    FilledIs(r);
    UncheckedIs(r);
    OtherObjects(data, task);
    task.Fill(r);
    FieldsAre(task);
    data.ValidIs();
    label L:
    data.Adopt(task);
    data.AdoptedParts@L(task);
    data.ValidIs();
  }

  lemma UncheckedIs(r: Record)
    ensures D.NewTask(r).(chkTime := 0) == D.NewTask(r)
  {
  }

  /** The records of the task file, registered one after the other. */
  method AddRecords(data: GvmData, recs: seq<Record>, memory: bool) returns (ret: int, ghost ps: seq<GvmTask>)
    requires data.Valid() && data.heap == map[] && data.createque == []
    modifies data, data.Parts()
    ensures data.Valid() && forall o | o in data.Parts() :: o in old(data.Parts()) || fresh(o)
    ensures ret == 0 ==> B.AddAll(old(data.State()), ps, recs, memory) == Some(data.State())
    ensures ret != 0 ==> forall more :: B.AddAll(old(data.State()), ps + more, recs, memory).None?
    ensures Distinct(ps) && forall p | p in ps :: fresh(p)
    ensures ret == 0 ==> Elems(data.createque) == data.heap.Keys && Distinct(data.createque)
  {
    hide *;
    ghost var s := data.State();
    ps, ret := [], 0;
    AddNothing(s, memory);
    data.ValidIs();
    assert recs[..0] == [];
    var i := 0;
    while i < |recs|
      invariant 0 <= i <= |recs| && |ps| == i && ret == 0
      invariant data.Valid() && forall o | o in data.Parts() :: o in old(data.Parts()) || fresh(o)
      invariant B.AddAll(s, ps, recs[..i], memory) == Some(data.State())
      invariant Elems(data.createque) == data.heap.Keys && Distinct(data.createque)
      invariant Distinct(ps) && forall p | p in ps :: fresh(p) && p in data.heap
    {
      ghost var task;
      ret, task := AddRecord(data, recs[i], memory);
      AddAllSnoc(s, ps, recs[..i], task, recs[i], memory);
      assert recs[..i + 1] == recs[..i] + [recs[i]];
      DistinctSnoc(ps, task);
      ps := ps + [task];
      i := i + 1;
      if ret != 0 {
        forall more ensures B.AddAll(s, ps + more, recs, memory).None? {
          AddAllPrefix(s, ps, more, recs, i, memory);
        }
        return;
      }
    }
    assert recs[..i] == recs;
  }

  lemma DistinctSnoc<P>(ps: seq<P>, p: P)
    requires Distinct(ps) && p !in ps
    ensures Distinct(ps + [p])
  {
  }

  /** One record is registered. */
  method AddRecord(data: GvmData, r: Record, memory: bool) returns (ret: int, ghost task: GvmTask)
    requires data.Valid() && Elems(data.createque) == data.heap.Keys && Distinct(data.createque)
    modifies data, data.Parts()
    ensures data.Valid() && forall o | o in data.Parts() :: o in old(data.Parts()) || fresh(o)
    ensures match D.AddTask(D.SetTask(old(data.State()), task, D.NewTask(r)), task, memory)
            case Some(s) => ret == 0 && data.State() == s && Elems(data.createque) == data.heap.Keys
                            && Distinct(data.createque)
            case None => ret == -1
    ensures fresh(task) && task !in old(data.heap) && data.heap == old(data.heap)[task := D.NewTask(r)]
  {
    hide *;
    ghost var s := data.State();
    data.ValidIs();
    data.PartsHold();
    var t := NewRecordTask(data, r);
    task := t;
    data.ValidIs();
    data.PartsIs();
    data.PartsHold();
    OneMore(s, task, r);
    GvmData.SetTaskIs(s, task, D.NewTask(r));
    AddedElems(data.State(), task, memory);
    ret := data.AddTask(t, memory);
    data.ValidIs();
    data.PartsIs();
  }

  lemma OneMore<P>(s: D.State<P>, p: P, r: Record)
    requires p !in s.heap && Elems(s.createque) == s.heap.Keys
    ensures var s' := D.SetTask(s, p, D.NewTask(r));
      p in s'.heap && Elems(s'.createque) + {p} == s'.heap.Keys && p !in Elems(s'.createque) && s'.createque == s.createque
  {
  }

  lemma AddNothing<P>(s: D.State<P>, memory: bool)
    ensures B.AddAll(s, [], [], memory) == Some(s) && Elems<P>([]) == {} && Distinct<P>([])
  {
  }

  lemma AddedElems<P>(s: D.State<P>, p: P, memory: bool)
    requires p in s.heap && Elems(s.createque) + {p} == s.heap.Keys && p !in Elems(s.createque) && Distinct(s.createque)
    ensures D.AddTask(s, p, memory).Some? ==>
      Elems(D.AddTask(s, p, memory).value.createque) == s.heap.Keys && Distinct(D.AddTask(s, p, memory).value.createque)
      && D.AddTask(s, p, memory).value.heap == s.heap
  {
    hide InsertAt, D.CreateTimes, D.Names;
    var i := InsertIndex(D.CreateTimes(s.heap, s.createque), D.TaskOf(s.heap, p).rec.createTime, StrCmp);
    assert p !in s.createque;
    InsertElems(s.createque, p, i);
    InsertDistinct(s.createque, i, p);
  }

  // ----- all statuses

  /** What has been loaded after the first tasks of the creation queue. */
  ghost predicate LoadedSoFar<P>(h: map<P, D.Task>, h': map<P, D.Task>, saved: map<string, string>, done: set<P>) {
    h'.Keys == h.Keys && forall p | p in h :: h'[p] == if p in done then B.Load(h[p], saved) else h[p]
  }

  /** `readAllTaskStatusRecs`: the tasks of the creation queue, until one fails. */
  method ReadAllTaskStatus(data: GvmData) returns (ret: int)
    requires data.Valid() && Distinct(data.createque) && Elems(data.createque) == data.heap.Keys
    modifies data`heap, data.heap.Keys
    ensures data.Valid()
    ensures ret != 0 <==> B.LoadFails(old(data.heap), data.createque, data.saved)
    ensures ret == 0 ==> data.State() == old(data.State()).(heap := B.LoadAll(old(data.heap), data.saved))
    ensures ret == 0 ==> data.heap.Keys == old(data.heap).Keys
  {
    hide *;
    ghost var s := data.State();
    data.ValidIs();
    ret := 0;
    ghost var i := 0;
    NothingLoaded(s.heap, s.saved);
    assert s.createque[..0] == [];
    var next := data.FirstTask();
    while next.Some?
      invariant 0 <= i <= |s.createque| && ret == 0
      invariant next == if i < |s.createque| then Some(s.createque[i]) else None
      invariant data.Valid() && data.State() == s.(heap := data.heap) && data.heap.Keys == s.heap.Keys
      invariant LoadedSoFar(s.heap, data.heap, s.saved, Elems(s.createque[..i]))
      invariant forall k | 0 <= k < i :: StatusOk(s, k)
      decreases |s.createque| - i
    {
      var task := next.value;
      data.ValidIs();
      NextTask(s.createque, i);
      StatusIs(s, i);
      LoadedNext(s.heap, data.heap, s.saved, Elems(s.createque[..i]), task);
      GvmData.SetTaskIs(data.State(), task, B.Load(s.heap[task], s.saved));
      ret := ReadTaskStatus(data, task);
      if ret != 0 {
        return;
      }
      data.ValidIs();
      next := data.TaskBehind(task, i);
      i := i + 1;
    }
    assert s.createque[..i] == s.createque;
    AllStatusOk(s);
    AllLoaded(s.heap, data.heap, s.saved);
  }

  lemma NothingLoaded<P>(h: map<P, D.Task>, saved: map<string, string>)
    ensures LoadedSoFar(h, h, saved, Elems<P>([]))
  {
  }

  lemma NextTask<P>(q: seq<P>, i: nat)
    requires i < |q| && Distinct(q)
    ensures q[i] in Elems(q) && q[i] !in Elems(q[..i]) && Elems(q[..i + 1]) == Elems(q[..i]) + {q[i]}
  {
  }

  lemma LoadedNext<P>(h: map<P, D.Task>, h': map<P, D.Task>, saved: map<string, string>, done: set<P>, p: P)
    requires LoadedSoFar(h, h', saved, done) && p in h && p !in done
    ensures LoadedSoFar(h, h'[p := B.Load(h[p], saved)], saved, done + {p})
    ensures h'.Keys == h'[p := B.Load(h[p], saved)].Keys == h.Keys && h'[p] == h[p]
  {
    hide B.Load;
  }

  lemma AllLoaded<P>(h: map<P, D.Task>, h': map<P, D.Task>, saved: map<string, string>)
    requires LoadedSoFar(h, h', saved, h.Keys)
    ensures h' == B.LoadAll(h, saved)
  {
    hide B.Load;
  }

  ghost predicate StatusOk<P>(s: D.State<P>, k: nat)
    requires k < |s.createque|
  {
    var id := D.TaskOf(s.heap, s.createque[k]).rec.taskId;
    !B.StatusBad(s.saved, id)
  }

  lemma StatusIs<P>(s: D.State<P>, k: nat)
    requires k < |s.createque| && s.createque[k] in s.heap
    ensures StatusOk(s, k) <==> !B.StatusBad(s.saved, s.heap[s.createque[k]].rec.taskId)
    ensures !StatusOk(s, k) ==> B.LoadFails(s.heap, s.createque, s.saved)
  {
    hide B.StatusBad;
    assert s.createque[k] in s.createque;
  }

  lemma AllStatusOk<P>(s: D.State<P>)
    requires forall k | 0 <= k < |s.createque| :: StatusOk(s, k)
    ensures !B.LoadFails(s.heap, s.createque, s.saved)
  {
    hide B.StatusBad;
    forall p | p in s.createque ensures !B.StatusBad(s.saved, D.TaskOf(s.heap, p).rec.taskId) {
      var k :| 0 <= k < |s.createque| && s.createque[k] == p;
      assert StatusOk(s, k);
    }
  }

  // ----- all checks

  /** `addGvmChecks`: each task of the creation queue is queued for its first check. */
  method AddGvmChecks(data: GvmData, now: int)
    requires data.Valid() && Elems(data.createque) == data.heap.Keys
    modifies data`heap, data`runque, data.runFoot
    ensures data.Valid()
    ensures data.State() == B.ScheduleAll(old(data.State()), data.createque, now)
  {
    hide *;
    ghost var s := data.State();
    data.ValidIs();
    data.ApartIs(data.heap.Keys, data.mainFoot, data.runFoot);
    ghost var i := 0;
    assert s.createque[0..] == s.createque;
    var next := data.FirstTask();
    while next.Some?
      invariant 0 <= i <= |s.createque|
      invariant next == if i < |s.createque| then Some(s.createque[i]) else None
      invariant data.Valid() && data.heap.Keys == s.heap.Keys
      invariant data.runFoot == old(data.runFoot) && data.createque == s.createque
      invariant B.ScheduleAll(s, s.createque, now) == B.ScheduleAll(data.State(), s.createque[i..], now)
      invariant next.Some? ==> next.value in data.heap
      decreases |s.createque| - i
    {
      var task := next.value;
      data.ValidIs();
      ScheduleStep(data.State(), s.createque[i..], now);
      F.TaskOfIs(data.heap, task);
      GvmData.SetTaskIs(data.State(), task, data.heap[task].(chkTime := D.NextChkTime(now, 300)));
      data.SetTaskNextChkTime(task, now, 300);
      data.ValidIs();
      GvmData.AddRunIs(data.State(), task);
      data.AddRunTask(task);
      data.ValidIs();
      assert s.createque[i..][1..] == s.createque[i + 1..];
      next := data.TaskBehind(task, i);
      i := i + 1;
    }
    NoneToSchedule(data.State(), s.createque[i..], now);
  }

  lemma NoneToSchedule<P>(s: D.State<P>, q: seq<P>, now: int)
    requires |q| == 0
    ensures B.ScheduleAll(s, q, now) == s
  {
  }

  lemma ScheduleStep<P>(s: D.State<P>, q: seq<P>, now: int)
    requires |q| > 0
    ensures B.ScheduleAll(s, q, now) == B.ScheduleAll(D.AddRun(D.SetTask(s, q[0],
      D.TaskOf(s.heap, q[0]).(chkTime := D.NextChkTime(now, 300))), q[0]), q[1..], now)
  {
  }

  // ----- the start

  /** `initDaemon`: no daemon at all when a file is too large or cannot be read, and otherwise the one that the files
      describe. */
  method InitDaemon(file: string, saved: map<string, string>, memory: bool, now: int)
    returns (data: GvmData?, ghost ps: seq<GvmTask>)
    ensures Distinct(ps) && forall p | p in ps :: fresh(p)
    ensures data == null ==> forall more :: B.Boot(file, saved, ps + more, memory, now).None?
    ensures data != null ==> fresh(data) && data.Valid() && Some(data.State()) == B.Boot(file, saved, ps, memory, now)
  {
    hide *;
    ps, data := [], null;
    AddNothing(B.Empty<GvmTask>(file, saved), memory);
    if |file| > D.READ_LIMIT {
      BootFails(file, saved, ps, memory, now);
      return;
    }
    var ret, recs := ParseTaskRecords(file);
    if ret != 0 {
      BootFails(file, saved, ps, memory, now);
      return;
    }
    var d := new GvmData(file, saved);
    d.ValidIs();
    EmptyIs<GvmTask>(file, saved);
    ret, ps := AddRecords(d, recs, memory);
    if ret != 0 {
      forall more ensures B.Boot(file, saved, ps + more, memory, now).None? {
        B.BootIs<GvmTask>(file, saved, ps + more, memory, now, recs);
      }
      return;
    }
    d.ValidIs();
    d.PartsHold();
    AddAllSaved(B.Empty<GvmTask>(file, saved), ps, recs, memory);
    ret := ReadAllTaskStatus(d);
    if ret != 0 {
      forall more ensures B.Boot(file, saved, ps + more, memory, now).None? {
        AddAllExtra(B.Empty<GvmTask>(file, saved), ps, more, recs, memory);
        B.BootIs<GvmTask>(file, saved, ps + more, memory, now, recs);
      }
      return;
    }
    B.BootIs<GvmTask>(file, saved, ps, memory, now, recs);
    d.ValidIs();
    AddGvmChecks(d, now);
    data := d;
  }

  lemma EmptyIs<P>(file: string, saved: map<string, string>)
    ensures B.Empty<P>(file, saved) == D.State(map[], [], [], [], GROWTH_STEP, file, saved, false, true)
  {
  }

  lemma BootFails<P>(file: string, saved: map<string, string>, ps: seq<P>, memory: bool, now: int)
    requires |file| > D.READ_LIMIT || !ParseFile(file).Some?
    ensures forall more :: B.Boot(file, saved, ps + more, memory, now).None?
  {
  }
}
