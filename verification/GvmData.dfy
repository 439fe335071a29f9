/** The daemon's data as the program keeps it: task objects that are changed in place, two rings whose links lie inside
    the tasks, and the array of names. Every method is proved to be one step of the state machine of `DaemonState`. */
module GvmData {
  import opened Wrappers
  import opened Ordering
  import opened StrOrder
  import opened ListQueue
  import opened ListSet
  import opened OwnedLists
  import opened TaskRecord
  import opened Results
  import opened StatusFile
  import opened GvmTasks
  import D = DaemonState

  lemma OthersAreNoTask(m: set<GvmTask>, d: GvmData, a: Set<Key<string, GvmTask>>)
    ensures d !in Objects(m) && a !in Objects(m)
  {
  }

  lemma LinksAreNoTask(m: set<GvmTask>, d: GvmData, a: Set<Key<string, GvmTask>>, n: MainLink, r: RunLink)
    ensures n !in Objects(m) && r !in Objects(m)
    ensures (n as object) != r && (n as object) != d && (r as object) != d && (n as object) != a && (r as object) != a
  {
  }

  lemma ArrayIsNoTask(m: set<GvmTask>, a: array<Key<string, GvmTask>>)
    ensures a !in Objects(m)
  {
  }

  /** `GvmDataList`, with the files that belong to it. */
  class GvmData {
    /** The allocated tasks and what their fields and links hold. */
    ghost var heap: map<GvmTask, D.Task>
    ghost var owner: map<ResultInfo, GvmTask>
    /** What the rings and the array stand for, and the objects that the rings may touch. */
    ghost var createque: seq<GvmTask>
    ghost var runque: seq<GvmTask>
    ghost var nameset: seq<GvmTask>
    ghost var mainFoot: set<object>
    ghost var runFoot: set<object>
    const createRing: Queue<Key<string, GvmTask>>
    const runRing: Queue<Key<int, GvmTask>>
    const names: Set<Key<string, GvmTask>>
    var file: string
    var saved: map<string, string>
    var connOk: bool
    var lastPingOk: bool

    /** All that belongs to the data but the object itself. */
    ghost function Parts(): set<object>
      reads `heap, `mainFoot, `runFoot, names`data
    {
      mainFoot + runFoot + {names, names.data} + heap.Keys + set t | t in heap :: t.result
    }

    /** Tasks, the two rings, the array and the data itself do not overlap. */
    ghost predicate Apart(objects: set<object>, main: set<object>, run: set<object>)
      reads names`data
    {
      && main !! run && objects !! main && objects !! run
      && this !in main && this !in run && this !in objects
      && names !in main && names !in run && names !in objects
      && names.data !in main && names.data !in run && names.data !in objects
    }

    ghost predicate CreateQueued(h: map<GvmTask, D.Task>, q: seq<GvmTask>, foot: set<object>)
      reads foot
    {
      Queues(createRing, q, MainLinks(h.Keys), MainVals(h), StrCmp, foot)
    }

    ghost predicate RunQueued(h: map<GvmTask, D.Task>, q: seq<GvmTask>, foot: set<object>)
      reads foot
    {
      Queues(runRing, q, RunLinks(h.Keys), RunVals(h), D.CmpChkTime, foot)
    }

    ghost predicate NamesHeld(h: map<GvmTask, D.Task>, q: seq<GvmTask>)
      reads names, names.data
    {
      Holds(names, q, D.Names(h, q), StrCmp) && forall t | t in q :: t in h
    }

    /** Tasks and lists hold what the ghost fields say, and nothing overlaps. */
    ghost predicate Valid()
      reads `heap, `owner, `createque, `runque, `nameset, `mainFoot, `runFoot, names, Parts()
    {
      && Apart(Objects(heap.Keys), mainFoot, runFoot) && Owners(heap.Keys, owner)
      && CreateQueued(heap, createque, mainFoot) && RunQueued(heap, runque, runFoot) && NamesHeld(heap, nameset)
      && FieldsAll(heap)
    }

    /** The same, while the fields of one task are changed. */
    ghost predicate ValidBut(task: GvmTask)
      reads `heap, `owner, `createque, `runque, `nameset, `mainFoot, `runFoot, names
      reads mainFoot, runFoot, names.data, heap.Keys - {task}, (set t | t in heap :: t.result) - {task.result}
    {
      && Apart(Objects(heap.Keys), mainFoot, runFoot) && Owners(heap.Keys, owner)
      && CreateQueued(heap, createque, mainFoot) && RunQueued(heap, runque, runFoot) && NamesHeld(heap, nameset)
      && FieldsBut(heap, task)
    }

    ghost function State(): D.State<GvmTask>
      reads this, names`data
    {
      D.State(heap, createque, runque, nameset, names.data.Length, file, saved, connOk, lastPingOk)
    }

    // ----- the parts of the account, one by one

    lemma ValidIs()
      ensures Valid() <==>
        && Apart(Objects(heap.Keys), mainFoot, runFoot) && Owners(heap.Keys, owner)
        && CreateQueued(heap, createque, mainFoot) && RunQueued(heap, runque, runFoot) && NamesHeld(heap, nameset)
        && FieldsAll(heap)
      ensures State()
           == D.State(heap, createque, runque, nameset, names.data.Length, file, saved, connOk, lastPingOk)
    {
    }

    lemma ApartIs(m: set<GvmTask>, main: set<object>, run: set<object>)
      requires Apart(Objects(m), main, run)
      ensures main !! run && Objects(m) !! main && Objects(m) !! run
      ensures this !in main && this !in run
      ensures forall t | t in m :: this as object != t && this as object != t.result
      ensures names !in main && names !in run && names.data !in main && names.data !in run
      ensures forall t | t in m :: t !in main && t !in run && t.result !in main && t.result !in run
      ensures forall t | t in m :: names as object != t && names as object != t.result
      ensures forall t | t in m :: names.data as object != t && names.data as object != t.result
    {
    }

    lemma ThisApart(objects: set<object>, main: set<object>, run: set<object>)
      requires Apart(objects, main, run)
      ensures this !in main && this !in run && this !in objects
    {
    }

    lemma ApartGrown(m: set<GvmTask>, main: set<object>, run: set<object>)
      requires names.data !in main && names.data !in run
      requires main !! run && Objects(m) !! main && Objects(m) !! run
      requires this !in main && this !in run && names !in main && names !in run
      ensures Apart(Objects(m), main, run)
    {
      ArrayIsNoTask(m, names.data);
      OthersAreNoTask(m, this, names);
    }

    lemma CreateQueuedIs(h: map<GvmTask, D.Task>, q: seq<GvmTask>, foot: set<object>)
      ensures CreateQueued(h, q, foot) <==> Queues(createRing, q, MainLinks(h.Keys), MainVals(h), StrCmp, foot)
      ensures CreateQueued(h, q, foot) ==> forall t | t in q :: t in h
    {
      if CreateQueued(h, q, foot) {
        QueuedHaveVals(createRing, q, MainLinks(h.Keys), MainVals(h), StrCmp, foot);
      }
    }

    lemma RunQueuedIs(h: map<GvmTask, D.Task>, q: seq<GvmTask>, foot: set<object>)
      ensures RunQueued(h, q, foot) <==> Queues(runRing, q, RunLinks(h.Keys), RunVals(h), D.CmpChkTime, foot)
      ensures RunQueued(h, q, foot) ==> forall t | t in q :: t in h
    {
      if RunQueued(h, q, foot) {
        QueuedHaveVals(runRing, q, RunLinks(h.Keys), RunVals(h), D.CmpChkTime, foot);
      }
    }

    lemma NamesHeldIs(h: map<GvmTask, D.Task>, q: seq<GvmTask>)
      ensures NamesHeld(h, q) <==> Holds(names, q, D.Names(h, q), StrCmp) && forall t | t in q :: t in h
    {
    }

    lemma NamesHeldSame(h: map<GvmTask, D.Task>, h': map<GvmTask, D.Task>, q: seq<GvmTask>)
      requires NamesHeld(h, q)
      requires forall p | p in q && p in h :: p in h' && h[p].rec.taskName == h'[p].rec.taskName
      ensures NamesHeld(h', q)
    {
      hide Holds;
      NamesSame(h, h', q);
    }

    lemma LinksOf(t: GvmTask)
      requires t in heap
      ensures t in MainLinks(heap.Keys) && MainLinks(heap.Keys)[t] == t.mainlist
      ensures t in RunLinks(heap.Keys) && RunLinks(heap.Keys)[t] == t.runlist
    {
    }

    /** `createData`, beside files that are there already. */
    constructor (file: string, saved: map<string, string>)
      ensures Valid() && fresh(Parts()) && owner == map[]
      ensures State() == D.State(map[], [], [], [], GROWTH_STEP, file, saved, false, true)
    {
      hide *;
      var ring, foot := NewRing<string, GvmTask>(StrCmp);
      var ring', foot' := NewRing<int, GvmTask>(D.CmpChkTime);
      var arr := NewArray<string, GvmTask>(StrCmp);
      heap, owner, createque, runque, nameset := map[], map[], [], [], [];
      createRing, runRing, names, mainFoot, runFoot := ring, ring', arr, foot, foot';
      this.file, this.saved, connOk, lastPingOk := file, saved, false, true;
      new;
      NoObjects();
      ApartGrown({}, mainFoot, runFoot);
      CreateQueuedIs(heap, [], mainFoot);
      RunQueuedIs(heap, [], runFoot);
      NamesHeldIs(heap, []);
      PartsIs();
      ValidIs();
    }

    lemma PartsIs()
      ensures Parts() == mainFoot + runFoot + {names, names.data} + Objects(heap.Keys)
    {
    }

    /** The objects of the account are among its parts. */
    lemma PartsHold()
      requires Valid()
      ensures mainFoot <= Parts() && runFoot <= Parts() && names in Parts() && names.data in Parts()
      ensures forall t | t in heap :: t in Parts() && t.result in Parts()
      ensures this !in Parts()
    {
      hide Owners, CreateQueued, RunQueued, NamesHeld, FieldsAll;
      ApartIs(heap.Keys, mainFoot, runFoot);
    }

    /** The parts stay the same while the same tasks are allocated. */
    twostate lemma SameParts(h: map<GvmTask, D.Task>)
      requires h == old(heap) && h.Keys == heap.Keys && mainFoot == old(mainFoot) && runFoot == old(runFoot)
      requires names.data == old(names.data)
      ensures Parts() == old(Parts())
    {
    }

    /** What `isTaskChkTimeExpired` reads. */
    lemma CheckTimeIs(task: GvmTask)
      requires Valid() && task in heap
      ensures task.runlist.key == Key(heap[task].chkTime, task)
    {
      hide Apart, Owners, CreateQueued, NamesHeld, FieldsAll;
      RunQueuedIs(heap, runque, runFoot);
      QueuesParts(runRing, runque, RunLinks(heap.Keys), RunVals(heap), D.CmpChkTime, runFoot);
      assert task in RunLinks(heap.Keys);
    }

    // ----- the registry

    /** `push_back` on the creation queue. */
    method PushCreated(task: GvmTask)
      requires Valid() && task in heap && task !in createque
      modifies this`createque, mainFoot
      ensures Valid() && names.data == old(names.data)
      ensures State() == old(State()).(createque := D.QueueByCreate(heap, old(createque), task))
    {
      hide *;
      ValidIs();
      ApartIs(heap.Keys, mainFoot, runFoot);
      CreateQueuedIs(heap, createque, mainFoot);
      LinksOf(task);
      QueueByCreateIs(heap, createque, task);
      createque := Push(createRing, task.mainlist, task, createque, MainLinks(heap.Keys), MainVals(heap), StrCmp, mainFoot);
      CreateQueuedIs(heap, createque, mainFoot);
      ValidIs();
    }

    /** `addToSet`, with the array growing when it is full. */
    method AddToNameset(task: GvmTask, memory: bool) returns (ret: int)
      requires Valid() && task in heap
      modifies this`nameset, names, names.data
      ensures Valid() && (names.data == old(names.data) || fresh(names.data))
      ensures ret == if |old(nameset)| >= old(names.data.Length) && !memory then -1 else 0
      ensures State() == if ret == 0 then Named(old(State()), task) else old(State())
    {
      hide *;
      ValidIs();
      ApartIs(heap.Keys, mainFoot, runFoot);
      NamesHeldIs(heap, nameset);
      FieldsOf(heap, task);
      NamedIs(State(), task);
      ghost var vals := D.Names(heap, nameset);
      NamesInsert(heap, nameset, InsertIndex(vals, heap[task].rec.taskName, StrCmp), task);
      ghost var vals';
      ret, nameset, vals' := AddOwner(names, task.rec.taskName, task, memory, nameset, vals, StrCmp);
      ApartGrown(heap.Keys, mainFoot, runFoot);
      NamesHeldIs(heap, nameset);
      ValidIs();
    }

    static lemma NamedIs<P>(s: D.State<P>, p: P)
      requires p in s.heap
      ensures var i := InsertIndex(D.Names(s.heap, s.nameset), s.heap[p].rec.taskName, StrCmp);
        i <= |s.nameset| && Named(s, p) == s.(nameset := InsertAt(s.nameset, i, p),
          capacity := if |s.nameset| >= s.capacity then s.capacity + GROWTH_STEP else s.capacity)
    {
    }

    /** `addGvmTask`. */
    method AddTask(task: GvmTask, memory: bool) returns (ret: int)
      requires Valid() && task in heap && task !in createque
      modifies this`nameset, this`createque, names, names.data, mainFoot
      ensures Valid() && (names.data == old(names.data) || fresh(names.data))
      ensures match D.AddTask(old(State()), task, memory)
              case Some(s) => ret == 0 && State() == s
              case None => ret == -1 && State() == old(State())
    {
      hide *;
      ValidIs();
      AddTaskIs(State(), task, memory);
      ret := AddToNameset(task, memory);
      ValidIs();
      if ret == 0 {
        PushCreated(task);
        ValidIs();
      }
    }

    /** `delFromSet`. */
    method TakeName(name: string) returns (task: Option<GvmTask>)
      requires Valid()
      modifies this`nameset, names, names.data
      ensures Valid() && names.data == old(names.data)
      ensures var vals := D.Names(heap, old(nameset));
        if Found(vals, name, StrCmp) then
          var i := ScanIndex(vals, name, StrCmp);
          i < |old(nameset)| && task == Some(old(nameset)[i]) && task.value in heap
          && State() == old(State()).(nameset := RemoveAt(old(nameset), i))
        else task == None && State() == old(State())
    {
      hide *;
      ValidIs();
      ApartIs(heap.Keys, mainFoot, runFoot);
      NamesHeldIs(heap, nameset);
      ghost var vals := D.Names(heap, nameset);
      ghost var i := ScanIndex(vals, name, StrCmp);
      if i < |nameset| {
        NamesRemove(heap, nameset, i);
      }
      ghost var vals';
      task, nameset, vals' := DelOwner(names, name, nameset, vals, StrCmp);
      NamesHeldIs(heap, nameset);
      ValidIs();
    }

    /** `del_item` on the creation queue. */
    method DropCreated(task: GvmTask)
      requires Valid() && task in heap
      modifies this`createque, mainFoot
      ensures Valid() && names.data == old(names.data)
      ensures State() == old(State()).(createque := D.Without(old(createque), task))
    {
      hide *;
      ValidIs();
      ApartIs(heap.Keys, mainFoot, runFoot);
      CreateQueuedIs(heap, createque, mainFoot);
      LinksOf(task);
      WithoutIs(createque, task);
      createque := Remove(createRing, task.mainlist, task, createque, MainLinks(heap.Keys), MainVals(heap), StrCmp, mainFoot);
      CreateQueuedIs(heap, createque, mainFoot);
      ValidIs();
    }

    /** `delGvmTask`: the task of that name leaves the array, and then its ring. */
    method DelTask(name: string) returns (ret: int)
      requires Valid()
      modifies this`nameset, this`createque, names, names.data, mainFoot
      ensures Valid() && names.data == old(names.data)
      ensures match D.DelTask(old(State()), name)
              case Some(s) => ret == 0 && State() == s
              case None => ret == -1 && State() == old(State())
    {
      hide *;
      ValidIs();
      DelTaskIs(State(), name);
      var task := TakeName(name);
      ValidIs();
      if task.None? {
        return -1;
      }
      DropCreated(task.value);
      ret := 0;
    }

    /** `findGvmTask`. */
    method FindTask(name: string) returns (r: Option<GvmTask>)
      requires Valid()
      ensures Valid()
      ensures r == D.FindTask(State(), name)
      ensures r.Some? ==> r.value in heap
    {
      hide *;
      ValidIs();
      NamesHeldIs(heap, nameset);
      FindTaskIs(State(), name);
      r := FindOwner(names, name, nameset, D.Names(heap, nameset), StrCmp);
      assert r.Some? ==> r.value in nameset;
      ValidIs();
    }

    static lemma FindTaskIs<P>(s: D.State<P>, name: string)
      ensures |D.Names(s.heap, s.nameset)| == |s.nameset|
      ensures match BinarySearch(D.Names(s.heap, s.nameset), 0, |D.Names(s.heap, s.nameset)|, name, StrCmp)
              case Some(i) => i < |s.nameset| && D.FindTask(s, name) == Some(s.nameset[i])
              case None => D.FindTask(s, name) == None
    {
      hide BinarySearch;
    }

    // ----- the run queue

    /** `addGvmRunTask`: a task whose link is empty is queued. */
    method AddRunTask(task: GvmTask)
      requires Valid() && task in heap
      modifies this`runque, runFoot
      ensures Valid() && names.data == old(names.data)
      ensures State() == D.AddRun(old(State()), task)
    {
      hide *;
      ValidIs();
      ApartIs(heap.Keys, mainFoot, runFoot);
      RunQueuedIs(heap, runque, runFoot);
      LinksOf(task);
      AddRunIs(State(), task);
      QueueByCheckIs(heap, runque, task);
      QueuedIff(runRing, runque, RunLinks(heap.Keys), RunVals(heap), D.CmpChkTime, runFoot, task);
      if task.runlist.next == task.runlist {
        runque := Push(runRing, task.runlist, task, runque, RunLinks(heap.Keys), RunVals(heap), D.CmpChkTime, runFoot);
        RunQueuedIs(heap, runque, runFoot);
        ValidIs();
      }
    }

    static lemma AddRunIs<P>(s: D.State<P>, p: P)
      ensures D.AddRun(s, p) == if p in s.runque then s else s.(runque := D.QueueByCheck(s.heap, s.runque, p))
    {
    }

    /** `delGvmRunTask`: a task whose link is not empty leaves the ring. */
    method DelRunTask(task: GvmTask)
      requires Valid() && task in heap
      modifies this`runque, runFoot
      ensures Valid() && names.data == old(names.data)
      ensures State() == D.DelRun(old(State()), task)
    {
      hide *;
      ValidIs();
      ApartIs(heap.Keys, mainFoot, runFoot);
      RunQueuedIs(heap, runque, runFoot);
      LinksOf(task);
      DelRunIs(State(), task);
      WithoutIs(runque, task);
      QueuedIff(runRing, runque, RunLinks(heap.Keys), RunVals(heap), D.CmpChkTime, runFoot, task);
      if task.runlist.next != task.runlist {
        runque := Remove(runRing, task.runlist, task, runque, RunLinks(heap.Keys), RunVals(heap), D.CmpChkTime, runFoot);
        RunQueuedIs(heap, runque, runFoot);
        ValidIs();
      }
    }

    static lemma DelRunIs<P>(s: D.State<P>, p: P)
      ensures D.DelRun(s, p) == s.(runque := D.Without(s.runque, p))
    {
    }

    /** `queGvmRunTask`: `reque_list` leaves a task that is not queued alone. */
    method QueRunTask(task: GvmTask)
      requires Valid() && task in heap
      modifies this`runque, runFoot
      ensures Valid() && names.data == old(names.data)
      ensures State() == D.Requeue(old(State()), task)
    {
      hide *;
      ValidIs();
      ApartIs(heap.Keys, mainFoot, runFoot);
      RunQueuedIs(heap, runque, runFoot);
      LinksOf(task);
      RequeueIs(State(), task);
      runque := Requeue(runRing, task.runlist, task, runque, RunLinks(heap.Keys), RunVals(heap), D.CmpChkTime, runFoot);
      RunQueuedIs(heap, runque, runFoot);
      ValidIs();
    }

    /** `setTaskNextChkTime`: the time changes in place, where the comparator will read it. */
    method SetTaskNextChkTime(task: GvmTask, clock: int, interval: int)
      requires Valid() && task in heap
      modifies this`heap, runFoot
      ensures Valid() && names.data == old(names.data)
      ensures State() == D.SetTask(old(State()), task, old(heap)[task].(chkTime := D.NextChkTime(clock, interval)))
    {
      hide *;
      ValidIs();
      ApartIs(heap.Keys, mainFoot, runFoot);
      RunQueuedIs(heap, runque, runFoot);
      CreateQueuedIs(heap, createque, mainFoot);
      LinksOf(task);
      ghost var h, t := heap, heap[task].(chkTime := D.NextChkTime(clock, interval));
      RetimedMaps(h, task, t);
      NextChkTimeIs(clock, interval);
      SetTaskIs(State(), task, t);
      SetVal(runRing, task.runlist, if 0 < interval then clock + interval else 0, task, runque, RunLinks(h.Keys),
             RunVals(h), D.CmpChkTime, runFoot);
      heap := heap[task := t];
      NamesHeldSame(h, heap, nameset);
      FieldsRetimed(h, task, t);
      RunQueuedIs(heap, runque, runFoot);
      CreateQueuedIs(heap, createque, mainFoot);
      ValidIs();
    }

    static lemma SetTaskIs<P>(s: D.State<P>, p: P, t: D.Task)
      ensures D.SetTask(s, p, t) == s.(heap := s.heap[p := t])
    {
    }

    static lemma NextChkTimeIs(clock: int, interval: int)
      ensures D.NextChkTime(clock, interval) == if 0 < interval then clock + interval else 0
    {
    }

    /** `setTaskNextChkTime` followed by `reque_run_task`. */
    method Reschedule(task: GvmTask, clock: int, interval: int)
      requires Valid() && task in heap
      modifies this`runque, this`heap, runFoot
      ensures Valid() && names.data == old(names.data)
      ensures State() == D.Reschedule(old(State()), task, clock, interval)
    {
      hide *;
      ValidIs();
      ApartIs(heap.Keys, mainFoot, runFoot);
      RescheduleIs(State(), task, clock, interval);
      SetTaskIs(State(), task, heap[task].(chkTime := D.NextChkTime(clock, interval)));
      SetTaskNextChkTime(task, clock, interval);
      ValidIs();
      QueRunTask(task);
    }

    static lemma RescheduleIs<P>(s: D.State<P>, p: P, clock: int, interval: int)
      requires p in s.heap
      ensures D.Reschedule(s, p, clock, interval)
           == D.Requeue(D.SetTask(s, p, s.heap[p].(chkTime := D.NextChkTime(clock, interval))), p)
    {
      hide D.Requeue, D.SetTask, D.NextChkTime;
    }

    // ----- changing a task in place

    /** From here on the fields of `task` may be changed, until `Sync`. */
    lemma Loosen(task: GvmTask)
      requires Valid() && task in heap
      ensures ValidBut(task) && task.Fields() == heap[task].(chkTime := 0)
    {
      hide Apart, Owners, CreateQueued, RunQueued, NamesHeld, FieldsAll, FieldsBut;
      FieldsLoose(heap, owner, task);
      FieldsOf(heap, task);
    }

    /** The account of a task catches up with its fields. */
    ghost method Sync(task: GvmTask)
      requires task in heap && ValidBut(task)
      requires task.rec.taskName == heap[task].rec.taskName && task.rec.createTime == heap[task].rec.createTime
      modifies this`heap
      ensures Valid() && heap == old(heap)[task := task.Fields().(chkTime := old(heap)[task].chkTime)]
      ensures State() == D.SetTask(old(State()), task, task.Fields().(chkTime := old(heap)[task].chkTime))
    {
      hide *;
      ValidButIs(task);
      ApartIs(heap.Keys, mainFoot, runFoot);
      RunQueuedIs(heap, runque, runFoot);
      CreateQueuedIs(heap, createque, mainFoot);
      ghost var h, t := heap, task.Fields().(chkTime := heap[task].chkTime);
      FieldsAre(task);
      RetimedMaps(h, task, t);
      SetTaskIs(State(), task, t);
      heap := heap[task := t];
      NamesHeldSame(h, heap, nameset);
      FieldsSynced(h, task, t);
      RunQueuedIs(heap, runque, runFoot);
      CreateQueuedIs(heap, createque, mainFoot);
      ValidIs();
    }

    lemma ValidButIs(task: GvmTask)
      requires ValidBut(task)
      ensures Apart(Objects(heap.Keys), mainFoot, runFoot) && Owners(heap.Keys, owner)
      ensures CreateQueued(heap, createque, mainFoot) && RunQueued(heap, runque, runFoot) && NamesHeld(heap, nameset)
      ensures FieldsBut(heap, task)
      ensures State()
           == D.State(heap, createque, runque, nameset, names.data.Length, file, saved, connOk, lastPingOk)
    {
    }

    // ----- walking the creation queue, as `for_each` does

    /** The first task. */
    method FirstTask() returns (task: Option<GvmTask>)
      requires Valid()
      ensures Valid()
      ensures task == if |createque| > 0 then Some(createque[0]) else None
      ensures task.Some? ==> task.value in heap
    {
      hide *;
      ValidIs();
      CreateQueuedIs(heap, createque, mainFoot);
      task := Head(createRing, createque, MainLinks(heap.Keys), MainVals(heap), StrCmp, mainFoot);
      ValidIs();
    }

    /** The task behind another one. */
    method TaskBehind(task: GvmTask, ghost i: nat) returns (next: Option<GvmTask>)
      requires Valid() && i < |createque| && createque[i] == task
      ensures Valid()
      ensures next == if i + 1 < |createque| then Some(createque[i + 1]) else None
      ensures next.Some? ==> next.value in heap
    {
      hide *;
      ValidIs();
      CreateQueuedIs(heap, createque, mainFoot);
      LinksOf(task);
      next := Behind(createRing, task.mainlist, createque, MainLinks(heap.Keys), MainVals(heap), StrCmp, mainFoot, i);
      ValidIs();
    }

    /** The head of the run queue. */
    method NextToCheck() returns (task: Option<GvmTask>)
      requires Valid()
      ensures Valid()
      ensures task == if |runque| > 0 then Some(runque[0]) else None
      ensures task.Some? ==> task.value in heap
    {
      hide *;
      ValidIs();
      RunQueuedIs(heap, runque, runFoot);
      task := Head(runRing, runque, RunLinks(heap.Keys), RunVals(heap), D.CmpChkTime, runFoot);
      ValidIs();
    }

    // ----- files

    /** The records that `for_each` visits on the creation queue. */
    method CollectRecords() returns (rs: seq<Record>)
      requires Valid()
      ensures Valid()
      ensures rs == D.Records(heap, createque)
    {
      hide *;
      ValidIs();
      rs := [];
      ghost var i := 0;
      var next := FirstTask();
      while next.Some?
        invariant Valid()
        invariant 0 <= i <= |createque|
        invariant next == if i < |createque| then Some(createque[i]) else None
        invariant rs == D.Records(heap, createque)[..i]
        invariant next.Some? ==> next.value in heap
        decreases |createque| - i
      {
        var task := next.value;
        ValidIs();
        FieldsOf(heap, task);
        RecordAt(heap, createque, i);
        rs := rs + [task.rec];
        next := TaskBehind(task, i);
        i := i + 1;
      }
    }

    static lemma RecordAt<P>(heap: map<P, D.Task>, q: seq<P>, i: nat)
      requires i < |q| && q[i] in heap
      ensures |D.Records(heap, q)| == |q| && D.Records(heap, q)[i] == heap[q[i]].rec
    {
    }

    /** `writeTaskFile`. */
    method WriteTaskFile(buffer: Buffer, io: bool) returns (ret: int)
      requires Valid() && buffer.capacity == D.WRITE_LIMIT && buffer !in Parts()
      modifies this`file, buffer
      ensures Valid()
      ensures match D.WriteTaskFile(old(State()), io)
              case Some(s) => ret == 0 && State() == s
              case None => ret == -1 && State() == old(State())
    {
      hide *;
      ValidIs();
      PartsIs();
      WriteTaskFileIs(State(), io);
      var rs := CollectRecords();
      ValidIs();
      ApartIs(heap.Keys, mainFoot, runFoot);
      ObjectsAre(heap.Keys);
      ret := buffer.WriteTaskRecords(rs);
      if ret == 0 {
        if io {
          file := buffer.text;
        } else {
          ret := -1;
        }
      }
      ValidIs();
    }

    static lemma ObjectsAre(m: set<GvmTask>)
      ensures forall t | t in m :: t in Objects(m) && t.result in Objects(m)
    {
    }

    static lemma WriteTaskFileIs<P>(s: D.State<P>, io: bool)
      ensures D.WriteTaskFile(s, io) ==
        match FileText(D.Records(s.heap, s.createque), D.WRITE_LIMIT)
        case Some(text) => if io then Some(s.(file := text)) else None
        case None => None
    {
      hide FileText, D.Records;
    }

    /** `writeTaskStatusFile`. */
    method WriteTaskStatusFile(task: GvmTask, e: D.Env)
      requires Valid() && task in heap
      modifies this`saved
      ensures Valid()
      ensures State() == D.WriteStatus(old(State()), task, e)
    {
      hide *;
      ValidIs();
      ApartIs(heap.Keys, mainFoot, runFoot);
      FieldsOf(heap, task);
      FieldsAre(task);
      StatusIs(State(), task, e);
      if e.paths && e.statusIo {
        saved := saved[task.rec.taskId := EncodeStatus(task.rec.taskId,
          Saved(task.startTime, task.stopTime, task.status, task.chkType, task.progress, task.curReport,
                task.lastReport))];
      }
      ValidIs();
    }

    static lemma StatusIs<P>(s: D.State<P>, p: P, e: D.Env)
      requires p in s.heap
      ensures var t := s.heap[p];
        D.WriteStatus(s, p, e) ==
          if e.paths && e.statusIo then
            s.(saved := s.saved[t.rec.taskId := EncodeStatus(t.rec.taskId,
              Saved(t.startTime, t.stopTime, t.status, t.chkType, t.progress, t.curReport, t.lastReport))])
          else s
    {
      hide EncodeStatus;
    }

    /** `deleteDir` on the directory of a task. */
    method DeleteDir(task: GvmTask)
      requires Valid() && task in heap
      modifies this`saved
      ensures Valid()
      ensures State() == D.DropDir(old(State()), task)
    {
      hide *;
      ValidIs();
      ApartIs(heap.Keys, mainFoot, runFoot);
      FieldsOf(heap, task);
      DropDirIs(State(), task);
      saved := saved - {task.rec.taskId};
      ValidIs();
    }

    static lemma DropDirIs<P>(s: D.State<P>, p: P)
      requires p in s.heap
      ensures D.DropDir(s, p) == s.(saved := s.saved - {s.heap[p].rec.taskId})
    {
    }

    static lemma CreateFilesIs<P>(s: D.State<P>, p: P, e: D.Env)
      requires p in s.heap
      ensures D.CreateFiles(s, p, e) ==
        if !e.paths || !e.dir then (false, s)
        else match D.AddTask(s, p, e.memory)
          case None => (false, D.DropDir(s, p))
          case Some(added) =>
            match D.WriteTaskFile(added, e.taskFileIo)
            case Some(written) => (true, D.AddRun(written, p))
            case None => (false, D.DropDir(D.DelTask(added, s.heap[p].rec.taskName).GetOr(added), p))
    {
      hide D.AddTask, D.DropDir, D.WriteTaskFile, D.AddRun, D.DelTask;
      if D.AddTask(s, p, e.memory).Some? {
        AddedHeap(s, p, e.memory);
      }
    }

    static lemma AddedHeap<P>(s: D.State<P>, p: P, memory: bool)
      ensures D.AddTask(s, p, memory).Some? ==> D.AddTask(s, p, memory).value.heap == s.heap
    {
      hide D.QueueByCreate, InsertAt, InsertIndex, D.Names;
    }

    static lemma DeleteFilesIs<P>(s: D.State<P>, p: P, e: D.Env)
      requires p in s.heap
      ensures D.DeleteFiles(s, p, e) ==
        if !e.paths then (false, s)
        else match D.DelTask(s, s.heap[p].rec.taskName)
          case None => (false, s)
          case Some(removed) =>
            match D.WriteTaskFile(removed, e.taskFileIo)
            case Some(written) => (true, D.DropDir(D.DelRun(written, p), p))
            case None => (false, D.AddTask(removed, p, e.memory).GetOr(removed))
    {
      hide D.AddTask, D.DropDir, D.WriteTaskFile, D.DelRun, D.DelTask;
    }

    static lemma GetOrIs<T>(o: Option<T>, d: T)
      ensures o.GetOr(d) == if o.Some? then o.value else d
    {
    }

    /** The roll back of a creation. */
    method UndoCreate(task: GvmTask)
      requires Valid() && task in heap
      modifies this`nameset, this`createque, this`saved, names, names.data, mainFoot
      ensures Valid() && names.data == old(names.data)
      ensures var s := old(State());
        State() == D.DropDir(D.DelTask(s, s.heap[task].rec.taskName).GetOr(s), task)
    {
      hide *;
      ValidIs();
      ApartIs(heap.Keys, mainFoot, runFoot);
      FieldsOf(heap, task);
      GetOrIs(D.DelTask(State(), task.rec.taskName), State());
      var _ := DelTask(task.rec.taskName);
      DeleteDir(task);
    }

    /** A registered task is written down and queued, or taken out again. */
    method WriteOrUndo(task: GvmTask, buffer: Buffer, io: bool) returns (ret: int)
      requires Valid() && task in heap && buffer.capacity == D.WRITE_LIMIT && buffer !in Parts()
      modifies this`nameset, this`createque, this`runque, this`file, this`saved
      modifies names, names.data, mainFoot, runFoot, buffer
      ensures Valid() && names.data == old(names.data)
      ensures var s := old(State());
        match D.WriteTaskFile(s, io)
        case Some(written) => ret == 0 && State() == D.AddRun(written, task)
        case None => ret != 0 && State() == D.DropDir(D.DelTask(s, s.heap[task].rec.taskName).GetOr(s), task)
    {
      hide *;
      ValidIs();
      ApartIs(heap.Keys, mainFoot, runFoot);
      ret := WriteTaskFile(buffer, io);
      if ret == 0 {
        AddRunTask(task);
      } else {
        UndoCreate(task);
      }
    }

    /** `createTaskRelationFiles`. */
    method CreateTaskRelationFiles(task: GvmTask, buffer: Buffer, e: D.Env) returns (ret: int)
      requires Valid() && task in heap && task !in createque
      requires buffer.capacity == D.WRITE_LIMIT && buffer !in Parts()
      modifies this`nameset, this`createque, this`runque, this`file, this`saved
      modifies names, names.data, mainFoot, runFoot, buffer
      ensures Valid() && (names.data == old(names.data) || fresh(names.data))
      ensures (ret == 0, State()) == D.CreateFiles(old(State()), task, e)
    {
      hide *;
      ValidIs();
      PartsIs();
      ApartIs(heap.Keys, mainFoot, runFoot);
      CreateFilesIs(State(), task, e);
      if !e.paths || !e.dir {
        return -1;
      }
      ret := AddTask(task, e.memory);
      if ret == 0 {
        PartsIs();
        ValidIs();
        ret := WriteOrUndo(task, buffer, e.taskFileIo);
      } else {
        DeleteDir(task);
      }
    }

    /** `delTaskRelationFiles`, for a task that its name leads to. */
    method DelTaskRelationFiles(task: GvmTask, buffer: Buffer, e: D.Env) returns (ret: int)
      requires Valid() && task in heap && buffer.capacity == D.WRITE_LIMIT && buffer !in Parts()
      requires var s := D.DelTask(State(), heap[task].rec.taskName); s.Some? ==> task !in s.value.createque
      modifies this`nameset, this`createque, this`runque, this`file, this`saved
      modifies names, names.data, mainFoot, runFoot, buffer
      ensures Valid() && (names.data == old(names.data) || fresh(names.data))
      ensures (ret == 0, State()) == D.DeleteFiles(old(State()), task, e)
    {
      hide *;
      ValidIs();
      PartsIs();
      ApartIs(heap.Keys, mainFoot, runFoot);
      FieldsOf(heap, task);
      DeleteFilesIs(State(), task, e);
      if !e.paths {
        return -1;
      }
      ret := DelTask(task.rec.taskName);
      if ret == 0 {
        ValidIs();
        PartsIs();
        ret := WriteTaskFile(buffer, e.taskFileIo);
        if ret == 0 {
          DelRunTask(task);
          DeleteDir(task);
        } else {
          GetOrIs(D.AddTask(State(), task, e.memory), State());
          var _ := AddTask(task, e.memory);
        }
      }
    }

    // ----- allocation

    /** `newGvmTask`. */
    method NewGvmTask() returns (task: GvmTask)
      requires Valid()
      ensures Valid() && fresh(task) && fresh(task.result) && fresh(task.mainlist) && fresh(task.runlist)
      ensures task.Fields() == D.NewTask(D.NO_RECORD)
      ensures task.mainlist.Detached() && task.mainlist.key == Key("", task)
      ensures task.runlist.Detached() && task.runlist.key == Key(0, task)
      ensures task !in Parts() && task.result !in Parts() && task.mainlist !in Parts() && task.runlist !in Parts()
      ensures task !in heap && task.result !in owner && task !in createque && task !in runque && task !in nameset
    {
      hide Apart, Owners, CreateQueued, RunQueued, NamesHeld, FieldsAll, Objects, GvmTask.Fields;
      QueuedKnown();
      task := new GvmTask();
    }

    lemma QueuedKnown()
      requires Valid()
      ensures forall t | t in createque || t in runque || t in nameset :: t in heap
    {
      hide Queues, Holds, Apart, Owners, FieldsAll;
      CreateQueuedIs(heap, createque, mainFoot);
      RunQueuedIs(heap, runque, runFoot);
      NamesHeldIs(heap, nameset);
    }

    /** A new task object comes under the care of the registry. */
    ghost method Adopt(task: GvmTask)
      requires Valid() && task !in heap && task.result !in owner
      requires task !in Parts() && task.result !in Parts() && task.mainlist !in Parts() && task.runlist !in Parts()
      requires task.mainlist.Detached() && task.mainlist.key == Key(task.rec.createTime, task)
      requires task.runlist.Detached() && task.runlist.key.Key? && task.runlist.key.owner == task
      modifies this`heap, this`owner, this`mainFoot, this`runFoot
      ensures Valid()
      ensures State() == D.SetTask(old(State()), task, task.Fields().(chkTime := task.runlist.key.val))
      ensures heap.Keys == old(heap).Keys + {task}
      ensures mainFoot == old(mainFoot) + {task.mainlist} && runFoot == old(runFoot) + {task.runlist}
      ensures names.data == old(names.data)
    {
      hide *;
      ghost var t := task.Fields().(chkTime := task.runlist.key.val);
      ValidIs();
      SetTaskIs(State(), task, t);
      Adopted(task, t);
      ThisApart(Objects(heap[task := t].Keys), mainFoot + {task.mainlist}, runFoot + {task.runlist});
      heap, owner := heap[task := t], owner[task.result := task];
      mainFoot, runFoot := mainFoot + {task.mainlist}, runFoot + {task.runlist};
      ValidIs();
    }

    /** The parts are those from before, and the objects of the new task. */
    twostate lemma AdoptedParts(new task: GvmTask)
      requires heap.Keys == old(heap).Keys + {task} && names.data == old(names.data)
      requires mainFoot == old(mainFoot) + {task.mainlist} && runFoot == old(runFoot) + {task.runlist}
      ensures Parts() == old(Parts()) + {task, task.result, task.mainlist, task.runlist} && task in heap
    {
      ObjectsMore(old(heap).Keys, task);
    }

    /** The account with one more task in it. */
    lemma Adopted(task: GvmTask, t: D.Task)
      requires Valid() && task !in heap && task.result !in owner
      requires task !in Parts() && task.result !in Parts() && task.mainlist !in Parts() && task.runlist !in Parts()
      requires task.mainlist.Detached() && task.mainlist.key == Key(task.rec.createTime, task)
      requires task.runlist.Detached() && task.runlist.key == Key(t.chkTime, task)
      requires t == task.Fields().(chkTime := t.chkTime)
      ensures var h, main, run := heap[task := t], mainFoot + {task.mainlist}, runFoot + {task.runlist};
        && Apart(Objects(h.Keys), main, run) && Owners(h.Keys, owner[task.result := task])
        && CreateQueued(h, createque, main) && RunQueued(h, runque, run) && NamesHeld(h, nameset) && FieldsAll(h)
        && h.Keys == heap.Keys + {task}
    {
      hide *;
      ValidIs();
      PartsIs();
      ObjectsMore(heap.Keys, task);
      FieldsAre(task);
      KeysMore(heap, task, t);
      CreateQueuedMore(task, t);
      RunQueuedMore(task, t);
      NamesHeldSame(heap, heap[task := t], nameset);
      OwnersMore(heap.Keys, owner, task);
      SyncedFields(task, t);
      FieldsMore(heap, task, t);
      ApartMore(task);
    }

    static lemma SyncedFields(task: GvmTask, t: D.Task)
      requires t == task.Fields().(chkTime := t.chkTime)
      ensures task.Fields() == t.(chkTime := 0) && t.rec == task.rec
    {
    }

    static lemma KeysMore<P>(h: map<P, D.Task>, p: P, t: D.Task)
      ensures h[p := t].Keys == h.Keys + {p}
    {
    }

    lemma CreateQueuedMore(task: GvmTask, t: D.Task)
      requires CreateQueued(heap, createque, mainFoot) && task !in heap
      requires task.mainlist.Detached() && task.mainlist.key == Key(t.rec.createTime, task)
      ensures CreateQueued(heap[task := t], createque, mainFoot + {task.mainlist})
    {
      hide Queues;
      LinksMore(heap.Keys, task);
      ValsMore(heap, task, t);
      QueuesWith(createRing, createque, MainLinks(heap.Keys), MainVals(heap), StrCmp, mainFoot, task, task.mainlist);
    }

    lemma RunQueuedMore(task: GvmTask, t: D.Task)
      requires RunQueued(heap, runque, runFoot) && task !in heap
      requires task.runlist.Detached() && task.runlist.key == Key(t.chkTime, task)
      ensures RunQueued(heap[task := t], runque, runFoot + {task.runlist})
    {
      hide Queues;
      LinksMore(heap.Keys, task);
      ValsMore(heap, task, t);
      QueuesWith(runRing, runque, RunLinks(heap.Keys), RunVals(heap), D.CmpChkTime, runFoot, task, task.runlist);
    }

    /** Nothing overlaps when the objects of a new task join the others. */
    lemma ApartMore(task: GvmTask)
      requires Apart(Objects(heap.Keys), mainFoot, runFoot)
      requires task !in Parts() && task.result !in Parts() && task.mainlist !in Parts() && task.runlist !in Parts()
      ensures Apart(Objects(heap.Keys + {task}), mainFoot + {task.mainlist}, runFoot + {task.runlist})
    {
      ObjectsMore(heap.Keys, task);
      ArrayIsNoTask(heap.Keys + {task}, names.data);
      OthersAreNoTask(heap.Keys + {task}, this, names);
      LinksAreNoTask(heap.Keys + {task}, this, names, task.mainlist, task.runlist);
      PartsIs();
      hide Objects, Parts;
    }

    /** `free_task`: only a task that is in no queue may go. */
    method FreeTask(task: GvmTask)
      requires Valid() && task !in createque && task !in runque && task !in nameset
      modifies this`heap
      ensures Valid()
      ensures State() == D.Free(old(State()), task)
    {
      hide *;
      ghost var h := heap;
      ValidIs();
      FreeIs(State(), task);
      KeysLess(h, task);
      CreateQueuedLess(task);
      RunQueuedLess(task);
      NamesHeldLess(task);
      OwnersLess(h.Keys, owner, task);
      FieldsLess(h, task);
      ApartIs(h.Keys, mainFoot, runFoot);
      ApartGrown(h.Keys - {task}, mainFoot, runFoot);
      heap := heap - {task};
      ValidIs();
    }

    static lemma KeysLess<P>(h: map<P, D.Task>, p: P)
      ensures (h - {p}).Keys == h.Keys - {p}
    {
    }

    lemma CreateQueuedLess(task: GvmTask)
      requires CreateQueued(heap, createque, mainFoot) && task !in createque
      ensures CreateQueued(heap - {task}, createque, mainFoot)
    {
      hide Queues;
      LinksLess(heap.Keys, task);
      ValsLess(heap, task);
      QueuesWithout(createRing, createque, MainLinks(heap.Keys), MainVals(heap), StrCmp, mainFoot, task);
    }

    lemma RunQueuedLess(task: GvmTask)
      requires RunQueued(heap, runque, runFoot) && task !in runque
      ensures RunQueued(heap - {task}, runque, runFoot)
    {
      hide Queues;
      LinksLess(heap.Keys, task);
      ValsLess(heap, task);
      QueuesWithout(runRing, runque, RunLinks(heap.Keys), RunVals(heap), D.CmpChkTime, runFoot, task);
    }

    lemma NamesHeldLess(task: GvmTask)
      requires NamesHeld(heap, nameset) && task !in nameset
      ensures NamesHeld(heap - {task}, nameset)
    {
      hide Holds;
      NamesSame(heap, heap - {task}, nameset);
    }

    static lemma FreeIs<P>(s: D.State<P>, p: P)
      ensures D.Free(s, p) == s.(heap := s.heap - {p})
    {
    }
  }
}
