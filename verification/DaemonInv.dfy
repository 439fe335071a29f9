/** Safety of the daemon over whole runs: what every command, every background check and every restart keeps,
    however the scan server, the clock and the file system behave. */
module DaemonInv {
  import opened Ordering
  import opened StrOrder
  import opened TaskRecord
  import opened Results
  import opened StatusFile
  import opened DaemonState
  import opened Registry

  /** Check times are seconds of the monotonic clock; below this bound the 32-bit comparator orders them. */
  const CLOCK_LIMIT := 0x8000_0000

  /** The surroundings of a run: the results that the scan server holds for a report, whether the clock may get beyond
      the range of the comparator, and whether the server may name report ids of any form and times that are not time
      stamps. */
  datatype World = World(results: string -> seq<Nvt>, late: bool, wild: bool)

  predicate InTime(time: int, w: World) {
    0 <= time && (w.late || time < CLOCK_LIMIT)
  }

  // ----- the invariant

  /** Which status and which report id go with which phase. A report id is what the server sent; only a report that
      was found under its id can run or be done. */
  ghost predicate PhaseOk(status: Status, chkType: ChkType, progress: int, cur: string) {
    && (chkType == ChkReport ==> cur != "" && status in {Ready, Waiting, Running})
    && (chkType == ChkResult ==> IsUuid(cur) && status in {Finished, Stopped, Interrupted})
    && (status in {Waiting, Running} ==> chkType == ChkReport && IsUuid(cur))
    && status != Failed && 0 <= progress <= 100
  }

  predicate WellFormed(t: Task) {
    && IsUuidOrEmpty(t.curReport) && IsUuidOrEmpty(t.lastReport)
    && IsTimestampOrEmpty(t.startTime) && IsTimestampOrEmpty(t.stopTime)
  }

  ghost predicate TaskOk(t: Task, w: World) {
    && Valid(t.rec)
    && PhaseOk(t.status, t.chkType, t.progress, t.curReport)
    && IsTimeText(t.startTime) && IsTimeText(t.stopTime) && (w.wild || WellFormed(t))
    && InTime(t.chkTime, w)
    && (if t.chkType == ChkResult then Paged(t.result, w.results(t.curReport)) else t.result == RESET)
  }

  ghost predicate TasksOk<P>(heap: map<P, Task>, w: World) {
    forall p | p in heap :: TaskOk(heap[p], w)
  }

  /** A status that is read from a file is one that a task can be in. Deletion is not. Only a server that names ids or
      times of any form can bring about a file that is refused. */
  ghost predicate StatusFileOk(text: string, id: string, w: World) {
    match ParseStatus(text, id)
    case Some(Some(v)) => PhaseOk(v.status, v.chkType, v.progress, v.curReport) && v.chkType != ChkDeleted && Readable(v)
    case Some(None) => true
    case None => w.wild
  }

  ghost predicate AllSavedOk(saved: map<string, string>, w: World) {
    forall id | id in saved :: StatusFileOk(saved[id], id, w)
  }

  /** The registry is in order, and every registered task is queued for its next check exactly once. */
  ghost predicate Registered<P>(s: State<P>) {
    InOrder(s, s.heap.Keys) && Holds(s.runque, s.heap.Keys)
  }

  ghost predicate RunOrder<P>(heap: map<P, Task>, q: seq<P>, w: World) {
    w.late || Sorted(ChkTimes(heap, q), CmpChkTime)
  }

  /** `r` with some of its created marks dropped, as a deletion that could not be completed leaves the task. */
  predicate MarksDropped(r: Record, r': Record) {
    && r' == r.(scheduleCreated := r'.scheduleCreated, configCreated := r'.configCreated)
    && r'.scheduleCreated in {0, r.scheduleCreated} && r'.configCreated in {0, r.configCreated}
  }

  /** A record of the task file is that of the task. */
  predicate Agrees(r: Record, t: Task) {
    r == t.rec || (t.chkType == ChkDeleted && MarksDropped(r, t.rec))
  }

  ghost function RecordNames(rs: seq<Record>): set<string> {
    set r | r in rs :: r.taskName
  }

  ghost function TaskNames<P>(heap: map<P, Task>): set<string> {
    set p | p in heap :: heap[p].rec.taskName
  }

  /** The records are those of the registered tasks, one for each, and they come in creation order. */
  ghost predicate Mirrors<P>(heap: map<P, Task>, rs: seq<Record>) {
    && RecordNames(rs) == TaskNames(heap)
    && (forall r, p | r in rs && p in heap && r.taskName == heap[p].rec.taskName :: Agrees(r, heap[p]))
    && (forall i, j | 0 <= i < j < |rs| :: rs[i].taskName != rs[j].taskName)
    && (forall i, j | 0 <= i < j < |rs| :: StrCmp(rs[i].createTime, rs[j].createTime) <= 0)
  }

  /** A file that fills the write buffer lacks the record that comes last; the reader refuses one of that size. Any
      other file decodes to the registry. */
  ghost predicate OnDisk<P>(file: string, heap: map<P, Task>) {
    && ParseFile(file).Some?
    && var rs := ParseFile(file).value;
       if |file| < WRITE_LIMIT then Mirrors(heap, rs) else exists last: Record :: Mirrors(heap, rs + [last])
  }

  ghost predicate Inv<P>(s: State<P>, w: World) {
    && Registered(s)
    && RunOrder(s.heap, s.runque, w)
    && TasksOk(s.heap, w)
    && AllSavedOk(s.saved, w)
    && OnDisk(s.file, s.heap)
  }

  // ----- check times

  /** The comparator of the run queue gives the right sign exactly when the difference of the check times is zero
      or its lower 32 bits, read as a signed number, keep its sign. */
  lemma CmpChkTimeIff(a: int, b: int)
    ensures var low := (a - b) % 0x1_0000_0000;
      (CmpChkTime(a, b) < 0 <==> a < b) && (CmpChkTime(a, b) > 0 <==> a > b)
      <==> a == b || (a > b && 0 < low < 0x8000_0000) || (a < b && low >= 0x8000_0000)
    ensures -0x8000_0000 <= a - b < 0x8000_0000 ==> CmpChkTime(a, b) == a - b
  {
  }

  lemma ChkTimePreorder(times: set<int>)
    requires forall x | x in times :: 0 <= x < CLOCK_LIMIT
    ensures Preorder(CmpChkTime, times)
  {
    forall x, y, z | x in times && y in times && z in times ensures Lawful(CmpChkTime, x, y, z) {
      assert CmpChkTime(x, y) == x - y && CmpChkTime(y, z) == y - z && CmpChkTime(x, z) == x - z;
    }
  }

  lemma QueuedPreorder<P>(heap: map<P, Task>, q: seq<P>, x: int)
    requires forall p | p in q :: p in heap && 0 <= heap[p].chkTime < CLOCK_LIMIT
    requires 0 <= x < CLOCK_LIMIT
    ensures Preorder(CmpChkTime, Elems(ChkTimes(heap, q)) + {x})
  {
    ChkTimePreorder(Elems(ChkTimes(heap, q)) + {x});
  }

  /** Queueing a task by its check time keeps the order. */
  lemma QueueKeepsOrder<P>(heap: map<P, Task>, q: seq<P>, p: P, w: World)
    requires RunOrder(heap, q, w) && p in heap && InTime(heap[p].chkTime, w)
    requires forall x | x in q :: x in heap && InTime(heap[x].chkTime, w)
    ensures RunOrder(heap, QueueByCheck(heap, q, p), w)
  {
    if w.late {
      return;
    }
    var times, x := ChkTimes(heap, q), heap[p].chkTime;
    QueuedPreorder(heap, q, x);
    InsertSorted(times, x, CmpChkTime);
    KeysInsert(heap, q, InsertIndex(times, x, CmpChkTime), p);
  }

  lemma WithoutKeepsOrder<P>(heap: map<P, Task>, q: seq<P>, p: P, m: set<P>, w: World)
    requires RunOrder(heap, q, w) && Holds(q, m) && p in m
    ensures RunOrder(heap, Without(q, p), w)
  {
    if w.late {
      return;
    }
    WithoutHolds(q, p, m);
    KeysRemove(heap, q, IndexOf(q, p));
    RemoveSorted(ChkTimes(heap, q), IndexOf(q, p), CmpChkTime);
  }

  lemma HoldsIn<P>(q: seq<P>, m: set<P>, p: P)
    requires Holds(q, m)
    ensures p in q <==> p in m
  {
  }

  /** Requeueing a task whose check time was changed in place restores the order of the run queue, and every task
      stays in it once. */
  lemma RequeueRestores<P>(s: State<P>, p: P, t: Task, w: World)
    requires Holds(s.runque, s.heap.Keys) && RunOrder(s.heap, s.runque, w) && p in s.heap
    requires forall x | x in s.heap :: InTime(s.heap[x].chkTime, w)
    requires InTime(t.chkTime, w)
    ensures var s' := Requeue(SetTask(s, p, t), p);
      && s' == s.(heap := s.heap[p := t], runque := s'.runque)
      && Holds(s'.runque, s.heap.Keys)
      && RunOrder(s'.heap, s'.runque, w)
  {
    hide *;
    var heap, m := s.heap[p := t], s.heap.Keys;
    var rest := Without(s.runque, p);
    WithoutRun(s.heap, s.runque, p, m, w);
    assert m - {p} + {p} == m;
    QueuesAgain(s.heap, heap, rest, p, m - {p}, w);
    RequeueIs(s, p, t);
  }

  lemma WithoutRun<P>(heap: map<P, Task>, q: seq<P>, p: P, m: set<P>, w: World)
    requires Holds(q, m) && p in m && RunOrder(heap, q, w)
    ensures p in q && Holds(Without(q, p), m - {p}) && RunOrder(heap, Without(q, p), w)
  {
    hide *;
    HoldsIn(q, m, p);
    WithoutHolds(q, p, m);
    WithoutKeepsOrder(heap, q, p, m, w);
  }

  lemma RequeueIs<P>(s: State<P>, p: P, t: Task)
    requires p in s.runque
    ensures Requeue(SetTask(s, p, t), p)
         == s.(heap := s.heap[p := t], runque := QueueByCheck(s.heap[p := t], Without(s.runque, p), p))
  {
  }

  lemma QueuesAgain<P>(h: map<P, Task>, h': map<P, Task>, rest: seq<P>, p: P, m: set<P>, w: World)
    requires Holds(rest, m) && p !in m && RunOrder(h, rest, w) && h.Keys == m + {p}
    requires p in h' && h' == h[p := h'[p]]
    requires forall x | x in h' :: InTime(h'[x].chkTime, w)
    ensures Holds(QueueByCheck(h', rest, p), m + {p})
    ensures RunOrder(h', QueueByCheck(h', rest, p), w)
  {
    forall x | x in rest ensures x in m {
      HoldsIn(rest, m, x);
    }
    hide QueueByCheck, ChkTimes, Sorted, Distinct;
    ChkTimesFrame(h, h', rest);
    QueueKeepsOrder(h', rest, p, w);
    QueueHolds(h', rest, p, m);
  }

  lemma QueueHolds<P>(heap: map<P, Task>, q: seq<P>, p: P, m: set<P>)
    requires Holds(q, m) && p !in m
    ensures Holds(QueueByCheck(heap, q, p), m + {p})
  {
  }

  // ----- steps on one task

  /** What the check of a task may do to it: everything but its record, and a deletion stays a deletion. */
  ghost predicate Continues(t: Task, t': Task) {
    t'.rec == t.rec && (t.chkType == ChkDeleted ==> t'.chkType == ChkDeleted)
  }

  lemma TaskNamesTouch<P>(heap: map<P, Task>, p: P, t: Task)
    requires p in heap && t.rec.taskName == heap[p].rec.taskName
    ensures TaskNames(heap[p := t]) == TaskNames(heap)
  {
    var heap' := heap[p := t];
    forall n ensures n in TaskNames(heap') <==> n in TaskNames(heap) {
      if q :| q in heap && heap[q].rec.taskName == n {
        assert heap'[q].rec.taskName == n;
      }
      if q :| q in heap' && heap'[q].rec.taskName == n {
        assert heap[q].rec.taskName == n;
      }
    }
  }

  lemma MirrorsTouch<P>(heap: map<P, Task>, p: P, t: Task, rs: seq<Record>)
    requires Mirrors(heap, rs) && p in heap && t.rec.taskName == heap[p].rec.taskName
    requires forall r :: Agrees(r, heap[p]) ==> Agrees(r, t)
    ensures Mirrors(heap[p := t], rs)
  {
    TaskNamesTouch(heap, p, t);
    hide RecordNames, TaskNames, Agrees;
  }

  /** Setting a task, saving statuses and requeueing it is all that most steps do. */
  lemma TouchKeeps<P>(s: State<P>, p: P, t: Task, saved: map<string, string>, w: World)
    requires Inv(s, w) && p in s.heap && AllSavedOk(saved, w)
    requires TaskOk(t, w) && t.rec == s.heap[p].rec && Continues(s.heap[p], t)
    ensures Inv(Requeue(SetTask(s, p, t).(saved := saved), p), w)
  {
    hide *;
    var s' := Requeue(SetTask(s, p, t).(saved := saved), p);
    InvParts(s, w);
    TasksInRange(s.heap, w);
    InRange(t, w);
    RequeueRestores(s.(saved := saved), p, t, w);
    SetTaskSaved(s, p, t, saved);
    TasksTouch(s.heap, p, t, w);
    assert s'.heap.Keys == s.heap.Keys;
    RegisteredTouch(s, s', p, t);
    OnDiskTouch(s.file, s.heap, p, t);
    InvFromParts(s', w);
  }

  lemma InvParts<P>(s: State<P>, w: World)
    requires Inv(s, w)
    ensures InOrder(s, s.heap.Keys) && Holds(s.runque, s.heap.Keys) && RunOrder(s.heap, s.runque, w)
    ensures TasksOk(s.heap, w) && AllSavedOk(s.saved, w) && OnDisk(s.file, s.heap)
  {
  }

  lemma InvFromParts<P>(s: State<P>, w: World)
    requires InOrder(s, s.heap.Keys) && Holds(s.runque, s.heap.Keys) && RunOrder(s.heap, s.runque, w)
    requires TasksOk(s.heap, w) && AllSavedOk(s.saved, w) && OnDisk(s.file, s.heap)
    ensures Inv(s, w)
  {
  }

  lemma InRange(t: Task, w: World)
    requires TaskOk(t, w)
    ensures InTime(t.chkTime, w)
  {
  }

  lemma SetTaskSaved<P>(s: State<P>, p: P, t: Task, saved: map<string, string>)
    ensures SetTask(s.(saved := saved), p, t) == SetTask(s, p, t).(saved := saved)
    ensures SetTask(s, p, t) == s.(heap := s.heap[p := t])
  {
  }

  lemma RegisteredTouch<P>(s: State<P>, s': State<P>, p: P, t: Task)
    requires InOrder(s, s.heap.Keys) && p in s.heap
    requires t.rec.taskName == s.heap[p].rec.taskName && t.rec.createTime == s.heap[p].rec.createTime
    requires s'.heap == s.heap[p := t] && s'.createque == s.createque && s'.nameset == s.nameset
    requires s'.capacity == s.capacity
    ensures InOrder(s', s.heap.Keys)
  {
    hide InOrder;
    InOrderFrame(s, s', s.heap.Keys);
  }

  lemma OnDiskTouch<P>(file: string, heap: map<P, Task>, p: P, t: Task)
    requires OnDisk(file, heap) && p in heap && Continues(heap[p], t)
    ensures OnDisk(file, heap[p := t])
  {
    AgreesOn(heap[p], t);
    OnDiskChange(file, heap, p, t);
  }

  lemma OnDiskChange<P>(file: string, heap: map<P, Task>, p: P, t: Task)
    requires OnDisk(file, heap) && p in heap && t.rec.taskName == heap[p].rec.taskName
    requires forall r :: Agrees(r, heap[p]) ==> Agrees(r, t)
    ensures OnDisk(file, heap[p := t])
  {
    hide ParseFile, Mirrors, Agrees;
    forall rs | Mirrors(heap, rs) ensures Mirrors(heap[p := t], rs) {
      MirrorsTouch(heap, p, t, rs);
    }
  }

  lemma TasksInRange<P>(heap: map<P, Task>, w: World)
    requires TasksOk(heap, w)
    ensures forall x | x in heap :: InTime(heap[x].chkTime, w)
  {
  }

  lemma AgreesOn(t: Task, t': Task)
    requires Continues(t, t')
    ensures forall r :: Agrees(r, t) ==> Agrees(r, t')
  {
  }

  lemma TasksTouch<P>(heap: map<P, Task>, p: P, t: Task, w: World)
    requires TasksOk(heap, w) && TaskOk(t, w)
    ensures TasksOk(heap[p := t], w)
  {
  }
}
