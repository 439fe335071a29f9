/** Task objects with their links and results, and the maps that describe a set of them. */
module GvmTasks {
  import opened Wrappers
  import opened Ordering
  import opened StrOrder
  import ListQueue
  import opened ListSet
  import opened OwnedLists
  import opened TaskRecord
  import opened Results
  import opened StatusFile
  import D = DaemonState
  import R = Registry

  // ----- the steps of the state machine, spelled out

  function Named<P(==)>(s: D.State<P>, p: P): D.State<P> {
    s.(nameset := InsertAt(s.nameset, InsertIndex(D.Names(s.heap, s.nameset), D.TaskOf(s.heap, p).rec.taskName, StrCmp), p),
       capacity := if |s.nameset| >= s.capacity then s.capacity + GROWTH_STEP else s.capacity)
  }

  lemma AddTaskIs<P>(s: D.State<P>, p: P, memory: bool)
    ensures D.AddTask(s, p, memory) ==
      if |s.nameset| >= s.capacity && !memory then None
      else Some(Named(s, p).(createque := D.QueueByCreate(s.heap, s.createque, p)))
    ensures Named(s, p) == s.(nameset := Named(s, p).nameset, capacity := Named(s, p).capacity)
  {
  }

  lemma DelTaskIs<P>(s: D.State<P>, name: string)
    ensures var names := D.Names(s.heap, s.nameset);
      var i := ScanIndex(names, name, StrCmp);
      D.DelTask(s, name) ==
        if Found(names, name, StrCmp) then
          Some(s.(nameset := RemoveAt(s.nameset, i), createque := D.Without(s.createque, s.nameset[i])))
        else None
  {
  }

  /** Taking out one task, as the ring does it. */
  lemma WithoutIs<P>(q: seq<P>, p: P)
    ensures D.Without(q, p) == if p in q then RemoveAt(q, IndexOf(q, p)) else q
  {
    if p in q {
      R.WithoutIsRemove(q, p);
    } else {
      R.WithoutAbsent(q, p);
    }
  }

  lemma NamesInsert<P>(heap: map<P, D.Task>, q: seq<P>, i: nat, p: P)
    requires i <= |q| && p in heap
    ensures forall x | x in InsertAt(q, i, p) :: x in q || x == p
    ensures D.Names(heap, InsertAt(q, i, p)) == InsertAt(D.Names(heap, q), i, heap[p].rec.taskName)
  {
  }

  lemma NamesRemove<P>(heap: map<P, D.Task>, q: seq<P>, i: nat)
    requires i < |q|
    ensures q[i] in q && forall x | x in RemoveAt(q, i) :: x in q
    ensures D.Names(heap, RemoveAt(q, i)) == RemoveAt(D.Names(heap, q), i)
  {
  }

  lemma NamesSame<P>(h: map<P, D.Task>, h': map<P, D.Task>, q: seq<P>)
    requires forall p | p in q :: p in h && p in h' && h[p].rec.taskName == h'[p].rec.taskName
    ensures D.Names(h, q) == D.Names(h', q)
  {
  }

  type MainLink = ListQueue.Node<Key<string, GvmTask>>
  type RunLink = ListQueue.Node<Key<int, GvmTask>>

  /** `ListGvmTask`. The comparators of the two queues read the create time and the check time of a task through its
      links; the check time is kept there alone. */
  class GvmTask {
    var rec: Record
    var status: Status
    var progress: int
    var reportCnt: int
    var finishCnt: int
    var startTime: string
    var stopTime: string
    var curReport: string
    var lastReport: string
    var chkType: ChkType
    const result: ResultInfo
    const mainlist: MainLink
    const runlist: RunLink

    /** All but the check time. */
    ghost function Fields(): D.Task
      reads this, result
    {
      D.Task(rec, status, progress, reportCnt, finishCnt, startTime, stopTime, curReport, lastReport, result.Value(),
             chkType, 0)
    }

    /** `newGvmTask`. */
    constructor ()
      ensures Fields() == D.NewTask(D.NO_RECORD) && fresh(result)
      ensures fresh(mainlist) && mainlist.Detached() && mainlist.key == Key("", this)
      ensures fresh(runlist) && runlist.Detached() && runlist.key == Key(0, this)
    {
      rec, status, progress, reportCnt, finishCnt := D.NO_RECORD, Created, 0, 0, 0;
      startTime, stopTime, curReport, lastReport, chkType := "", "", "", "", ChkTask;
      result := new ResultInfo();
      mainlist := new ListQueue.Node<Key<string, GvmTask>>(NoKey);
      runlist := new ListQueue.Node<Key<int, GvmTask>>(NoKey);
      new;
      mainlist.key := Key("", this);
      runlist.key := Key(0, this);
    }

    /** The record of a task that is not queued yet. */
    method Fill(rec: Record)
      modifies this`rec, mainlist`key
      ensures Fields() == old(Fields()).(rec := rec) && mainlist.key == Key(rec.createTime, this)
      ensures old(mainlist.Detached()) ==> mainlist.Detached()
    {
      this.rec := rec;
      mainlist.key := Key(rec.createTime, this);
    }

    /** `setTaskNextChkTime`, for a task that is not queued yet. */
    method SetNextChkTime(clock: int, interval: int)
      modifies runlist`key
      ensures runlist.key == Key(D.NextChkTime(clock, interval), this)
      ensures old(runlist.Detached()) ==> runlist.Detached()
    {
      runlist.key := Key(if 0 < interval then clock + interval else 0, this);
    }

    /** `chkTaskRunning`. */
    predicate IsRunning()
      reads this, result
      ensures IsRunning() == D.IsRunning(Fields())
    {
      status == Waiting || status == Running
    }

    /** `chkTaskDone`. */
    predicate IsDone()
      reads this, result
      ensures IsDone() == D.IsDone(Fields())
    {
      status == Finished || status == Stopped || status == Interrupted
    }

    /** `chkTaskBusy`. */
    predicate IsBusy()
      reads this, result
      ensures IsBusy() == D.IsBusy(Fields())
    {
      IsRunning() || chkType != ChkTask
    }

    /** `updateTaskReport`. */
    method UpdateReport(cur: string, last: string) returns (needUpdate: bool)
      modifies this`curReport, this`lastReport
      ensures var t := old(Fields());
        match D.NewReport(t, cur, last)
        case None => !needUpdate && Fields() == t
        case Some(report) => needUpdate && Fields() == t.(lastReport := t.curReport, curReport := report)
    {
      needUpdate := false;
      if cur != "" {
        if curReport != cur {
          needUpdate := true;
          lastReport := curReport;
          curReport := cur;
        }
      } else if last != "" {
        if curReport != last {
          needUpdate := true;
          lastReport := curReport;
          curReport := last;
        }
      }
    }

    /** The part of `backend_query_task` that changes the task. */
    method TakeReport(r: D.TaskReply) returns (needUpdate: bool)
      requires r.TaskReports?
      modifies this
      ensures var t := old(Fields());
        match D.NewReport(t, r.cur, r.last)
        case None => !needUpdate && Fields() == t
        case Some(report) => needUpdate && Fields() == D.Started(t, r.reportCnt, r.finishCnt, report)
    {
      needUpdate := UpdateReport(r.cur, r.last);
      if needUpdate {
        reportCnt := r.reportCnt;
        finishCnt := r.finishCnt;
        startTime := "";
        stopTime := "";
        status := Ready;
        progress := 0;
        chkType := ChkReport;
      }
    }

    /** `setTaskChkType`. */
    method SetChkType(newType: ChkType)
      modifies this`chkType
      ensures Fields() == old(Fields()).(chkType := newType)
    {
      chkType := newType;
    }

    /** `gvm_option_delete_schedule` and `gvm_option_delete_config`, as far as they change the task. */
    method ClearMarks(e: D.Env)
      modifies this`rec
      ensures Fields() == old(Fields()).(rec := D.ClearMarks(old(rec), e)) && rec == D.ClearMarks(old(rec), e)
    {
      if e.deleteScheduleOk {
        rec := rec.(scheduleCreated := 0);
      }
      if e.deleteConfigOk {
        rec := rec.(configCreated := 0);
      }
    }

    /** `setTaskStartTime`, `setTaskStopTime`, `setTaskStatus` and `setTaskProgress`. */
    method SetReport(newStatus: Status, newProgress: int, start: string, stop: string)
      modifies this
      ensures Fields() == D.Reported(old(Fields()), newStatus, newProgress, start, stop)
    {
      startTime := if |start| < MAX_TIMESTAMP_SIZE then start else "";
      stopTime := if |stop| < MAX_TIMESTAMP_SIZE then stop else "";
      status := newStatus;
      progress := newProgress;
    }

    method RestoreTimes(text: string, id: string) returns (ret: int)
      modifies this
      ensures (ret == 0, Fields()) == D.RestoredTimes(old(Fields()), text, id)
    {
      hide Lookup;
      if Lookup(text, "task_id", IsUuid, MAX_UUID_SIZE) != Some(id) {
        return -1;
      }
      var start := Lookup(text, "start_time", IsTimestampOrEmpty, MAX_TIMESTAMP_SIZE);
      startTime := start.GetOr("");
      if start.None? {
        return -1;
      }
      var stop := Lookup(text, "stop_time", IsTimestampOrEmpty, MAX_TIMESTAMP_SIZE);
      stopTime := stop.GetOr("");
      ret := if stop.Some? then 0 else -1;
    }

    method RestoreNumbers(text: string) returns (ret: int)
      modifies this
      ensures (ret == 0, Fields()) == D.RestoredNumbers(old(Fields()), text)
    {
      hide LookupInt, StatusOf, ChkOf;
      var newStatus := StatusOf(LookupInt(text, "status").GetOr(-1));
      if newStatus.None? {
        return -1;
      }
      status := newStatus.value;
      var newType := ChkOf(LookupInt(text, "chk_type").GetOr(-1));
      if newType.None? {
        return -1;
      }
      chkType := newType.value;
      var newProgress := LookupInt(text, "progress").GetOr(-1);
      if !(0 <= newProgress <= 100) {
        return -1;
      }
      progress := newProgress;
      ret := 0;
    }

    method RestoreIds(text: string) returns (ret: int)
      modifies this
      ensures (ret == 0, Fields()) == D.RestoredIds(old(Fields()), text)
    {
      hide Lookup;
      var cur := Lookup(text, "report_id", IsUuid, MAX_UUID_SIZE);
      curReport := cur.GetOr("");
      if cur.None? {
        return -1;
      }
      var last := Lookup(text, "last_report_id", IsUuidOrEmpty, MAX_UUID_SIZE);
      lastReport := last.GetOr("");
      ret := if last.Some? then 0 else -1;
    }

    /** `parseTaskStatusRecord`, on the text between the marks. */
    method Restore(text: string, id: string) returns (ret: int)
      modifies this
      ensures (ret == 0, Fields()) == D.Restored(old(Fields()), text, id)
    {
      hide D.RestoredTimes, D.RestoredNumbers, D.RestoredIds, Fields;
      ret := RestoreTimes(text, id);
      if ret == 0 {
        ret := RestoreNumbers(text);
        if ret == 0 {
          ret := RestoreIds(text);
        }
      }
    }

    /** Where a report status leads, and when to look again. */
    method NextPhase() returns (interval: nat)
      modifies this`chkType
      ensures var t := old(Fields());
        Fields() == t.(chkType := D.AfterReport(t)) && interval == D.ReportInterval(t)
    {
      if IsRunning() {
        interval := 120;
      } else if IsDone() {
        chkType := ChkResult;
        interval := 0;
      } else {
        chkType := ChkTask;
        interval := 300;
      }
    }

    /** The part of `backend_query_report` that changes the task, and when to look again. */
    method TakeStatus(newStatus: Status, newProgress: int, start: string, stop: string)
      returns (needUpdate: bool, interval: nat)
      modifies this
      ensures var t := old(Fields());
        var t1 := D.Reported(t, newStatus, newProgress, start, stop);
        if newStatus == t.status && newProgress == t.progress then !needUpdate && interval == 120 && Fields() == t
        else needUpdate && Fields() == t1.(chkType := D.AfterReport(t1)) && interval == D.ReportInterval(t1)
    {
      hide D.AfterReport, D.ReportInterval, D.Reported;
      needUpdate, interval := false, 120;
      if newStatus != status || newProgress != progress {
        needUpdate := true;
        SetReport(newStatus, newProgress, start, stop);
        interval := NextPhase();
      }
    }
  }

  lemma FieldsAre(task: GvmTask)
    ensures var t := task.Fields();
      && t == t.(rec := task.rec, startTime := task.startTime, stopTime := task.stopTime, status := task.status,
                 chkType := task.chkType, progress := task.progress, curReport := task.curReport,
                 lastReport := task.lastReport, result := task.result.Value(), chkTime := 0)
      && t.result.done == task.result.done && t.result.results == task.result.results
  {
  }

  ghost function MainLinks(m: set<GvmTask>): map<GvmTask, MainLink> {
    map t | t in m :: t.mainlist
  }

  ghost function RunLinks(m: set<GvmTask>): map<GvmTask, RunLink> {
    map t | t in m :: t.runlist
  }

  ghost function MainVals<P>(heap: map<P, D.Task>): map<P, string> {
    map p | p in heap :: heap[p].rec.createTime
  }

  ghost function RunVals<P>(heap: map<P, D.Task>): map<P, int> {
    map p | p in heap :: heap[p].chkTime
  }

  lemma ShownIs<P>(heap: map<P, D.Task>, q: seq<P>)
    requires forall p | p in q :: p in heap
    ensures Shown(q, MainVals(heap)) == D.CreateTimes(heap, q) && Shown(q, RunVals(heap)) == D.ChkTimes(heap, q)
  {
  }

  /** What the ring of the creation queue makes of an insertion is what `DaemonState` says. */
  lemma QueueByCreateIs<P>(heap: map<P, D.Task>, q: seq<P>, p: P)
    requires p in heap && forall x | x in q :: x in heap
    ensures D.QueueByCreate(heap, q, p)
         == InsertAt(q, InsertIndex(Shown(q, MainVals(heap)), MainVals(heap)[p], StrCmp), p)
  {
    ShownIs(heap, q);
  }

  lemma QueueByCheckIs<P>(heap: map<P, D.Task>, q: seq<P>, p: P)
    requires p in heap && forall x | x in q :: x in heap
    ensures D.QueueByCheck(heap, q, p)
         == InsertAt(q, InsertIndex(Shown(q, RunVals(heap)), RunVals(heap)[p], D.CmpChkTime), p)
  {
    ShownIs(heap, q);
  }

  lemma ShownRemove<P>(heap: map<P, D.Task>, q: seq<P>, i: nat)
    requires i < |q| && forall p | p in q :: p in heap
    ensures RemoveAt(Shown(q, RunVals(heap)), i) == D.ChkTimes(heap, RemoveAt(q, i))
  {
    var rest, vals, times := RemoveAt(q, i), Shown(q, RunVals(heap)), D.ChkTimes(heap, RemoveAt(q, i));
    forall k | 0 <= k < |q| - 1 ensures RemoveAt(vals, i)[k] == times[k] {
      RemoveAtIndex(vals, i, k);
      RemoveAtIndex(q, i, k);
    }
  }

  lemma RequeueIs<P>(s: D.State<P>, p: P)
    requires p in s.heap && forall x | x in s.runque :: x in s.heap
    ensures p !in s.runque ==> D.Requeue(s, p) == s
    ensures p in s.runque ==>
      var i, vals := IndexOf(s.runque, p), Shown(s.runque, RunVals(s.heap));
      i < |s.runque| && D.Requeue(s, p) == s.(runque :=
        InsertAt(RemoveAt(s.runque, i), InsertIndex(RemoveAt(vals, i), RunVals(s.heap)[p], D.CmpChkTime), p))
  {
    hide InsertIndex, InsertAt, RemoveAt, D.ChkTimes, Shown, D.Without;
    if p in s.runque {
      WithoutIs(s.runque, p);
      IndexInside(s.runque, p);
      ShownRemove(s.heap, s.runque, IndexOf(s.runque, p));
    }
  }

  lemma IndexInside<P>(q: seq<P>, p: P)
    requires p in q
    ensures IndexOf(q, p) < |q|
  {
  }

  /** Tasks and their results. */
  ghost function Objects(m: set<GvmTask>): set<object> {
    m + set t | t in m :: t.result
  }

  /** No two tasks share their results. */
  ghost predicate Owners(m: set<GvmTask>, owner: map<ResultInfo, GvmTask>) {
    forall t | t in m :: t.result in owner && owner[t.result] == t
  }

  /** The tasks hold what `heap` says; the check times stand in their links. */
  ghost predicate FieldsAll(heap: map<GvmTask, D.Task>)
    reads heap.Keys, set t | t in heap :: t.result
  {
    forall t | t in heap :: t.Fields() == heap[t].(chkTime := 0)
  }

  /** The same for all tasks but one. */
  ghost predicate FieldsBut(heap: map<GvmTask, D.Task>, task: GvmTask)
    reads heap.Keys - {task}, (set t | t in heap :: t.result) - {task.result}
  {
    forall t | t in heap && t != task :: t.result != task.result && t.Fields() == heap[t].(chkTime := 0)
  }

  lemma FieldsOf(heap: map<GvmTask, D.Task>, t: GvmTask)
    requires FieldsAll(heap) && t in heap
    ensures t.Fields() == heap[t].(chkTime := 0) && t.rec == heap[t].rec
    ensures D.TaskOf(heap, t) == heap[t]
  {
  }

  lemma FieldsLoose(heap: map<GvmTask, D.Task>, owner: map<ResultInfo, GvmTask>, task: GvmTask)
    requires FieldsAll(heap) && Owners(heap.Keys, owner) && task in heap
    ensures FieldsBut(heap, task)
  {
  }

  lemma FieldsSynced(heap: map<GvmTask, D.Task>, task: GvmTask, t: D.Task)
    requires FieldsBut(heap, task) && task.Fields() == t.(chkTime := 0)
    ensures FieldsAll(heap[task := t])
  {
  }

  lemma FieldsRetimed(heap: map<GvmTask, D.Task>, task: GvmTask, t: D.Task)
    requires FieldsAll(heap) && task in heap && t == heap[task].(chkTime := t.chkTime)
    ensures FieldsAll(heap[task := t])
  {
  }

  lemma FieldsMore(heap: map<GvmTask, D.Task>, task: GvmTask, t: D.Task)
    requires FieldsAll(heap) && task.Fields() == t.(chkTime := 0)
    ensures FieldsAll(heap[task := t])
  {
  }

  lemma FieldsLess(heap: map<GvmTask, D.Task>, task: GvmTask)
    requires FieldsAll(heap)
    ensures FieldsAll(heap - {task})
  {
  }

  lemma OwnersMore(m: set<GvmTask>, owner: map<ResultInfo, GvmTask>, task: GvmTask)
    requires Owners(m, owner) && task.result !in owner
    ensures Owners(m + {task}, owner[task.result := task])
  {
  }

  lemma OwnersLess(m: set<GvmTask>, owner: map<ResultInfo, GvmTask>, task: GvmTask)
    requires Owners(m, owner)
    ensures Owners(m - {task}, owner) && Objects(m - {task}) <= Objects(m)
  {
  }

  lemma NoObjects()
    ensures Objects({}) == {} && Owners({}, map[]) && FieldsAll(map[])
    ensures MainLinks({}) == map[] && RunLinks({}) == map[] && D.Names<GvmTask>(map[], []) == []
    ensures MainVals<GvmTask>(map[]) == map[] && RunVals<GvmTask>(map[]) == map[]
    ensures var h: map<GvmTask, D.Task> := map[]; h.Keys == {}
  {
  }

  lemma ObjectsMore(m: set<GvmTask>, t: GvmTask)
    ensures Objects(m + {t}) == Objects(m) + {t, t.result}
  {
  }

  // the maps of links and values, when a task changes, comes or goes

  lemma RetimedMaps<P>(h: map<P, D.Task>, p: P, t: D.Task)
    requires p in h && t.rec.createTime == h[p].rec.createTime
    ensures h[p := t].Keys == h.Keys && MainVals(h[p := t]) == MainVals(h)
    ensures RunVals(h[p := t]) == RunVals(h)[p := t.chkTime]
    ensures t.chkTime == h[p].chkTime ==> RunVals(h[p := t]) == RunVals(h)
  {
  }

  lemma LinksMore(m: set<GvmTask>, p: GvmTask)
    requires p !in m
    ensures MainLinks(m + {p}) == MainLinks(m)[p := p.mainlist] && p !in MainLinks(m)
    ensures RunLinks(m + {p}) == RunLinks(m)[p := p.runlist] && p !in RunLinks(m)
  {
  }

  lemma ValsMore<P>(h: map<P, D.Task>, p: P, t: D.Task)
    ensures h[p := t].Keys == h.Keys + {p}
    ensures MainVals(h[p := t]) == MainVals(h)[p := t.rec.createTime]
    ensures RunVals(h[p := t]) == RunVals(h)[p := t.chkTime]
  {
    var h' := h[p := t];
    assert forall x | x in h' :: MainVals(h')[x] == MainVals(h)[p := t.rec.createTime][x];
    assert forall x | x in h' :: RunVals(h')[x] == RunVals(h)[p := t.chkTime][x];
  }

  lemma LinksLess(m: set<GvmTask>, p: GvmTask)
    ensures MainLinks(m - {p}) == MainLinks(m) - {p} && RunLinks(m - {p}) == RunLinks(m) - {p}
  {
  }

  lemma ValsLess<P>(h: map<P, D.Task>, p: P)
    ensures (h - {p}).Keys == h.Keys - {p}
    ensures MainVals(h - {p}) == MainVals(h) - {p} && RunVals(h - {p}) == RunVals(h) - {p}
  {
  }
}
