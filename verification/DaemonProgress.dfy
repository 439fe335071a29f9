/** The scheduler looks at one task a time, the one in front. A task that is due is not left waiting: the tasks in front
    of it either go behind it or come closer to the end of their phases. */
module DaemonProgress {
  import opened Ordering
  import opened Results
  import opened StatusFile
  import opened DaemonState
  import opened Registry
  import opened DaemonInv
  import opened DaemonSteps
  import opened DaemonFiles
  import opened DaemonCommands
  import opened DaemonRun

  /** How many checks a task can get before one is put off to a later time. */
  function Weight(t: Task): nat {
    match t.chkType
    case ChkTask => 3
    case ChkReport => 2
    case ChkResult => 1
    case ChkDeleted => 1
  }

  function WeightOf<P(==)>(heap: map<P, Task>, q: seq<P>): nat {
    if |q| == 0 then 0 else Weight(TaskOf(heap, q[0])) + WeightOf(heap, q[1..])
  }

  lemma {:induction false} WeightFrame<P>(h: map<P, Task>, h': map<P, Task>, q: seq<P>)
    requires forall x | x in q :: x in h && x in h' && Weight(h[x]) == Weight(h'[x])
    ensures WeightOf(h, q) == WeightOf(h', q)
  {
    hide Weight;
    if |q| > 0 {
      assert q[0] in q;
      WeightFrame(h, h', q[1..]);
    }
  }

  lemma {:induction false} WeightConcat<P>(heap: map<P, Task>, a: seq<P>, b: seq<P>)
    ensures WeightOf(heap, a + b) == WeightOf(heap, a) + WeightOf(heap, b)
  {
    hide Weight, TaskOf;
    if |a| == 0 {
      assert a + b == b;
    } else {
      assert (a + b)[1..] == a[1..] + b;
      WeightConcat(heap, a[1..], b);
    }
  }

  lemma WeightInsert<P>(heap: map<P, Task>, q: seq<P>, j: nat, x: P)
    requires j <= |q|
    ensures WeightOf(heap, InsertAt(q, j, x)) == WeightOf(heap, q) + Weight(TaskOf(heap, x))
  {
    hide Weight, TaskOf;
    WeightConcat(heap, q[..j] + [x], q[j..]);
    WeightConcat(heap, q[..j], [x]);
    WeightConcat(heap, q[..j], q[j..]);
    assert q[..j] + q[j..] == q;
    assert WeightOf(heap, [x]) == Weight(TaskOf(heap, x)) + WeightOf(heap, [x][1..]);
  }

  lemma {:induction false} WeightBound<P>(heap: map<P, Task>, q: seq<P>)
    ensures WeightOf(heap, q) <= 3 * |q|
  {
    if |q| > 0 {
      WeightBound(heap, q[1..]);
    }
  }

  /** The checks that may come before the one of `p`. */
  ghost function Ahead<P>(s: State<P>, p: P): nat
    requires p in s.runque
  {
    WeightOf(s.heap, s.runque[..IndexOf(s.runque, p)])
  }

  // ----- the run queue after one check

  /** The head has been checked: it is queued again with another check time, or its phase has moved on. */
  ghost predicate HeadMoved<P>(s: State<P>, s': State<P>, p: P) {
    && |s.runque| > 0
    && var h := s.runque[0];
       && h in s.heap && h in s'.heap && s'.heap == s.heap[h := s'.heap[h]]
       && s'.runque == QueueByCheck(s'.heap, s.runque[1..], h)
       && (Weight(s'.heap[h]) < Weight(s.heap[h])
           || (p in s.heap && s.heap[p].chkTime < s'.heap[h].chkTime < CLOCK_LIMIT && 0 <= s.heap[p].chkTime))
  }

  lemma RestIs<P>(q: seq<P>, m: set<P>, p: P)
    requires Holds(q, m) && p in m && |q| > 0 && q[0] != p
    ensures p in q && IndexOf(q, p) > 0 && q[0] in m
    ensures Without(q, q[0]) == q[1..] && q[0] !in q[1..]
    ensures q[1..][IndexOf(q, p) - 1] == p && q[..IndexOf(q, p)] == [q[0]] + q[1..][..IndexOf(q, p) - 1]
    ensures forall x | x in q[1..] :: x in m && x != q[0]
    ensures Distinct(q[1..])
  {
    HoldsIn(q, m, p);
    HoldsIn(q, m, q[0]);
    TailIs(q, m);
    var i := IndexOf(q, p);
    hide *;
    assert q[..i] == [q[0]] + q[1..][..i - 1];
  }

  lemma TailIs<P>(q: seq<P>, m: set<P>)
    requires Holds(q, m) && |q| > 0
    ensures Without(q, q[0]) == q[1..] && q[0] !in q[1..] && Distinct(q[1..])
    ensures forall x | x in q[1..] :: x in m && x != q[0]
  {
    forall x | x in q[1..] ensures x in m && x != q[0] {
      var i :| 0 <= i < |q[1..]| && q[1..][i] == x;
      assert q[i + 1] == x && x in Elems(q);
    }
  }

  /** The place of an element when another one is inserted. */
  lemma PlaceAfter<P>(rest: seq<P>, j: nat, h: P, i: nat)
    requires Distinct(rest) && h !in rest && j <= |rest| && i < |rest|
    ensures var q := InsertAt(rest, j, h);
      && rest[i] in q
      && (j <= i ==> IndexOf(q, rest[i]) == i + 1 && q[..i + 1] == InsertAt(rest[..i], j, h))
      && (j > i ==> IndexOf(q, rest[i]) == i && q[..i] == rest[..i])
  {
    var q := InsertAt(rest, j, h);
    InsertDistinct(rest, j, h);
    hide Distinct;
    IndexOfUnique(q, if j <= i then i + 1 else i);
    if j <= i {
      assert q[..i + 1] == rest[..j] + [h] + rest[j..i];
      assert rest[..i][..j] == rest[..j] && rest[..i][j..] == rest[j..i];
    }
  }

  lemma AheadIs<P>(s: State<P>, p: P, i: nat)
    requires p in s.runque && IndexOf(s.runque, p) == i
    ensures Ahead(s, p) == WeightOf(s.heap, s.runque[..i])
  {
  }

  lemma HeadMovedIs<P>(s: State<P>, s': State<P>, p: P)
    ensures HeadMoved(s, s', p) <==>
      && |s.runque| > 0
      && var h := s.runque[0];
         && h in s.heap && h in s'.heap && s'.heap == s.heap[h := s'.heap[h]]
         && s'.runque == QueueByCheck(s'.heap, s.runque[1..], h)
         && (Weight(s'.heap[h]) < Weight(s.heap[h])
             || (p in s.heap && s.heap[p].chkTime < s'.heap[h].chkTime < CLOCK_LIMIT && 0 <= s.heap[p].chkTime))
  {
    hide QueueByCheck, Weight;
  }

  /** What was behind the head has come closer. */
  lemma MovedAhead<P>(s: State<P>, s': State<P>, p: P)
    requires Holds(s.runque, s.heap.Keys) && p in s.heap && HeadMoved(s, s', p) && s.runque[0] != p
    ensures p in s.runque && p in s'.runque && Ahead(s', p) < Ahead(s, p)
  {
    hide *;
    HeadMovedIs(s, s', p);
    var q, h := s.runque, s.runque[0];
    RestIs(q, s.heap.Keys, p);
    var rest, i := q[1..], IndexOf(q, p) - 1;
    var j := InsertIndex(ChkTimes(s'.heap, rest), s'.heap[h].chkTime, CmpChkTime);
    QueuedAt(s'.heap, rest, h);
    PlaceAfter(rest, j, h, i);
    AheadIs(s, p, i + 1);
    AheadIs(s', p, IndexOf(s'.runque, p));
    WeightConcat(s.heap, [h], rest[..i]);
    WeightFrame(s.heap, s'.heap, rest[..i]);
    SingleWeight(s.heap, h);
    TaskOfIs(s'.heap, h);
    if j <= i {
      WeightInsert(s'.heap, rest[..i], j, h);
      LaterIsBehind(s'.heap, rest, h, i);
    }
  }

  lemma QueuedAt<P>(heap: map<P, Task>, rest: seq<P>, h: P)
    requires h in heap
    ensures var j := InsertIndex(ChkTimes(heap, rest), heap[h].chkTime, CmpChkTime);
      j <= |rest| && QueueByCheck(heap, rest, h) == InsertAt(rest, j, h)
  {
  }

  lemma SingleWeight<P>(heap: map<P, Task>, h: P)
    requires h in heap
    ensures WeightOf(heap, [h]) == Weight(heap[h]) > 0
  {
    assert [h][1..] == [];
  }

  lemma LaterIsBehind<P>(heap: map<P, Task>, rest: seq<P>, h: P, i: nat)
    requires h in heap && i < |rest| && rest[i] in heap
    requires InsertIndex(ChkTimes(heap, rest), heap[h].chkTime, CmpChkTime) <= i
    ensures !(0 <= heap[rest[i]].chkTime < heap[h].chkTime < CLOCK_LIMIT)
  {
    hide InsertIndex;
    var times, x := ChkTimes(heap, rest), heap[h].chkTime;
    assert CmpChkTime(times[i], x) > 0;
  }

  // ----- what one check does to the head

  lemma Rescheduled<P>(s: State<P>, h: P, t: Task, saved: map<string, string>, clock: int, interval: int)
    requires Holds(s.runque, s.heap.Keys) && |s.runque| > 0 && s.runque[0] == h
    ensures h in s.heap
    ensures var s' := Reschedule(SetTask(s, h, t).(saved := saved), h, clock, interval);
      var t' := t.(chkTime := NextChkTime(clock, interval));
      && s'.heap == s.heap[h := t'] && s'.runque == QueueByCheck(s'.heap, s.runque[1..], h) && s'.connOk == s.connOk
  {
    hide *;
    HoldsIn(s.runque, s.heap.Keys, h);
    RescheduleIs(s, h, t, saved, clock, interval);
    SetTaskSaved(s, h, t.(chkTime := NextChkTime(clock, interval)), saved);
    RequeuedIs(s.(saved := saved), h, t.(chkTime := NextChkTime(clock, interval)));
  }

  lemma RequeuedIs<P>(s: State<P>, h: P, t: Task)
    requires |s.runque| > 0 && s.runque[0] == h
    ensures var s' := Requeue(SetTask(s, h, t), h);
      s' == s.(heap := s.heap[h := t], runque := QueueByCheck(s.heap[h := t], s.runque[1..], h))
  {
  }

  /** A check time after a positive interval lies behind that of every task that is due. */
  lemma NextIsLater(now: int, clock: int, interval: int, w: World)
    requires 0 < interval <= 300 && now <= clock && InTime(clock + 300, w) && !w.late
    ensures now < NextChkTime(clock, interval) < CLOCK_LIMIT
  {
  }

  /** The clock does not go back during a check, and `p` is due. */
  predicate Due<P>(s: State<P>, p: P, e: Env) {
    p in s.heap && 0 <= s.heap[p].chkTime <= e.now <= e.later
  }

  lemma PutOffMoves<P>(s: State<P>, p: P, t: Task, saved: map<string, string>, e: Env, interval: nat, w: World)
    requires Holds(s.runque, s.heap.Keys) && |s.runque| > 0 && s.runque[0] != p && s.runque[0] in s.heap
    requires Due(s, p, e) && ClockOk(e, w) && !w.late && interval <= 300
    requires interval > 0 || Weight(t) < Weight(s.heap[s.runque[0]])
    ensures var s' := Reschedule(SetTask(s, s.runque[0], t).(saved := saved), s.runque[0], e.later, interval);
      HeadMoved(s, s', p) && s'.connOk == s.connOk
  {
    hide Holds, QueueByCheck, Reschedule;
    Rescheduled(s, s.runque[0], t, saved, e.later, interval);
    if interval > 0 {
      NextIsLater(s.heap[p].chkTime, e.later, interval, w);
    }
  }

  lemma SameAgain<P>(s: State<P>, h: P)
    requires h in s.heap
    ensures SetTask(s, h, s.heap[h]).(saved := s.saved) == s
  {
    assert s.heap[h := s.heap[h]] == s.heap;
  }

  lemma PhasesMoveOn(t: Task)
    ensures forall n, m, r :: t.chkType == ChkTask ==> Weight(Started(t, n, m, r)) < Weight(t)
    ensures forall a, b, c, d :: var t1 := Reported(t, a, b, c, d);
      ReportInterval(t1) <= 300
      && (t.chkType == ChkReport && ReportInterval(t1) == 0 ==> Weight(t1.(chkType := AfterReport(t1))) < Weight(t))
  {
  }

  lemma TaskMoves<P>(s: State<P>, p: P, e: Env, w: World)
    requires Holds(s.runque, s.heap.Keys) && |s.runque| > 0 && s.runque[0] != p && s.runque[0] in s.heap
    requires Due(s, p, e) && ClockOk(e, w) && !w.late && s.heap[s.runque[0]].chkType == ChkTask
    ensures HeadMoved(s, QueryTask(s, s.runque[0], e), p) && QueryTask(s, s.runque[0], e).connOk == s.connOk
  {
    hide *;
    var h := s.runque[0];
    var t, r := s.heap[h], TaskAnswer(s.heap[h], e.taskReply);
    QueryTaskIs(s, h, e);
    SameAgain(s, h);
    PhasesMoveOn(t);
    IntervalsAre();
    PutOffMoves(s, p, t, s.saved, e, Interval(ChkTask), w);
    if r.TaskReports? && NewReport(t, r.cur, r.last).Some? {
      var t' := Started(t, r.reportCnt, r.finishCnt, NewReport(t, r.cur, r.last).value);
      PutOffMoves(s, p, t', SavedAfter(s.saved, t', e), e, 0, w);
    }
  }

  lemma IntervalsAre()
    ensures forall k: ChkType :: 0 < Interval(k) <= 300
  {
  }

  lemma ReportMoves<P>(s: State<P>, p: P, e: Env, w: World)
    requires Holds(s.runque, s.heap.Keys) && |s.runque| > 0 && s.runque[0] != p && s.runque[0] in s.heap
    requires Due(s, p, e) && ClockOk(e, w) && !w.late && s.heap[s.runque[0]].chkType == ChkReport
    ensures HeadMoved(s, QueryReport(s, s.runque[0], e), p) && QueryReport(s, s.runque[0], e).connOk == s.connOk
  {
    hide *;
    var h := s.runque[0];
    var t, r := s.heap[h], ReportAnswer(s.heap[h], e.reportReply);
    QueryReportIs(s, h, e);
    SameAgain(s, h);
    PhasesMoveOn(t);
    IntervalsAre();
    PutOffMoves(s, p, t, s.saved, e, Interval(ChkReport), w);
    if r.ReportStatus? {
      var t1 := Reported(t, ConvRunStatusName(r.name), Clamp(r.progress), r.startTime, r.stopTime);
      var t2 := t1.(chkType := AfterReport(t1));
      PutOffMoves(s, p, t2, SavedAfter(s.saved, t2, e), e, ReportInterval(t1), w);
    }
  }

  lemma ResultMoves<P>(s: State<P>, p: P, e: Env, w: World)
    requires Holds(s.runque, s.heap.Keys) && |s.runque| > 0 && s.runque[0] != p && s.runque[0] in s.heap
    requires Due(s, p, e) && ClockOk(e, w) && !w.late && s.heap[s.runque[0]].chkType == ChkResult
    ensures HeadMoved(s, QueryResult(s, s.runque[0], e), p) && QueryResult(s, s.runque[0], e).connOk == s.connOk
  {
    hide *;
    var h := s.runque[0];
    var t := s.heap[h];
    var t1, t2 := t.(result := Round(t.result, ResultAnswer(t, e.resultReply))), t.(result := RESET, chkType := ChkTask);
    QueryResultIs(s, h, e);
    IntervalsAre();
    PutOffMoves(s, p, t1, s.saved, e, Interval(ChkResult), w);
    PutOffMoves(s, p, t2, SavedAfter(s.saved, t2, e), e, Interval(ChkTask), w);
  }

  lemma GoneAhead<P>(s: State<P>, s': State<P>, p: P)
    requires Holds(s.runque, s.heap.Keys) && p in s.heap && |s.runque| > 0 && s.runque[0] != p
    requires s'.runque == Without(s.runque, s.runque[0]) && s'.heap == s.heap - {s.runque[0]}
    ensures p in s.runque && p in s'.runque && Ahead(s', p) < Ahead(s, p)
  {
    hide Weight, Holds, Distinct;
    var q := s.runque;
    RestIs(q, s.heap.Keys, p);
    var rest, i := q[1..], IndexOf(q, p) - 1;
    IndexOfUnique(rest, i);
    WeightConcat(s.heap, [q[0]], rest[..i]);
    WeightFrame(s.heap, s'.heap, rest[..i]);
    SingleWeight(s.heap, q[0]);
  }

  /** A deletion either takes the head away or is put off. */
  lemma DeletionMoves<P>(s: State<P>, p: P, e: Env, w: World)
    requires Registered(s) && |s.runque| > 0 && s.runque[0] != p && s.runque[0] in s.heap
    requires Due(s, p, e) && ClockOk(e, w) && !w.late
    ensures var (ok, s1) := DeleteFiles(s, s.runque[0], e);
      var s' := if ok then Free(s1, s.runque[0]) else Reschedule(s1, s.runque[0], e.later, Interval(ChkDeleted));
      p in s.runque && p in s'.runque && Ahead(s', p) < Ahead(s, p) && s'.connOk == s.connOk
  {
    hide *;
    var h := s.runque[0];
    DeleteFilesStep(s, h, e);
    DueIs(s, p, e);
    RegisteredParts(s);
    HoldsIn(s.runque, s.heap.Keys, p);
    var (ok, s1) := DeleteFiles(s, h, e);
    if ok {
      FreeIs(s1, h);
      GoneAhead(s, Free(s1, h), p);
    } else {
      SameAgain(s1, h);
      IntervalsAre();
      SameQueue(s, s1, p, e);
      PutOffMoves(s1, p, s1.heap[h], s1.saved, e, Interval(ChkDeleted), w);
      MovedAhead(s1, Reschedule(s1, h, e.later, Interval(ChkDeleted)), p);
    }
  }

  lemma DueIs<P>(s: State<P>, p: P, e: Env)
    requires Due(s, p, e)
    ensures p in s.heap && Expired(s.heap[p], e.now)
  {
  }

  lemma SameQueue<P>(s: State<P>, s': State<P>, p: P, e: Env)
    requires Due(s, p, e) && p in s.runque && s'.runque == s.runque && s'.heap == s.heap
    ensures Due(s', p, e) && Ahead(s', p) == Ahead(s, p)
  {
  }

  // ----- checks in a row

  /** A check that does not look at a task that is due brings the task closer to its own check. */
  lemma CheckAhead<P>(s: State<P>, p: P, e: Env, w: World)
    requires Inv(s, w) && !w.late && s.connOk && ClockOk(e, w) && Due(s, p, e)
    requires |s.runque| > 0 ==> s.runque[0] != p
    ensures var s' := RunChecks(s, e).1;
      RunChecks(s, e).0 && p in s.runque && p in s'.runque && Ahead(s', p) < Ahead(s, p) && s'.connOk
  {
    hide *;
    InvParts(s, w);
    RegisteredFrom(s);
    DueIs(s, p, e);
    HoldsIn(s.runque, s.heap.Keys, p);
    if !RunChecks(s, e).0 {
      IdleMeansNothingDue(s, e, w);
      assert false;
    }
    var h := s.runque[0];
    HoldsIn(s.runque, s.heap.Keys, h);
    BusyCheckIs(s, e);
    match s.heap[h].chkType {
      case ChkTask =>
        TaskMoves(s, p, e, w);
        MovedAhead(s, QueryTask(s, h, e), p);
      case ChkReport =>
        ReportMoves(s, p, e, w);
        MovedAhead(s, QueryReport(s, h, e), p);
      case ChkResult =>
        ResultMoves(s, p, e, w);
        MovedAhead(s, QueryResult(s, h, e), p);
      case ChkDeleted => DeletionMoves(s, p, e, w);
    }
  }

  lemma BusyCheckIs<P>(s: State<P>, e: Env)
    requires RunChecks(s, e).0 && |s.runque| > 0 && s.runque[0] in s.heap
    ensures var h := s.runque[0];
      RunChecks(s, e).1 ==
        match s.heap[h].chkType
        case ChkTask => QueryTask(s, h, e)
        case ChkReport => QueryReport(s, h, e)
        case ChkResult => QueryResult(s, h, e)
        case ChkDeleted =>
          var (ok, s') := DeleteFiles(s, h, e);
          if ok then Free(s', h) else Reschedule(s', h, e.later, Interval(ChkDeleted))
  {
    hide QueryTask, QueryReport, QueryResult, DeleteFiles, Reschedule, Free, Expired;
  }

  /** One of the checks looks at `p`. */
  ghost predicate Reached<P>(s: State<P>, es: seq<Env>, p: P)
    decreases |es|
  {
    |es| > 0 && ((|s.runque| > 0 && s.runque[0] == p) || Reached(RunChecks(s, es[0]).1, es[1..], p))
  }

  ghost predicate LegalChecks<P>(s: State<P>, es: seq<Env>, w: World)
    decreases |es|
  {
    |es| > 0 ==> Legal(s, Check(es[0]), w) && LegalChecks(RunChecks(s, es[0]).1, es[1..], w)
  }

  /** A task that is due is looked at by one of the next checks, while the connection holds: at the latest when each task
      in front of it has had as many checks as it has phases left. */
  lemma {:induction false} DueIsReached<P>(s: State<P>, es: seq<Env>, p: P, w: World)
    requires Inv(s, w) && !w.late && s.connOk && LegalChecks(s, es, w)
    requires p in s.heap && p in s.runque && forall e | e in es :: s.heap[p].chkTime <= e.now <= e.later
    requires |es| > Ahead(s, p)
    ensures Reached(s, es, p)
    decreases |es|
  {
    hide *;
    FirstCheck(s, es, p, w);
    if s.runque[0] != p {
      var e := es[0];
      assert e in es;
      InvParts(s, w);
      TasksInRange(s.heap, w);
      DueFrom(s, p, e, w);
      CheckAhead(s, p, e, w);
      ChecksTouchHead(s, e, p, w);
      RunChecksKeeps(s, e, w);
      DueIsReached(RunChecks(s, e).1, es[1..], p, w);
    }
  }

  lemma FirstCheck<P>(s: State<P>, es: seq<Env>, p: P, w: World)
    requires LegalChecks(s, es, w) && |es| > 0 && |s.runque| > 0
    ensures Reached(s, es, p) <==> s.runque[0] == p || Reached(RunChecks(s, es[0]).1, es[1..], p)
    ensures var e := es[0];
      && ClockOk(e, w) && TaskReplyOk(e.taskReply, w) && ReportReplyOk(e.reportReply, w)
      && ResultReplyOk(TaskOf(s.heap, s.runque[0]), e.resultReply, w)
      && LegalChecks(RunChecks(s, e).1, es[1..], w)
  {
    hide RunChecks, ClockOk, TaskReplyOk, ReportReplyOk, ResultReplyOk;
  }

  lemma DueFrom<P>(s: State<P>, p: P, e: Env, w: World)
    requires p in s.heap && InTime(s.heap[p].chkTime, w) && s.heap[p].chkTime <= e.now <= e.later
    ensures Due(s, p, e)
  {
  }

  /** Three checks for each task in the registry are always enough. */
  lemma EveryDueTaskIsReached<P>(s: State<P>, es: seq<Env>, p: P, w: World)
    requires Inv(s, w) && !w.late && s.connOk && LegalChecks(s, es, w)
    requires p in s.heap && forall e | e in es :: s.heap[p].chkTime <= e.now <= e.later
    requires |es| >= 3 * |s.heap|
    ensures Reached(s, es, p)
  {
    hide *;
    InvParts(s, w);
    HoldsIn(s.runque, s.heap.Keys, p);
    AheadBound(s, p);
    DueIsReached(s, es, p, w);
  }

  lemma AheadBound<P>(s: State<P>, p: P)
    requires Holds(s.runque, s.heap.Keys) && p in s.runque
    ensures Ahead(s, p) < 3 * |s.heap|
  {
    WeightBound(s.heap, s.runque[..IndexOf(s.runque, p)]);
    QueueSize(s.runque);
    assert |s.heap| == |s.heap.Keys|;
  }

  lemma {:induction false} QueueSize<P>(q: seq<P>)
    requires Distinct(q)
    ensures |Elems(q)| == |q|
  {
    if |q| > 0 {
      var init, last := q[..|q| - 1], q[|q| - 1];
      QueueSize(init);
      assert q == init + [last];
      assert Elems(q) == Elems(init) + {last};
    }
  }

  // ----- a clock beyond the range of the comparator

  /** A task to be looked at at once is queued in front of one that is due at `time` if and only if the lower 32 bits of
      that time are a positive signed number. */
  lemma AtOnceIsFirstIff<P>(heap: map<P, Task>, p: P, q: P)
    requires p in heap && q in heap && p != q && heap[q].chkTime == 0
    ensures QueueByCheck(heap, [p], q) == (if 0 < heap[p].chkTime % 0x1_0000_0000 < 0x8000_0000 then [q, p] else [p, q])
  {
    var times := ChkTimes(heap, [p]);
    assert times == [heap[p].chkTime];
    SignOfLowBits(heap[p].chkTime);
    InsertIndexUnique(times, 0, CmpChkTime, if CmpChkTime(heap[p].chkTime, 0) > 0 then 0 else 1);
  }

  lemma SignOfLowBits(time: int)
    ensures CmpChkTime(time, 0) > 0 <==> 0 < time % 0x1_0000_0000 < 0x8000_0000
  {
  }

  /** Beyond the range, a task that is due can stand behind one that is not, and the scheduler takes no notice of it. */
  lemma LateClockHidesDue<P>(s: State<P>, p: P, q: P, e: Env)
    requires p in s.heap && q in s.heap && p != q && s.runque == [p] && s.heap[q].chkTime == 0
    requires 0 <= e.now < s.heap[p].chkTime && s.heap[p].chkTime % 0x1_0000_0000 >= 0x8000_0000
    ensures var s' := AddRun(s, q);
      q in s'.runque && Expired(s'.heap[q], e.now) && RunChecks(s', e) == (false, s')
  {
    hide QueueByCheck, QueryTask, QueryReport, QueryResult, DeleteFiles, Reschedule;
    AtOnceIsFirstIff(s.heap, p, q);
  }
}
