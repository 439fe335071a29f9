/** What the registry operations keep: the name array and the creation queue always hold the same tasks, in
    order and with pairwise different names, and a rolled back step leaves no trace in the set of tasks. */
module Registry {
  import opened Wrappers
  import opened Ordering
  import opened StrOrder
  import opened ListSet
  import opened DaemonState

  /** The queue holds exactly these tasks, each once. */
  ghost predicate Holds<P>(q: seq<P>, m: set<P>) {
    Distinct(q) && Elems(q) == m
  }

  /** The registry is in order and its tasks are `m`. */
  ghost predicate InOrder<P>(s: State<P>, m: set<P>) {
    && Holds(s.createque, m) && Holds(s.nameset, m)
    && m <= s.heap.Keys
    && StrictlySorted(Names(s.heap, s.nameset), StrCmp)
    && Sorted(CreateTimes(s.heap, s.createque), StrCmp)
    && |s.nameset| <= s.capacity
  }

  function NameOf<P(==)>(s: State<P>, p: P): string {
    TaskOf(s.heap, p).rec.taskName
  }

  ghost predicate NameFree<P>(s: State<P>, m: set<P>, name: string) {
    forall p | p in m :: NameOf(s, p) != name
  }

  // ----- sequences of tasks

  lemma {:induction false} WithoutIsRemove<P>(q: seq<P>, p: P)
    requires p in q
    ensures Without(q, p) == RemoveAt(q, IndexOf(q, p))
  {
    if q[0] != p {
      WithoutIsRemove(q[1..], p);
      RemoveNext(q, IndexOf(q[1..], p));
    }
  }

  lemma RemoveNext<P>(q: seq<P>, i: nat)
    requires |q| > 0 && i < |q| - 1
    ensures RemoveAt(q, i + 1) == [q[0]] + RemoveAt(q[1..], i)
  {
  }

  lemma {:induction false} WithoutAbsent<P>(q: seq<P>, p: P)
    requires p !in q
    ensures Without(q, p) == q
  {
    if |q| > 0 {
      WithoutAbsent(q[1..], p);
    }
  }

  lemma RemoveHolds<P>(q: seq<P>, i: nat, m: set<P>)
    requires Holds(q, m) && i < |q|
    ensures q[i] in m && Holds(RemoveAt(q, i), m - {q[i]})
  {
  }

  lemma WithoutHolds<P>(q: seq<P>, p: P, m: set<P>)
    requires Holds(q, m) && p in m
    ensures p in q && Holds(Without(q, p), m - {p})
    ensures Without(q, p) == RemoveAt(q, IndexOf(q, p))
  {
    assert p in Elems(q);
    WithoutIsRemove(q, p);
    RemoveHolds(q, IndexOf(q, p), m);
  }

  lemma InsertHolds<P>(q: seq<P>, i: nat, p: P, m: set<P>)
    requires Holds(q, m) && i <= |q| && p !in m
    ensures Holds(InsertAt(q, i, p), m + {p})
  {
  }

  /** Taking the element out again undoes an insertion. */
  lemma {:induction false} WithoutInsert<P>(q: seq<P>, i: nat, p: P)
    requires i <= |q| && p !in q
    ensures Without(InsertAt(q, i, p), p) == q
  {
    if i == 0 {
    } else {
      assert InsertAt(q, i, p) == [q[0]] + InsertAt(q[1..], i - 1, p);
      WithoutInsert(q[1..], i - 1, p);
    }
  }

  lemma KeysInsert<P>(heap: map<P, Task>, q: seq<P>, i: nat, p: P)
    requires i <= |q|
    ensures Names(heap, InsertAt(q, i, p)) == InsertAt(Names(heap, q), i, TaskOf(heap, p).rec.taskName)
    ensures CreateTimes(heap, InsertAt(q, i, p)) == InsertAt(CreateTimes(heap, q), i, TaskOf(heap, p).rec.createTime)
    ensures ChkTimes(heap, InsertAt(q, i, p)) == InsertAt(ChkTimes(heap, q), i, TaskOf(heap, p).chkTime)
  {
    hide Names, CreateTimes, ChkTimes;
    forall k | 0 <= k <= |q|
      ensures Names(heap, InsertAt(q, i, p))[k] == InsertAt(Names(heap, q), i, TaskOf(heap, p).rec.taskName)[k]
      ensures CreateTimes(heap, InsertAt(q, i, p))[k]
           == InsertAt(CreateTimes(heap, q), i, TaskOf(heap, p).rec.createTime)[k]
      ensures ChkTimes(heap, InsertAt(q, i, p))[k] == InsertAt(ChkTimes(heap, q), i, TaskOf(heap, p).chkTime)[k]
    {
      InsertAtIndex(q, i, p, k);
      InsertAtIndex(Names(heap, q), i, TaskOf(heap, p).rec.taskName, k);
      InsertAtIndex(CreateTimes(heap, q), i, TaskOf(heap, p).rec.createTime, k);
      InsertAtIndex(ChkTimes(heap, q), i, TaskOf(heap, p).chkTime, k);
    }
  }

  lemma KeysRemove<P>(heap: map<P, Task>, q: seq<P>, i: nat)
    requires i < |q|
    ensures Names(heap, RemoveAt(q, i)) == RemoveAt(Names(heap, q), i)
    ensures CreateTimes(heap, RemoveAt(q, i)) == RemoveAt(CreateTimes(heap, q), i)
    ensures ChkTimes(heap, RemoveAt(q, i)) == RemoveAt(ChkTimes(heap, q), i)
  {
    hide Names, CreateTimes, ChkTimes;
    forall k | 0 <= k < |q| - 1
      ensures Names(heap, RemoveAt(q, i))[k] == RemoveAt(Names(heap, q), i)[k]
      ensures CreateTimes(heap, RemoveAt(q, i))[k] == RemoveAt(CreateTimes(heap, q), i)[k]
      ensures ChkTimes(heap, RemoveAt(q, i))[k] == RemoveAt(ChkTimes(heap, q), i)[k]
    {
      RemoveAtIndex(q, i, k);
      RemoveAtIndex(Names(heap, q), i, k);
      RemoveAtIndex(CreateTimes(heap, q), i, k);
      RemoveAtIndex(ChkTimes(heap, q), i, k);
    }
  }

  // ----- adding

  /** Adding a task under a new name keeps the registry in order; and while the name array has a free slot, it
      cannot fail. */
  lemma AddInOrder<P>(s: State<P>, p: P, memory: bool, m: set<P>)
    requires InOrder(s, m) && p !in m && p in s.heap && NameFree(s, m, NameOf(s, p))
    ensures |s.nameset| < s.capacity ==> AddTask(s, p, memory).Some?
    ensures AddTask(s, p, memory).Some? ==>
      var s' := AddTask(s, p, memory).value;
      InOrder(s', m + {p}) && s'.heap == s.heap && s'.file == s.file && s'.saved == s.saved && s'.runque == s.runque
  {
    var names, times := Names(s.heap, s.nameset), CreateTimes(s.heap, s.createque);
    var name, time := NameOf(s, p), TaskOf(s.heap, p).rec.createTime;
    var i, j := InsertIndex(names, name, StrCmp), InsertIndex(times, time, StrCmp);
    hide Names, CreateTimes, StrictlySorted, Sorted, Holds, InsertIndex, InsertAt;
    InsertHolds(s.nameset, i, p, m);
    InsertHolds(s.createque, j, p, m);
    KeysInsert(s.heap, s.nameset, i, p);
    KeysInsert(s.heap, s.createque, j, p);
    StrCmpPreorder(Elems(names) + {name});
    StrCmpPreorder(Elems(times) + {time});
    NamesDiffer(s, m, name);
    InsertStrictlySorted(names, name, StrCmp);
    InsertSorted(times, time, StrCmp);
    InsertAtLength(s.nameset, i, p);
  }

  lemma InsertAtLength<T>(q: seq<T>, i: nat, x: T)
    requires i <= |q|
    ensures |InsertAt(q, i, x)| == |q| + 1
  {
  }

  lemma NamesDiffer<P>(s: State<P>, m: set<P>, name: string)
    requires Holds(s.nameset, m) && NameFree(s, m, name)
    ensures forall y | y in Names(s.heap, s.nameset) :: StrCmp(y, name) != 0
  {
    var names := Names(s.heap, s.nameset);
    forall y | y in names ensures StrCmp(y, name) != 0 {
      var k :| 0 <= k < |names| && names[k] == y;
      assert s.nameset[k] in Elems(s.nameset);
      assert NameOf(s, s.nameset[k]) != name;
      StrCmpZero(y, name);
    }
  }

  // ----- finding

  lemma NameAt<P>(s: State<P>, m: set<P>, name: string)
    requires InOrder(s, m)
    ensures var names := Names(s.heap, s.nameset);
      && (Found(names, name, StrCmp) <==> !NameFree(s, m, name))
      && (Found(names, name, StrCmp) ==> names[ScanIndex(names, name, StrCmp)] == name)
  {
    var names := Names(s.heap, s.nameset);
    StrCmpPreorder(Elems(names) + {name});
    StrictlySortedIsSorted(names, StrCmp);
    FoundIffMember(names, name, StrCmp);
    if Found(names, name, StrCmp) {
      var i := ScanIndex(names, name, StrCmp);
      StrCmpZero(names[i], name);
      assert s.nameset[i] in Elems(s.nameset);
      assert NameOf(s, s.nameset[i]) == name;
    }
    if !NameFree(s, m, name) {
      var p :| p in m && NameOf(s, p) == name;
      assert p in Elems(s.nameset);
      var k :| 0 <= k < |s.nameset| && s.nameset[k] == p;
      StrCmpZero(names[k], name);
    }
  }

  /** Looking a name up finds the one task of that name, and nothing exactly when there is none. */
  lemma FindIsLookup<P>(s: State<P>, m: set<P>, name: string)
    requires InOrder(s, m)
    ensures FindTask(s, name).None? <==> NameFree(s, m, name)
    ensures FindTask(s, name).Some? ==>
      var p := FindTask(s, name).value; p in m && p in s.heap && NameOf(s, p) == name
  {
    var names := Names(s.heap, s.nameset);
    NameAt(s, m, name);
    hide NameFree, Found;
    StrCmpPreorder(Elems(names) + {name});
    StrictlySortedIsSorted(names, StrCmp);
    BinarySearchIsScan(names, name, StrCmp);
    var r := BinarySearch(names, 0, |names|, name, StrCmp);
    if r.Some? {
      StrCmpZero(names[r.value], name);
      assert s.nameset[r.value] in Elems(s.nameset);
    }
  }

  lemma OneTaskPerName<P>(s: State<P>, m: set<P>, i: nat, j: nat)
    requires InOrder(s, m) && i < |s.nameset| && j < |s.nameset|
    requires NameOf(s, s.nameset[i]) == NameOf(s, s.nameset[j])
    ensures i == j
  {
    var names := Names(s.heap, s.nameset);
    StrCmpZero(names[i], names[i]);
  }

  // ----- deleting

  /** Deleting by the name of a task takes out that very task. */
  lemma DeleteInOrder<P>(s: State<P>, p: P, m: set<P>)
    requires InOrder(s, m) && p in m
    ensures var r := DelTask(s, NameOf(s, p));
      && r.Some?
      && InOrder(r.value, m - {p})
      && |r.value.nameset| < r.value.capacity
      && p in s.nameset && r.value.nameset == RemoveAt(s.nameset, IndexOf(s.nameset, p))
      && r.value == s.(nameset := r.value.nameset, createque := Without(s.createque, p))
  {
    var names := Names(s.heap, s.nameset);
    ScanFindsTask(s, p, m);
    hide Found, ScanIndex, Names, CreateTimes, StrictlySorted, Sorted, Holds, Without, RemoveAt;
    var i := IndexOf(s.nameset, p);
    WithoutHolds(s.createque, p, m);
    RemoveHolds(s.nameset, i, m);
    KeysRemove(s.heap, s.nameset, i);
    KeysRemove(s.heap, s.createque, IndexOf(s.createque, p));
    RemoveSorted(names, i, StrCmp);
    RemoveSorted(CreateTimes(s.heap, s.createque), IndexOf(s.createque, p), StrCmp);
    RemoveAtLength(s.nameset, i);
  }

  lemma ScanFindsTask<P>(s: State<P>, p: P, m: set<P>)
    requires InOrder(s, m) && p in m
    ensures p in s.nameset
    ensures var names := Names(s.heap, s.nameset);
      Found(names, NameOf(s, p), StrCmp) && ScanIndex(names, NameOf(s, p), StrCmp) == IndexOf(s.nameset, p)
  {
    var name := NameOf(s, p);
    NameAt(s, m, name);
    assert !NameFree(s, m, name);
    assert p in Elems(s.nameset);
    OneTaskPerName(s, m, ScanIndex(Names(s.heap, s.nameset), name, StrCmp), IndexOf(s.nameset, p));
  }

  // ----- tasks that change elsewhere

  /** The two heaps agree on the keys that the registry is ordered by, for every task of `m`. */
  ghost predicate SameKeys<P>(h: map<P, Task>, h': map<P, Task>, m: set<P>) {
    forall p | p in m :: p in h && p in h'
      && h[p].rec.taskName == h'[p].rec.taskName && h[p].rec.createTime == h'[p].rec.createTime
  }

  lemma KeysFrame<P>(h: map<P, Task>, h': map<P, Task>, q: seq<P>, m: set<P>)
    requires SameKeys(h, h', m) && Elems(q) <= m
    ensures Names(h, q) == Names(h', q)
    ensures CreateTimes(h, q) == CreateTimes(h', q)
  {
  }

  lemma ChkTimesFrame<P>(h: map<P, Task>, h': map<P, Task>, q: seq<P>)
    requires forall p | p in q :: p in h && p in h' && h[p].chkTime == h'[p].chkTime
    ensures ChkTimes(h, q) == ChkTimes(h', q)
  {
  }

  /** Only names and creation times matter for the order of the registry. */
  lemma InOrderFrame<P>(s: State<P>, s': State<P>, m: set<P>)
    requires InOrder(s, m) && SameKeys(s.heap, s'.heap, m)
    requires s'.createque == s.createque && s'.nameset == s.nameset && s'.capacity == s.capacity
    ensures InOrder(s', m)
  {
    KeysFrame(s.heap, s'.heap, s.createque, m);
    KeysFrame(s.heap, s'.heap, s.nameset, m);
    hide Names, CreateTimes, StrictlySorted, Sorted, Holds;
  }

  // ----- roll back

  /** Rolling a failed creation back restores both the name array and the creation queue as they were. */
  lemma AddThenDelete<P>(s: State<P>, p: P, memory: bool, m: set<P>)
    requires InOrder(s, m) && p !in m && p in s.heap && NameFree(s, m, NameOf(s, p))
    requires AddTask(s, p, memory).Some?
    ensures var r := DelTask(AddTask(s, p, memory).value, NameOf(s, p));
      r.Some? && r.value.nameset == s.nameset && r.value.createque == s.createque
      && r.value == s.(capacity := r.value.capacity) && s.capacity <= r.value.capacity
  {
    var added := AddTask(s, p, memory).value;
    AddInOrder(s, p, memory, m);
    DeleteInOrder(added, p, m + {p});
    AbsentFrom(s.nameset, p, m);
    AbsentFrom(s.createque, p, m);
    hide Names, CreateTimes, InsertAt, RemoveAt, InOrder;
    WithoutInsert(s.nameset, InsertIndex(Names(s.heap, s.nameset), NameOf(s, p), StrCmp), p);
    WithoutInsert(s.createque, InsertIndex(CreateTimes(s.heap, s.createque), TaskOf(s.heap, p).rec.createTime, StrCmp), p);
    WithoutIsRemove(added.nameset, p);
  }

  lemma AbsentFrom<P>(q: seq<P>, p: P, m: set<P>)
    requires Holds(q, m) && p !in m
    ensures p !in q
  {
  }

  /** Taking an element out of a queue and inserting it again by its key puts it back in its place exactly when
      no element behind it has the same key. */
  lemma ReinsertIff<K>(keys: seq<K>, i: nat, cmp: (K, K) -> int)
    requires i < |keys| && Sorted(keys, cmp) && Preorder(cmp, Elems(keys))
    ensures InsertIndex(RemoveAt(keys, i), keys[i], cmp) == i
       <==> (i + 1 < |keys| ==> cmp(keys[i + 1], keys[i]) != 0)
  {
    var rest, x := RemoveAt(keys, i), keys[i];
    RemoveAtLength(keys, i);
    if i + 1 < |keys| && cmp(keys[i + 1], x) == 0 {
      RemoveAtIndex(keys, i, i);
    } else {
      forall j | i <= j < |rest| ensures cmp(rest[j], x) > 0 {
        RemoveAtIndex(keys, i, j);
        GreaterBehind(keys, i, j + 1, cmp);
      }
      if i > 0 {
        RemoveAtIndex(keys, i, i - 1);
        assert cmp(keys[i - 1], keys[i]) <= 0;
      }
      hide *;
      InsertIndexUnique(rest, x, cmp, i);
    }
  }

  lemma GreaterBehind<K>(keys: seq<K>, i: nat, j: nat, cmp: (K, K) -> int)
    requires i < j < |keys| && Sorted(keys, cmp) && Preorder(cmp, Elems(keys))
    requires cmp(keys[i + 1], keys[i]) != 0
    ensures cmp(keys[j], keys[i]) > 0
  {
    var x, y, z := keys[i], keys[i + 1], keys[j];
    assert x in Elems(keys) && y in Elems(keys) && z in Elems(keys);
    assert cmp(keys[i], keys[i + 1]) <= 0;
    if i + 1 < j {
      assert cmp(keys[i + 1], keys[j]) <= 0;
    }
    assert cmp(keys[i], keys[j]) <= 0;
    assert Lawful(cmp, y, z, x) && Lawful(cmp, x, y, z) && Lawful(cmp, x, z, x) && Lawful(cmp, z, x, y) && Lawful(cmp, z, z, z);
  }

  lemma RemoveAtLength<T>(q: seq<T>, i: nat)
    requires i < |q|
    ensures |RemoveAt(q, i)| == |q| - 1
  {
  }

  lemma InsertBack<T>(q: seq<T>, i: nat, j: nat)
    requires i < |q| && j <= |q| - 1 && Distinct(q)
    ensures InsertAt(RemoveAt(q, i), j, q[i]) == q <==> i == j
  {
  }

  /** Rolling a failed deletion back cannot fail. It restores the name array as it was; the creation queue gets the
      same tasks in order again, but in the same places exactly when the next task was created at another time. */
  lemma DeleteThenAdd<P>(s: State<P>, p: P, memory: bool, m: set<P>)
    requires InOrder(s, m) && p in m
    ensures var removed := DelTask(s, NameOf(s, p));
      && removed.Some? && AddTask(removed.value, p, memory).Some?
      && var s' := AddTask(removed.value, p, memory).value;
      && InOrder(s', m)
      && s'.nameset == s.nameset
      && s' == s.(createque := s'.createque)
      && p in s.createque
      && var i, times := IndexOf(s.createque, p), CreateTimes(s.heap, s.createque);
      && (s'.createque == s.createque <==> (i + 1 < |times| ==> times[i + 1] != times[i]))
  {
    DeleteInOrder(s, p, m);
    var removed := DelTask(s, NameOf(s, p)).value;
    NameOnlyOnce(s, p, m);
    AddInOrder(removed, p, memory, m - {p});
    var s' := AddTask(removed, p, memory).value;
    assert m - {p} + {p} == m;
    BackInPlace(s, removed, s', p, memory, m);
  }

  lemma NameOnlyOnce<P>(s: State<P>, p: P, m: set<P>)
    requires InOrder(s, m) && p in m
    ensures NameFree(s, m - {p}, NameOf(s, p))
  {
    forall q | q in m - {p} ensures NameOf(s, q) != NameOf(s, p) {
      assert q in Elems(s.nameset) && p in Elems(s.nameset);
      var i, j := IndexOf(s.nameset, q), IndexOf(s.nameset, p);
      if NameOf(s, s.nameset[i]) == NameOf(s, s.nameset[j]) {
        OneTaskPerName(s, m, i, j);
      }
    }
  }

  lemma BackInPlace<P>(s: State<P>, removed: State<P>, s': State<P>, p: P, memory: bool, m: set<P>)
    requires InOrder(s, m) && p in m && p in s.nameset && p in s.createque
    requires removed == s.(nameset := RemoveAt(s.nameset, IndexOf(s.nameset, p)), createque := Without(s.createque, p))
    requires |removed.nameset| < removed.capacity
    requires AddTask(removed, p, memory) == Some(s')
    ensures s'.nameset == s.nameset
    ensures s' == s.(createque := s'.createque)
    ensures var i, times := IndexOf(s.createque, p), CreateTimes(s.heap, s.createque);
      s'.createque == s.createque <==> (i + 1 < |times| ==> times[i + 1] != times[i])
  {
    var k, i := IndexOf(s.nameset, p), IndexOf(s.createque, p);
    WithoutIsRemove(s.createque, p);
    NameBack(s.heap, s.nameset, k);
    TimeBack(s.heap, s.createque, i);
    RemoveAtLength(s.nameset, k);
    hide *;
  }

  lemma NameBack<P>(heap: map<P, Task>, q: seq<P>, k: nat)
    requires k < |q| && Distinct(q) && StrictlySorted(Names(heap, q), StrCmp)
    ensures InsertAt(RemoveAt(q, k), InsertIndex(Names(heap, RemoveAt(q, k)), TaskOf(heap, q[k]).rec.taskName, StrCmp), q[k]) == q
  {
    var names := Names(heap, q);
    KeysRemove(heap, q, k);
    StrCmpPreorder(Elems(names));
    StrictlySortedIsSorted(names, StrCmp);
    ReinsertIff(names, k, StrCmp);
    if k + 1 < |names| {
      StrictNeighbours(names, k);
    }
    RemoveAtLength(q, k);
    InsertBack(q, k, InsertIndex(RemoveAt(names, k), names[k], StrCmp));
  }

  lemma TimeBack<P>(heap: map<P, Task>, q: seq<P>, i: nat)
    requires i < |q| && Distinct(q) && Sorted(CreateTimes(heap, q), StrCmp)
    ensures var times := CreateTimes(heap, q);
      InsertAt(RemoveAt(q, i), InsertIndex(CreateTimes(heap, RemoveAt(q, i)), times[i], StrCmp), q[i]) == q
      <==> (i + 1 < |times| ==> times[i + 1] != times[i])
  {
    var times := CreateTimes(heap, q);
    KeysRemove(heap, q, i);
    StrCmpPreorder(Elems(times));
    ReinsertIff(times, i, StrCmp);
    if i + 1 < |times| {
      StrCmpZero(times[i + 1], times[i]);
    }
    RemoveAtLength(q, i);
    InsertBack(q, i, InsertIndex(RemoveAt(times, i), times[i], StrCmp));
  }

  lemma StrictNeighbours(names: seq<string>, k: nat)
    requires StrictlySorted(names, StrCmp) && k + 1 < |names|
    ensures StrCmp(names[k + 1], names[k]) != 0
  {
    assert StrCmp(names[k], names[k + 1]) < 0;
    StrCmpZero(names[k + 1], names[k]);
    StrCmpZero(names[k], names[k + 1]);
  }
}
