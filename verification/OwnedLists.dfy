/** The lists of `llist.c` as the daemon uses them: links lie inside the objects that are queued, and a link leads back
    to its owner. Every operation is proved against the sequence of owners. */
module OwnedLists {
  import opened Wrappers
  import opened Ordering
  import opened ListQueue
  import opened ListSet

  /** What a comparator reads through a link, and the object that the link lies in. A sentinel has neither, a key to
      search for has no owner. */
  datatype Key<T, P> = NoKey | Bare(val: T) | Key(val: T, owner: P)

  /** A comparator of owners that looks at one of their fields. */
  function ByVal<T, P>(cmp: (T, T) -> int): (Key<T, P>, Key<T, P>) -> int {
    (a: Key<T, P>, b: Key<T, P>) => if !a.NoKey? && !b.NoKey? then cmp(a.val, b.val) else 0
  }

  // ----- comparing owners is comparing fields

  lemma InsertIndexByVal<T, P>(ks: seq<Key<T, P>>, k: Key<T, P>, vals: seq<T>, cmp: (T, T) -> int)
    requires |ks| == |vals| && !k.NoKey? && forall i | 0 <= i < |ks| :: ks[i].Key? && ks[i].val == vals[i]
    ensures InsertIndex(ks, k, ByVal(cmp)) == InsertIndex(vals, k.val, cmp)
  {
    InsertIndexUnique(vals, k.val, cmp, InsertIndex(ks, k, ByVal(cmp)));
  }

  lemma ScanIndexByVal<T, P>(ks: seq<Key<T, P>>, k: Key<T, P>, vals: seq<T>, cmp: (T, T) -> int)
    requires |ks| == |vals| && !k.NoKey? && forall i | 0 <= i < |ks| :: ks[i].Key? && ks[i].val == vals[i]
    ensures ScanIndex(ks, k, ByVal(cmp)) == ScanIndex(vals, k.val, cmp)
    ensures Found(ks, k, ByVal(cmp)) == Found(vals, k.val, cmp)
  {
    ScanIndexUnique(vals, k.val, cmp, ScanIndex(ks, k, ByVal(cmp)));
  }

  lemma {:induction false} BinarySearchByVal<T, P>(ks: seq<Key<T, P>>, k: Key<T, P>, vals: seq<T>, low: nat, high: nat,
                                                   cmp: (T, T) -> int)
    requires |ks| == |vals| && !k.NoKey? && forall i | 0 <= i < |ks| :: ks[i].Key? && ks[i].val == vals[i]
    requires low <= high <= |ks|
    ensures BinarySearch(ks, low, high, k, ByVal(cmp)) == BinarySearch(vals, low, high, k.val, cmp)
    decreases high - low
  {
    if low < high {
      var mid := (low + high) / 2;
      BinarySearchByVal(ks, k, vals, mid + 1, high, cmp);
      BinarySearchByVal(ks, k, vals, low, mid, cmp);
    }
  }

  // ----- rings

  /** The ring queues the owners `q`. `links` are the links of all owners, queued or not, `vals` the values that they
      show, and `foot` holds every object that the ring may touch. */
  ghost predicate Queues<T(0), P>(ring: Queue<Key<T, P>>, q: seq<P>, links: map<P, Node<Key<T, P>>>,
                                  vals: map<P, T>, cmp: (T, T) -> int, foot: set<object>)
    reads foot
  {
    && ring in foot && ring.repr <= foot && (forall p | p in links :: links[p] in foot)
    && ring.Valid() && ring.cmp == ByVal(cmp) && ring.head.key.NoKey?
    && |ring.nodes| == |q|
    && (forall i | 0 <= i < |q| :: q[i] in links && ring.nodes[i] == links[q[i]])
    && (forall n | n in ring.repr :: n == ring.head || n in ring.nodes)
    && (forall p | p in links :: p in vals && links[p].key == Key(vals[p], p))
    && (forall p | p in links && p !in q :: links[p].Detached())
  }

  lemma QueuesFrom<T(0), P>(ring: Queue<Key<T, P>>, q: seq<P>, links: map<P, Node<Key<T, P>>>,
                            vals: map<P, T>, cmp: (T, T) -> int, foot: set<object>)
    requires ring in foot && ring.repr <= foot && forall p | p in links :: links[p] in foot
    requires ring.Valid() && ring.cmp == ByVal(cmp) && ring.head.key.NoKey?
    requires |ring.nodes| == |q|
    requires forall i | 0 <= i < |q| :: q[i] in links && ring.nodes[i] == links[q[i]]
    requires forall n | n in ring.repr :: n == ring.head || n in ring.nodes
    requires forall p | p in links :: p in vals && links[p].key == Key(vals[p], p)
    requires forall p | p in links && p !in q :: links[p].Detached()
    ensures Queues(ring, q, links, vals, cmp, foot)
  {
  }

  lemma QueuesParts<T(0), P>(ring: Queue<Key<T, P>>, q: seq<P>, links: map<P, Node<Key<T, P>>>,
                             vals: map<P, T>, cmp: (T, T) -> int, foot: set<object>)
    requires Queues(ring, q, links, vals, cmp, foot)
    ensures ring in foot && ring.repr <= foot && forall p | p in links :: links[p] in foot
    ensures ring.Valid() && ring.cmp == ByVal(cmp) && ring.head.key.NoKey?
    ensures |ring.nodes| == |q|
    ensures forall i | 0 <= i < |q| :: q[i] in links && q[i] in vals && ring.nodes[i] == links[q[i]]
    ensures forall n | n in ring.repr :: n == ring.head || n in ring.nodes
    ensures forall p | p in links :: p in vals && links[p].key == Key(vals[p], p)
  {
  }

  lemma QueuesNothing<T(0), P>(ring: Queue<Key<T, P>>, cmp: (T, T) -> int, foot: set<object>)
    requires ring.Valid() && ring.nodes == [] && ring.cmp == ByVal(cmp) && ring.head.key.NoKey? && ring.repr == {ring.head}
    requires ring in foot && ring.repr <= foot
    ensures Queues(ring, [], map[], map[], cmp, foot)
  {
  }

  /** `initListQue`. */
  method NewRing<T(0), P>(cmp: (T, T) -> int) returns (ring: Queue<Key<T, P>>, ghost foot: set<object>)
    ensures Queues(ring, [], map[], map[], cmp, foot) && fresh(foot)
  {
    var head := new Node<Key<T, P>>(NoKey);
    ring := new Queue(ByVal(cmp), head);
    foot := {ring, head};
    QueuesNothing(ring, cmp, foot);
  }

  /** The values of the queued owners, in order. */
  ghost function Shown<T, P>(q: seq<P>, vals: map<P, T>): (s: seq<T>)
    requires forall p | p in q :: p in vals
    ensures |s| == |q| && forall i | 0 <= i < |q| :: s[i] == vals[q[i]]
  {
    seq(|q|, i requires 0 <= i < |q| => vals[q[i]])
  }

  lemma QueuedHaveVals<T(0), P>(ring: Queue<Key<T, P>>, q: seq<P>, links: map<P, Node<Key<T, P>>>,
                                vals: map<P, T>, cmp: (T, T) -> int, foot: set<object>)
    requires Queues(ring, q, links, vals, cmp, foot)
    ensures forall p | p in q :: p in vals && p in links
  {
    forall p | p in q ensures p in vals && p in links {
      var i :| 0 <= i < |q| && q[i] == p;
    }
  }

  lemma LinkedIff<T(0), P>(ring: Queue<Key<T, P>>, q: seq<P>, links: map<P, Node<Key<T, P>>>,
                           vals: map<P, T>, cmp: (T, T) -> int, foot: set<object>, p: P)
    requires Queues(ring, q, links, vals, cmp, foot) && p in links
    ensures p in q <==> links[p] in ring.nodes
    ensures links[p] != ring.head && Distinct(q) && Distinct(ring.nodes)
    ensures p in q ==>
      var i := IndexOf(q, p);
      i < |q| && q[i] == p && ring.nodes[i] == links[p] && IndexOf(ring.nodes, links[p]) == i
    ensures p !in q ==> links[p] !in ring.repr
  {
    forall i, j | 0 <= i < j < |q| ensures q[i] != q[j] {
      assert ring.nodes[i] != ring.nodes[j];
    }
    if links[p] in ring.nodes {
      var i :| 0 <= i < |ring.nodes| && ring.nodes[i] == links[p];
      assert links[q[i]].key.owner == q[i] && links[p].key.owner == p;
      IndexOfUnique(q, i);
      IndexOfUnique(ring.nodes, i);
    }
    if p in q {
      var i :| 0 <= i < |q| && q[i] == p;
      assert ring.nodes[i] == links[p];
    }
  }

  /** `isEmpty` tells whether an owner is queued. */
  lemma QueuedIff<T(0), P>(ring: Queue<Key<T, P>>, q: seq<P>, links: map<P, Node<Key<T, P>>>,
                           vals: map<P, T>, cmp: (T, T) -> int, foot: set<object>, p: P)
    requires Queues(ring, q, links, vals, cmp, foot) && p in links
    ensures p in q <==> links[p].next != links[p]
  {
    LinkedIff(ring, q, links, vals, cmp, foot, p);
    if p in q {
      ring.LinkedNotEmpty(links[p]);
    }
  }

  lemma KeysAt<K(0)>(s: seq<Node<K>>, i: nat)
    requires i < |s|
    ensures Keys(s)[i] == s[i].key
  {
  }

  lemma ShownKeys<T(0), P>(ring: Queue<Key<T, P>>, q: seq<P>, links: map<P, Node<Key<T, P>>>,
                           vals: map<P, T>, cmp: (T, T) -> int, foot: set<object>)
    requires Queues(ring, q, links, vals, cmp, foot)
    ensures forall p | p in q :: p in vals
    ensures forall i | 0 <= i < |q| :: Keys(ring.nodes)[i].Key? && Keys(ring.nodes)[i].val == Shown(q, vals)[i]
  {
    QueuedHaveVals(ring, q, links, vals, cmp, foot);
    hide Keys;
    forall i | 0 <= i < |q| ensures Keys(ring.nodes)[i].Key? && Keys(ring.nodes)[i].val == Shown(q, vals)[i] {
      KeysAt(ring.nodes, i);
    }
  }

  /** Links outside the ring stay untouched when it changes. */
  lemma OthersOutside<T(0), P>(ring: Queue<Key<T, P>>, q: seq<P>, links: map<P, Node<Key<T, P>>>,
                               vals: map<P, T>, cmp: (T, T) -> int, foot: set<object>)
    requires Queues(ring, q, links, vals, cmp, foot)
    ensures forall x | x in links && x !in q :: links[x] !in ring.repr && links[x].Detached()
    ensures forall x, y | x in links && y in links && x != y :: links[x] != links[y]
  {
    forall x | x in links && x !in q ensures links[x] !in ring.repr {
      LinkedIff(ring, q, links, vals, cmp, foot, x);
    }
  }

  lemma InsertPairs<T(0), P>(q: seq<P>, ns: seq<Node<Key<T, P>>>, links: map<P, Node<Key<T, P>>>,
                             i: nat, p: P)
    requires |ns| == |q| && i <= |q| && p in links
    requires forall k | 0 <= k < |q| :: q[k] in links && ns[k] == links[q[k]]
    ensures var q', ns' := InsertAt(q, i, p), InsertAt(ns, i, links[p]);
      && |ns'| == |q'|
      && (forall k | 0 <= k < |q'| :: q'[k] in links && ns'[k] == links[q'[k]])
      && (forall n | n in ns || n == links[p] :: n in ns')
      && (forall x :: x in q' <==> x in q || x == p)
  {
    var q', ns' := InsertAt(q, i, p), InsertAt(ns, i, links[p]);
    InsertElems(q, p, i);
    InsertElems(ns, links[p], i);
    forall x ensures x in q' <==> x in q || x == p {
      assert x in Elems(q') <==> x in Elems(q) + {p};
    }
    forall n | n in ns || n == links[p] ensures n in ns' {
      assert n in Elems(ns');
    }
  }

  /** The place of a link among the links is the place of its value among the values. */
  lemma PlaceIs<T(0), P>(ring: Queue<Key<T, P>>, item: Node<Key<T, P>>, q: seq<P>,
                         links: map<P, Node<Key<T, P>>>, vals: map<P, T>, cmp: (T, T) -> int, foot: set<object>)
    requires Queues(ring, q, links, vals, cmp, foot) && item.key.Key?
    ensures forall p | p in q :: p in vals
    ensures Place(ring.nodes, item, ring.cmp)
         == InsertAt(ring.nodes, InsertIndex(Shown(q, vals), item.key.val, cmp), item)
  {
    hide Keys, InsertIndex, ByVal, Queue.Valid, Shown;
    ShownKeys(ring, q, links, vals, cmp, foot);
    InsertIndexByVal(Keys(ring.nodes), item.key, Shown(q, vals), cmp);
  }

  /** `push_back` for an owner that is not queued. */
  method Push<T(0), P>(ring: Queue<Key<T, P>>, item: Node<Key<T, P>>, ghost p: P, ghost q: seq<P>,
                       ghost links: map<P, Node<Key<T, P>>>, ghost vals: map<P, T>, ghost cmp: (T, T) -> int,
                       ghost foot: set<object>)
    returns (ghost q': seq<P>)
    requires Queues(ring, q, links, vals, cmp, foot) && p in links && links[p] == item && p !in q
    modifies foot
    ensures forall x | x in q :: x in vals
    ensures p in vals && q' == InsertAt(q, InsertIndex(Shown(q, vals), vals[p], cmp), p)
    ensures Queues(ring, q', links, vals, cmp, foot)
  {
    hide *;
    QueuesParts(ring, q, links, vals, cmp, foot);
    LinkedIff(ring, q, links, vals, cmp, foot, p);
    PlaceIs(ring, item, q, links, vals, cmp, foot);
    OthersOutside(ring, q, links, vals, cmp, foot);
    ghost var i := InsertIndex(Shown(q, vals), vals[p], cmp);
    InsertPairs(q, ring.nodes, links, i, p);
    q' := InsertAt(q, i, p);
    ring.PushBack(item);
    QueuesFrom(ring, q', links, vals, cmp, foot);
  }

  lemma RemovePairs<T(0), P>(q: seq<P>, ns: seq<Node<Key<T, P>>>, links: map<P, Node<Key<T, P>>>,
                             i: nat)
    requires |ns| == |q| && i < |q| && Distinct(q) && Distinct(ns)
    requires forall k | 0 <= k < |q| :: q[k] in links && ns[k] == links[q[k]]
    ensures var q', ns' := RemoveAt(q, i), RemoveAt(ns, i);
      && |ns'| == |q'|
      && (forall k | 0 <= k < |q'| :: q'[k] in links && ns'[k] == links[q'[k]])
      && (forall n | n in ns && n != ns[i] :: n in ns')
      && (forall x :: x in q' <==> x in q && x != q[i])
  {
    RemoveDistinct(q, i);
    RemoveDistinct(ns, i);
    forall k | 0 <= k < |q| - 1 ensures RemoveAt(q, i)[k] in links && RemoveAt(ns, i)[k] == links[RemoveAt(q, i)[k]] {
      RemoveAtIndex(q, i, k);
      RemoveAtIndex(ns, i, k);
    }
  }

  /** `del_item`. */
  method Remove<T(0), P>(ring: Queue<Key<T, P>>, item: Node<Key<T, P>>, ghost p: P, ghost q: seq<P>,
                         ghost links: map<P, Node<Key<T, P>>>, ghost vals: map<P, T>, ghost cmp: (T, T) -> int,
                         ghost foot: set<object>)
    returns (ghost q': seq<P>)
    requires Queues(ring, q, links, vals, cmp, foot) && p in links && links[p] == item
    modifies foot
    ensures Queues(ring, q', links, vals, cmp, foot)
    ensures q' == if p in q then RemoveAt(q, IndexOf(q, p)) else q
  {
    hide *;
    QueuesParts(ring, q, links, vals, cmp, foot);
    LinkedIff(ring, q, links, vals, cmp, foot, p);
    OthersOutside(ring, q, links, vals, cmp, foot);
    q' := q;
    if p in q {
      RemovePairs(q, ring.nodes, links, IndexOf(q, p));
      q' := RemoveAt(q, IndexOf(q, p));
    }
    var _ := ring.DelItem(item);
    QueuesFrom(ring, q', links, vals, cmp, foot);
  }

  lemma MovePairs<T(0), P>(q: seq<P>, ns: seq<Node<Key<T, P>>>, links: map<P, Node<Key<T, P>>>,
                           i: nat, j: nat)
    requires |ns| == |q| && i < |q| && Distinct(q) && Distinct(ns) && j < |q|
    requires forall k | 0 <= k < |q| :: q[k] in links && ns[k] == links[q[k]]
    ensures var q', ns' := InsertAt(RemoveAt(q, i), j, q[i]), InsertAt(RemoveAt(ns, i), j, ns[i]);
      && |ns'| == |q'|
      && (forall k | 0 <= k < |q'| :: q'[k] in links && ns'[k] == links[q'[k]])
      && (forall n | n in ns :: n in ns')
      && (forall x :: x in q' <==> x in q)
  {
    RemovePairs(q, ns, links, i);
    InsertPairs(RemoveAt(q, i), RemoveAt(ns, i), links, j, q[i]);
    assert q[i] in q;
  }

  lemma RemovedLength<T>(s: seq<T>, i: nat)
    requires i < |s|
    ensures |RemoveAt(s, i)| == |s| - 1
  {
  }

  /** Where `reque_list` puts a link, in terms of the values of the others. */
  lemma MoveIs<T(0), P>(ring: Queue<Key<T, P>>, q: seq<P>, links: map<P, Node<Key<T, P>>>, vals: map<P, T>,
                        cmp: (T, T) -> int, foot: set<object>, i: nat)
    requires Queues(ring, q, links, vals, cmp, foot) && i < |q|
    ensures forall p | p in q :: p in vals
    ensures var s := Shown(q, vals);
      Place(RemoveAt(ring.nodes, i), ring.nodes[i], ring.cmp)
      == InsertAt(RemoveAt(ring.nodes, i), InsertIndex(RemoveAt(s, i), s[i], cmp), ring.nodes[i])
  {
    hide InsertIndex, ByVal, Queue.Valid;
    ShownKeys(ring, q, links, vals, cmp, foot);
    hide Keys;
    var ks, s := Keys(ring.nodes), Shown(q, vals);
    KeysOfRemove(ring.nodes, i);
    forall k | 0 <= k < |q| - 1 ensures RemoveAt(ks, i)[k].Key? && RemoveAt(ks, i)[k].val == RemoveAt(s, i)[k] {
      RemoveAtIndex(ks, i, k);
      RemoveAtIndex(s, i, k);
    }
    InsertIndexByVal(RemoveAt(ks, i), ring.nodes[i].key, RemoveAt(s, i), cmp);
  }

  /** `reque_list`: a queued owner goes where its present value belongs. */
  method Requeue<T(0), P>(ring: Queue<Key<T, P>>, item: Node<Key<T, P>>, ghost p: P, ghost q: seq<P>,
                          ghost links: map<P, Node<Key<T, P>>>, ghost vals: map<P, T>, ghost cmp: (T, T) -> int,
                          ghost foot: set<object>)
    returns (ghost q': seq<P>)
    requires Queues(ring, q, links, vals, cmp, foot) && p in links && links[p] == item
    modifies foot
    ensures forall x | x in q :: x in vals
    ensures p !in q ==> q' == q
    ensures p in q ==>
      var i := IndexOf(q, p);
      i < |q| && q' == InsertAt(RemoveAt(q, i), InsertIndex(RemoveAt(Shown(q, vals), i), vals[p], cmp), p)
    ensures Queues(ring, q', links, vals, cmp, foot)
  {
    hide *;
    QueuesParts(ring, q, links, vals, cmp, foot);
    QueuedHaveVals(ring, q, links, vals, cmp, foot);
    LinkedIff(ring, q, links, vals, cmp, foot, p);
    OthersOutside(ring, q, links, vals, cmp, foot);
    q' := q;
    ghost var ns, target := ring.nodes, ring.nodes;
    if p in q {
      ghost var i, s := IndexOf(q, p), Shown(q, vals);
      MoveIs(ring, q, links, vals, cmp, foot, i);
      ghost var j := InsertIndex(RemoveAt(s, i), s[i], cmp);
      RemovedLength(s, i);
      RemovedLength(q, i);
      MovePairs(q, ns, links, i, j);
      q' := InsertAt(RemoveAt(q, i), j, p);
      target := Place(RemoveAt(ns, i), item, ring.cmp);
    }
    ring.RequeList(item);
    assert p in q ==> target == Place(RemoveAt(ns, IndexOf(q, p)), item, ring.cmp);
    QueuesFrom(ring, q', links, vals, cmp, foot);
  }

  /** Changing the value of a link in place leaves the ring closed; the order is another matter. */
  method SetVal<T(0), P>(ring: Queue<Key<T, P>>, item: Node<Key<T, P>>, v: T, p: P, ghost q: seq<P>,
                         ghost links: map<P, Node<Key<T, P>>>, ghost vals: map<P, T>, ghost cmp: (T, T) -> int,
                         ghost foot: set<object>)
    requires Queues(ring, q, links, vals, cmp, foot) && p in links && links[p] == item
    modifies foot
    ensures Queues(ring, q, links, vals[p := v], cmp, foot)
  {
    LinkedIff(ring, q, links, vals, cmp, foot, p);
    OthersOutside(ring, q, links, vals, cmp, foot);
    item.key := Key(v, p);
  }

  /** An owner that is not queued can be left out of the account, or taken into it. */
  lemma QueuesWithout<T(0), P>(ring: Queue<Key<T, P>>, q: seq<P>, links: map<P, Node<Key<T, P>>>,
                               vals: map<P, T>, cmp: (T, T) -> int, foot: set<object>, p: P)
    requires Queues(ring, q, links, vals, cmp, foot) && p !in q
    ensures Queues(ring, q, links - {p}, vals - {p}, cmp, foot)
  {
    hide Queue.Valid, ByVal;
  }

  lemma QueuesWith<T(0), P>(ring: Queue<Key<T, P>>, q: seq<P>, links: map<P, Node<Key<T, P>>>,
                            vals: map<P, T>, cmp: (T, T) -> int, foot: set<object>, p: P, item: Node<Key<T, P>>)
    requires Queues(ring, q, links, vals, cmp, foot) && p !in links && item.Detached() && item.key.Key?
    requires item.key.owner == p
    ensures Queues(ring, q, links[p := item], vals[p := item.key.val], cmp, foot + {item})
  {
    hide Queue.Valid, ByVal;
  }

  /** `get_head`, as the owner of the first link. */
  method Head<T(0), P>(ring: Queue<Key<T, P>>, ghost q: seq<P>, ghost links: map<P, Node<Key<T, P>>>,
                       ghost vals: map<P, T>, ghost cmp: (T, T) -> int, ghost foot: set<object>)
    returns (p: Option<P>)
    requires Queues(ring, q, links, vals, cmp, foot)
    ensures p == if |q| == 0 then None else Some(q[0])
  {
    var item := ring.GetHead();
    if item == null {
      return None;
    }
    assert q[0] in links;
    return Some(item.key.owner);
  }

  /** Behind a queued link, as `for_each` walks the ring. */
  method Behind<T(0), P>(ring: Queue<Key<T, P>>, item: Node<Key<T, P>>, ghost q: seq<P>,
                         ghost links: map<P, Node<Key<T, P>>>, ghost vals: map<P, T>, ghost cmp: (T, T) -> int,
                         ghost foot: set<object>, ghost i: nat)
    returns (p: Option<P>)
    requires Queues(ring, q, links, vals, cmp, foot) && i < |q| && q[i] in links && links[q[i]] == item
    ensures p == if i + 1 < |q| then Some(q[i + 1]) else None
  {
    ring.NextAfter(ring.nodes[..i], ring.nodes[i..]);
    if item.next == ring.head {
      return None;
    }
    assert ring.nodes[i..][1] == ring.nodes[i + 1];
    assert q[i + 1] in links;
    return Some(item.next.key.owner);
  }

  // ----- arrays

  function Slots<T, P>(q: seq<P>, vals: seq<T>): (s: seq<Key<T, P>>)
    requires |q| == |vals|
    ensures |s| == |q|
    ensures forall i | 0 <= i < |q| :: s[i] == Key(vals[i], q[i])
  {
    seq(|q|, i requires 0 <= i < |q| => Key(vals[i], q[i]))
  }

  /** The array holds the owners `q` under the names `vals`. */
  ghost predicate Holds<T(0), P>(arr: Set<Key<T, P>>, q: seq<P>, vals: seq<T>, cmp: (T, T) -> int)
    reads arr, arr.data
  {
    arr.Valid() && arr.cmp == ByVal(cmp) && |q| == |vals| && arr.Contents() == Slots(q, vals)
  }

  lemma HoldsNothing<T(0), P>(arr: Set<Key<T, P>>, cmp: (T, T) -> int)
    requires arr.Valid() && arr.Contents() == [] && arr.cmp == ByVal(cmp)
    ensures Holds(arr, [], [], cmp)
  {
  }

  /** `initListSet`. */
  method NewArray<T(0), P>(cmp: (T, T) -> int) returns (arr: Set<Key<T, P>>)
    ensures Holds(arr, [], [], cmp) && fresh(arr) && fresh(arr.data) && arr.data.Length == GROWTH_STEP
  {
    arr := new Set(ByVal(cmp), NoKey);
    HoldsNothing(arr, cmp);
  }

  lemma SlotsInsert<T, P>(q: seq<P>, vals: seq<T>, i: nat, p: P, v: T)
    requires |q| == |vals| && i <= |q|
    ensures |InsertAt(q, i, p)| == |InsertAt(vals, i, v)|
    ensures Slots(InsertAt(q, i, p), InsertAt(vals, i, v)) == InsertAt(Slots(q, vals), i, Key(v, p))
  {
  }

  lemma SlotsRemove<T, P>(q: seq<P>, vals: seq<T>, i: nat)
    requires |q| == |vals| && i < |q|
    ensures |RemoveAt(q, i)| == |RemoveAt(vals, i)|
    ensures Slots(RemoveAt(q, i), RemoveAt(vals, i)) == RemoveAt(Slots(q, vals), i)
  {
  }

  /** `addToSet`. */
  method AddOwner<T(0), P>(arr: Set<Key<T, P>>, v: T, p: P, memory: bool, ghost q: seq<P>, ghost vals: seq<T>,
                           ghost cmp: (T, T) -> int)
    returns (ret: int, ghost q': seq<P>, ghost vals': seq<T>)
    requires Holds(arr, q, vals, cmp)
    modifies arr, arr.data
    ensures Holds(arr, q', vals', cmp) && (arr.data == old(arr.data) || fresh(arr.data))
    ensures |q| <= old(arr.data.Length)
    ensures ret == if |q| < old(arr.data.Length) || memory then 0 else -1
    ensures arr.data.Length
         == old(arr.data.Length) + if |q| == old(arr.data.Length) && memory then GROWTH_STEP else 0
    ensures var i := InsertIndex(vals, v, cmp);
      if ret == 0 then q' == InsertAt(q, i, p) && vals' == InsertAt(vals, i, v) else q' == q && vals' == vals
  {
    hide InsertIndex, ByVal;
    ghost var k := Key(v, p);
    InsertIndexByVal(Slots(q, vals), k, vals, cmp);
    SlotsInsert(q, vals, InsertIndex(vals, v, cmp), p, v);
    ret := arr.AddToSet(Key(v, p), memory);
    q', vals' := q, vals;
    if ret == 0 {
      q', vals' := InsertAt(q, InsertIndex(vals, v, cmp), p), InsertAt(vals, InsertIndex(vals, v, cmp), v);
    }
  }

  /** `delFromSet`. */
  method DelOwner<T(0), P>(arr: Set<Key<T, P>>, v: T, ghost q: seq<P>, ghost vals: seq<T>, ghost cmp: (T, T) -> int)
    returns (r: Option<P>, ghost q': seq<P>, ghost vals': seq<T>)
    requires Holds(arr, q, vals, cmp)
    modifies arr`size, arr.data
    ensures Holds(arr, q', vals', cmp)
    ensures !Found(vals, v, cmp) ==> r == None && q' == q && vals' == vals
    ensures Found(vals, v, cmp) ==>
      var i := ScanIndex(vals, v, cmp);
      i < |q| && r == Some(q[i]) && q' == RemoveAt(q, i) && vals' == RemoveAt(vals, i)
  {
    hide ScanIndex, ByVal;
    ghost var k: Key<T, P> := Bare(v);
    ScanIndexByVal(Slots(q, vals), k, vals, cmp);
    var slot := arr.DelFromSet(Bare(v));
    q', vals', r := q, vals, None;
    if slot.Some? {
      ghost var i := ScanIndex(vals, v, cmp);
      SlotsRemove(q, vals, i);
      q', vals', r := RemoveAt(q, i), RemoveAt(vals, i), Some(slot.value.owner);
    }
  }

  /** `searchListSet`. */
  method FindOwner<T(0), P>(arr: Set<Key<T, P>>, v: T, ghost q: seq<P>, ghost vals: seq<T>, ghost cmp: (T, T) -> int)
    returns (r: Option<P>)
    requires Holds(arr, q, vals, cmp)
    ensures match BinarySearch(vals, 0, |vals|, v, cmp)
            case Some(i) => i < |q| && r == Some(q[i])
            case None => r == None
  {
    hide BinarySearch, ByVal;
    BinarySearchByVal(Slots(q, vals), Bare(v), vals, 0, |vals|, cmp);
    var slot := arr.Search(Bare(v));
    r := if slot.Some? then Some(slot.value.owner) else None;
  }
}
