/** The intrusive ring of `llist.c`: a sentinel and doubly linked nodes kept sorted by a comparator. Every
    method is proved against the sequence of nodes that the ring stands for. */
module ListQueue {
  import opened Ordering

  /** A link together with what the comparator reads through it. The key may be changed in place. */
  class Node<K(0)> {
    var prev: Node<K>
    var next: Node<K>
    var key: K

    constructor (key: K)
      ensures Detached() && this.key == key
    {
      this.key := key;
      prev := this;
      next := this;
    }

    /** The state `reset` leaves a node in, and the test made by `isEmpty`. */
    ghost predicate Detached()
      reads this
    {
      prev == this && next == this
    }
  }

  ghost function Keys<K(0)>(s: seq<Node<K>>): (ks: seq<K>)
    reads s`key
    ensures |ks| == |s|
    ensures forall i | 0 <= i < |s| :: ks[i] == s[i].key
  {
    if |s| == 0 then [] else Keys(s[..|s| - 1]) + [s[|s| - 1].key]
  }

  /** `s` with `item` put behind the last node that is not greater than it. */
  ghost function Place<K(0)>(s: seq<Node<K>>, item: Node<K>, cmp: (K, K) -> int): seq<Node<K>>
    reads s`key, item`key
  {
    InsertAt(s, InsertIndex(Keys(s), item.key, cmp), item)
  }

  /** On the keys, placing a node is the stable sorted insertion. */
  lemma KeysOfPlace<K(0)>(s: seq<Node<K>>, item: Node<K>, cmp: (K, K) -> int)
    ensures Keys(Place(s, item, cmp)) == Insert(Keys(s), item.key, cmp)
  {
  }

  /** `push_back` keeps a sorted ring sorted. */
  lemma PlaceKeepsSorted<K(0)>(s: seq<Node<K>>, item: Node<K>, cmp: (K, K) -> int)
    requires Preorder(cmp, Elems(Keys(s)) + {item.key})
    requires Sorted(Keys(s), cmp)
    ensures Sorted(Keys(Place(s, item, cmp)), cmp)
  {
    KeysOfPlace(s, item, cmp);
    InsertSorted(Keys(s), item.key, cmp);
  }

  /** `reque_list` after the key of the node at `i` was overwritten: if the other keys are in order, all are in
      order again, wherever the new key belongs. */
  lemma MoveRestoresOrder<K(0)>(s: seq<Node<K>>, i: nat, cmp: (K, K) -> int)
    requires i < |s| && Preorder(cmp, Elems(Keys(s)))
    requires Sorted(RemoveAt(Keys(s), i), cmp)
    ensures Sorted(Keys(Place(RemoveAt(s, i), s[i], cmp)), cmp)
  {
    KeysOfRemove(s, i);
    RemoveElems(Keys(s), i);
    hide *;
    PlaceKeepsSorted(RemoveAt(s, i), s[i], cmp);
  }

  lemma KeysOfRemove<K(0)>(s: seq<Node<K>>, i: nat)
    requires i < |s|
    ensures Keys(RemoveAt(s, i)) == RemoveAt(Keys(s), i) && Keys(s)[i] == s[i].key
  {
    forall k | 0 <= k < |s| - 1 ensures Keys(RemoveAt(s, i))[k] == RemoveAt(Keys(s), i)[k] {
      RemoveAtIndex(s, i, k);
      RemoveAtIndex(Keys(s), i, k);
      hide *;
    }
    hide *;
  }

  /** The node on the left of gap `i` of the ring `head, s[0], s[1], ..., head`. */
  ghost function LeftOf<K(0)>(head: Node<K>, s: seq<Node<K>>, i: int): Node<K>
    requires 0 <= i <= |s|
  {
    if i == 0 then head else s[i - 1]
  }

  /** The node on the right of gap `i`. */
  ghost function RightOf<K(0)>(head: Node<K>, s: seq<Node<K>>, i: int): Node<K>
    requires 0 <= i <= |s|
  {
    if i == |s| then head else s[i]
  }

  ghost predicate Link<K(0)>(left: Node<K>, right: Node<K>)
    reads left, right
  {
    left.next == right && right.prev == left
  }

  /** Both pointers across every gap are right, so the ring closes in both directions. */
  ghost predicate Linked<K(0)>(head: Node<K>, s: seq<Node<K>>)
    reads head, s
  {
    forall i {:trigger LeftOf(head, s, i)} {:trigger RightOf(head, s, i)} | 0 <= i <= |s| ::
      Link(LeftOf(head, s, i), RightOf(head, s, i))
  }

  lemma GapsDiffer<K(0)>(head: Node<K>, s: seq<Node<K>>, i: int, j: int)
    requires Distinct(s) && head !in s
    requires 0 <= i <= |s| && 0 <= j <= |s| && i != j
    ensures LeftOf(head, s, i) != LeftOf(head, s, j)
    ensures RightOf(head, s, i) != RightOf(head, s, j)
  {
  }

  lemma GapsAfterInsert<K(0)>(head: Node<K>, s: seq<Node<K>>, i: int, x: Node<K>, k: int)
    requires 0 <= i <= |s| && 0 <= k <= |s| + 1
    ensures |InsertAt(s, i, x)| == |s| + 1
    ensures LeftOf(head, InsertAt(s, i, x), k)
         == if k <= i then LeftOf(head, s, k) else if k == i + 1 then x else LeftOf(head, s, k - 1)
    ensures RightOf(head, InsertAt(s, i, x), k)
         == if k < i then RightOf(head, s, k) else if k == i then x else RightOf(head, s, k - 1)
  {
  }

  lemma GapsAfterRemove<K(0)>(head: Node<K>, s: seq<Node<K>>, i: int, k: int)
    requires 0 <= i < |s| && 0 <= k < |s|
    ensures |RemoveAt(s, i)| == |s| - 1
    ensures LeftOf(head, RemoveAt(s, i), k) == if k <= i then LeftOf(head, s, k) else LeftOf(head, s, k + 1)
    ensures RightOf(head, RemoveAt(s, i), k) == if k < i then RightOf(head, s, k) else RightOf(head, s, k + 1)
  {
  }

  /** What a `for_each` callback does with the node it is given: unlink it or not, and what it returns. */
  datatype Action = Action(remove: bool, ret: int)

  /** The nodes left of `s` once the callback has seen all of them. */
  ghost function Kept<K(0)>(s: seq<Node<K>>, work: seq<Action>): seq<Node<K>>
    requires |s| <= |work|
  {
    if |s| == 0 then []
    else Kept(s[..|s| - 1], work) + (if work[|s| - 1].remove then [] else [s[|s| - 1]])
  }

  /** The callback has returned 0 from each of its first `n` calls. */
  ghost predicate Silent(work: seq<Action>, n: nat)
    requires n <= |work|
  {
    forall j | 0 <= j < n :: work[j].ret == 0
  }

  lemma SilentNext(work: seq<Action>, n: nat)
    requires n < |work|
    ensures Silent(work, n) && work[n].ret == 0 ==> Silent(work, n + 1)
  {
  }

  lemma NothingSilent(work: seq<Action>)
    ensures Silent(work, 0)
  {
  }

  lemma KeptSnoc<K(0)>(visited: seq<Node<K>>, n: Node<K>, work: seq<Action>)
    requires |visited| < |work|
    ensures Kept(visited + [n], work) == Kept(visited, work) + (if work[|visited|].remove then [] else [n])
  {
  }

  lemma RemoveAtSeam<T>(a: seq<T>, b: seq<T>)
    requires |b| > 0
    ensures RemoveAt(a + b, |a|) == a + [] + b[1..]
    ensures a + b == a + [b[0]] + b[1..]
  {
  }

  class Queue<K(0)> {
    const head: Node<K>
    const cmp: (K, K) -> int
    var cnt: nat
    ghost var nodes: seq<Node<K>>
    ghost var repr: set<Node<K>>

    ghost predicate Valid()
      reads this, repr
    {
      && head in repr
      && (forall i | 0 <= i < |nodes| :: nodes[i] in repr)
      && cnt == |nodes|
      && head !in nodes
      && Distinct(nodes)
      && Linked(head, nodes)
    }

    /** `initListQue`. */
    constructor (cmp: (K, K) -> int, sentinel: Node<K>)
      requires sentinel.Detached()
      ensures Valid() && nodes == [] && this.cmp == cmp && head == sentinel && repr == {sentinel}
    {
      this.cmp := cmp;
      head := sentinel;
      cnt := 0;
      nodes := [];
      repr := {sentinel};
    }

    /** `addPrev`: link `item` before `curr`, that is into the gap `i` on the left of `curr`. */
    method AddPrev(curr: Node<K>, item: Node<K>, ghost i: nat)
      requires Valid()
      requires i <= |nodes| && curr == RightOf(head, nodes, i)
      requires item !in nodes && item != head
      modifies this`nodes, this`repr, repr`prev, repr`next, item`prev, item`next
      ensures nodes == InsertAt(old(nodes), i, item) && repr == old(repr) + {item}
      ensures forall k | 0 <= k < |nodes| :: nodes[k] in repr
      ensures head !in nodes && Distinct(nodes) && Linked(head, nodes)
    {
      ghost var s := nodes;
      assert Link(LeftOf(head, s, i), RightOf(head, s, i));
      item.next := curr;
      item.prev := curr.prev;
      curr.prev.next := item;
      curr.prev := item;
      nodes := InsertAt(nodes, i, item);
      repr := repr + {item};
      InsertDistinct(s, i, item);
      hide Distinct, InsertAt;
      forall k | 0 <= k <= |s| + 1
        ensures Link(LeftOf(head, InsertAt(s, i, item), k), RightOf(head, InsertAt(s, i, item), k))
      {
        GapsAfterInsert(head, s, i, item, k);
        if k < i {
          GapsDiffer(head, s, i, k);
        } else if k > i + 1 {
          GapsDiffer(head, s, i, k - 1);
        }
      }
    }

    /** The walk of `push_back` from the tail: past every node greater than `item`. */
    method FindPlace(item: Node<K>) returns (curr: Node<K>, ghost i: nat)
      requires Valid()
      ensures i == InsertIndex(Keys(nodes), item.key, cmp) && curr == RightOf(head, nodes, i)
    {
      curr, i := head, |nodes|;
      while curr.prev != head && cmp(curr.prev.key, item.key) > 0
        invariant i <= |nodes| && curr == RightOf(head, nodes, i)
        invariant forall j | i <= j < |nodes| :: cmp(nodes[j].key, item.key) > 0
        decreases i
      {
        curr, i := curr.prev, i - 1;
      }
      assert curr.prev == LeftOf(head, nodes, i);
      hide Keys;
      InsertIndexUnique(Keys(nodes), item.key, cmp, i);
    }

    /** `push_back`: behind the last node that is not greater than the new one. */
    method PushBack(item: Node<K>)
      requires Valid()
      requires item !in nodes && item != head
      modifies this`nodes, this`repr, this`cnt, repr`prev, repr`next, item`prev, item`next
      ensures Valid()
      ensures nodes == Place(old(nodes), item, cmp) && repr == old(repr) + {item}
    {
      hide Keys, InsertIndex, Distinct, Linked;
      var curr, i := FindPlace(item);
      AddPrev(curr, item, i);
      cnt := cnt + 1;
    }

    /** `delListItem`: close the two gaps around `item` and reset it. */
    method Unlink(item: Node<K>, ghost i: nat)
      requires Valid()
      requires i < |nodes| && nodes[i] == item
      modifies this`nodes, this`repr, repr`prev, repr`next
      ensures nodes == RemoveAt(old(nodes), i) && repr == old(repr) - {item} && item.Detached()
      ensures item !in nodes
      ensures forall k | 0 <= k < |nodes| :: nodes[k] in repr
      ensures head in repr && head !in nodes && Distinct(nodes) && Linked(head, nodes)
    {
      ghost var s := nodes;
      assert Link(LeftOf(head, s, i), RightOf(head, s, i));
      assert Link(LeftOf(head, s, i + 1), RightOf(head, s, i + 1));
      item.prev.next := item.next;
      item.next.prev := item.prev;
      item.prev := item;
      item.next := item;
      nodes := RemoveAt(nodes, i);
      repr := repr - {item};
      RemoveDistinct(s, i);
      hide Distinct, RemoveAt;
      forall k | 0 <= k < |s|
        ensures Link(LeftOf(head, RemoveAt(s, i), k), RightOf(head, RemoveAt(s, i), k))
      {
        GapsAfterRemove(head, s, i, k);
        if k < i {
          GapsDiffer(head, s, i, k);
          GapsDiffer(head, s, i + 1, k);
        } else if k > i {
          GapsDiffer(head, s, i, k + 1);
          GapsDiffer(head, s, i + 1, k + 1);
        }
      }
    }

    method Delete(item: Node<K>, ghost i: nat)
      requires Valid()
      requires i < |nodes| && nodes[i] == item
      modifies this`nodes, this`repr, this`cnt, repr`prev, repr`next
      ensures Valid() && item.Detached() && item !in nodes && item != head
      ensures nodes == RemoveAt(old(nodes), i) && item in old(repr) && repr == old(repr) - {item}
    {
      Unlink(item, i);
      cnt := cnt - 1;
    }

    /** A linked node never points at itself, so `isEmpty` tells linked and detached nodes apart. */
    lemma LinkedNotEmpty(item: Node<K>)
      requires Valid() && item in nodes
      ensures item in repr && item.next != item && item.next == RightOf(head, nodes, IndexOf(nodes, item) + 1)
    {
      assert Link(LeftOf(head, nodes, IndexOf(nodes, item) + 1), RightOf(head, nodes, IndexOf(nodes, item) + 1));
    }

    /** `del_item`. */
    method DelItem(item: Node<K>) returns (ret: int)
      requires Valid()
      requires item in nodes || item.Detached()
      modifies this`nodes, this`repr, this`cnt, repr`prev, repr`next
      ensures Valid()
      ensures item.Detached()
      ensures item !in nodes && repr == if item in old(nodes) then old(repr) - {item} else old(repr)
      ensures item in old(nodes) ==> ret == 0 && nodes == RemoveAt(old(nodes), IndexOf(old(nodes), item))
      ensures item !in old(nodes) ==> ret == -1 && nodes == old(nodes)
    {
      ret := 0;
      if item in nodes {
        LinkedNotEmpty(item);
      }
      hide Linked, Distinct;
      if item.next != item {
        Delete(item, IndexOf(nodes, item));
      } else {
        ret := -1;
      }
    }

    /** `pop_head`. */
    method PopHead() returns (item: Node?<K>)
      requires Valid()
      modifies this`nodes, this`repr, this`cnt, repr`prev, repr`next
      ensures Valid()
      ensures |old(nodes)| == 0 ==> item == null && nodes == [] && repr == old(repr)
      ensures |old(nodes)| > 0 ==> item == old(nodes)[0] && nodes == old(nodes)[1..] && item.Detached()
      ensures |old(nodes)| > 0 ==> repr == old(repr) - {item}
    {
      assert Link(LeftOf(head, nodes, 0), RightOf(head, nodes, 0));
      item := null;
      if head.next != head {
        item := head.next;
        Delete(item, 0);
      }
    }

    /** `get_head`. */
    method GetHead() returns (item: Node?<K>)
      requires Valid()
      ensures |nodes| == 0 ==> item == null
      ensures |nodes| > 0 ==> item == nodes[0]
    {
      assert Link(LeftOf(head, nodes, 0), RightOf(head, nodes, 0));
      item := if head.next != head then head.next else null;
    }

    /** `del_item` and `push_back` in turn. */
    method Move(item: Node<K>, ghost i: nat)
      requires Valid() && i < |nodes| && nodes[i] == item
      modifies this`nodes, this`repr, this`cnt, repr`prev, repr`next
      ensures Valid() && repr == old(repr)
      ensures nodes == Place(RemoveAt(old(nodes), i), item, cmp)
    {
      hide *;
      Delete(item, i);
      PushBack(item);
    }

    /** `reque_list`: the node goes where its present key belongs; a detached node stays out. */
    method RequeList(item: Node<K>)
      requires Valid()
      requires item in nodes || item.Detached()
      modifies this`nodes, this`repr, this`cnt, repr`prev, repr`next
      ensures Valid() && repr == old(repr)
      ensures item !in old(nodes) ==> nodes == old(nodes)
      ensures item in old(nodes) ==>
        nodes == Place(RemoveAt(old(nodes), IndexOf(old(nodes), item)), item, cmp)
    {
      if item in nodes {
        LinkedNotEmpty(item);
      }
      assert item.next == item <==> item !in nodes;
      hide *;
      if item.next != item {
        Move(item, IndexOf(nodes, item));
      }
    }

    /** A `for_each` callback at work on the node at position `m`. */
    method Visit(item: Node<K>, act: Action, ghost m: nat)
      requires Valid() && m < |nodes| && nodes[m] == item
      modifies this`nodes, this`repr, this`cnt, repr`prev, repr`next
      ensures Valid() && repr <= old(repr)
      ensures nodes == if act.remove then RemoveAt(old(nodes), m) else old(nodes)
    {
      IndexOfUnique(nodes, m);
      hide Linked, Distinct, RemoveAt;
      if act.remove {
        var _ := DelItem(item);
      }
    }

    /** Part way through `for_each`: `visited` is done, `rest` is ahead and untouched, `next` is its first. */
    ghost predicate Walking(s: seq<Node<K>>, visited: seq<Node<K>>, rest: seq<Node<K>>, next: Node<K>, work: seq<Action>)
      reads this
    {
      && s == visited + rest && |s| <= |work|
      && nodes == Kept(visited, work) + rest
      && next == (if |rest| == 0 then head else rest[0])
      && (|rest| > 0 ==> next != head)
    }

    /** One round of the loop of `for_each`. */
    method Round(curr: Node<K>, act: Action, ghost s: seq<Node<K>>, ghost visited: seq<Node<K>>,
                 ghost rest: seq<Node<K>>, ghost work: seq<Action>)
      returns (next: Node<K>)
      requires Valid() && |rest| > 0 && Walking(s, visited, rest, curr, work) && |visited| < |work| && act == work[|visited|]
      modifies this`nodes, this`repr, this`cnt, repr`prev, repr`next
      ensures Valid() && repr <= old(repr)
      ensures Walking(s, visited + [curr], rest[1..], next, work)
    {
      ghost var kept := Kept(visited, work);
      NextAfter(kept, rest);
      KeptSnoc(visited, curr, work);
      RemoveAtSeam(kept, rest);
      RemoveAtSeam(visited, rest);
      hide Kept, Valid, RemoveAt;
      assert nodes[|kept|] == curr;
      next := curr.next;
      Visit(curr, act, |kept|);
    }

    /** `for_each`; `work[i]` is what the callback does on its `i`-th call, which may be to unlink the node it
        is given. The saved `next` pointer survives that, so every node is visited once, in order, up to the
        first nonzero result. */
    method ForEach(work: seq<Action>) returns (ret: int, ghost visited: seq<Node<K>>)
      requires Valid() && |nodes| <= |work|
      modifies this`nodes, this`repr, this`cnt, repr`prev, repr`next
      ensures Valid() && repr <= old(repr)
      ensures |visited| <= |old(nodes)| && visited == old(nodes)[..|visited|]
      ensures nodes == Kept(visited, work) + old(nodes)[|visited|..]
      ensures ret == 0 ==> visited == old(nodes) && Silent(work, |visited|)
      ensures ret != 0 ==> |visited| > 0 && ret == work[|visited| - 1].ret && Silent(work, |visited| - 1)
    {
      LinkEnds(work);
      hide *;
      ghost var rest := nodes;
      var i: nat := 0;
      ret, visited := 0, [];
      NothingSilent(work);
      var next := head.next;
      while next != head
        invariant Valid() && repr <= old(repr)
        invariant |visited| == i && Walking(old(nodes), visited, rest, next, work)
        invariant ret == 0 && Silent(work, i)
        decreases |rest|
      {
        WalkingOn(old(nodes), visited, rest, next, work);
        SilentNext(work, i);
        var curr := next;
        next := Round(curr, work[i], old(nodes), visited, rest, work);
        ret := work[i].ret;
        i, visited, rest := i + 1, visited + [curr], rest[1..];
        if ret != 0 {
          break;
        }
      }
      WalkingOn(old(nodes), visited, rest, next, work);
    }

    lemma WalkingOn(s: seq<Node<K>>, visited: seq<Node<K>>, rest: seq<Node<K>>, next: Node<K>, work: seq<Action>)
      requires Walking(s, visited, rest, next, work)
      ensures next != head <==> |rest| > 0
      ensures next == head ==> visited == s
      ensures |visited| <= |s| && visited == s[..|visited|] && rest == s[|visited|..]
      ensures nodes == Kept(visited, work) + s[|visited|..]
    {
    }

    lemma LinkEnds(work: seq<Action>)
      requires Valid() && |nodes| <= |work|
      ensures Walking(nodes, [], nodes, head.next, work)
    {
      assert Link(LeftOf(head, nodes, 0), RightOf(head, nodes, 0));
    }

    lemma NextAfter(kept: seq<Node<K>>, rest: seq<Node<K>>)
      requires Valid() && nodes == kept + rest && |rest| > 0
      ensures rest[0].next == if |rest| == 1 then head else rest[1]
      ensures |rest| > 1 ==> rest[1] != head
    {
      var m := |kept|;
      assert Link(LeftOf(head, nodes, m + 1), RightOf(head, nodes, m + 1));
      assert nodes[m] == rest[0];
      if |rest| > 1 {
        assert nodes[m + 1] == rest[1];
      }
    }
  }
}
