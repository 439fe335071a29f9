/** The ordering theory shared by the queues and sets of `llist.c`: comparator callbacks, the insertion
    point that both `push_back` and `addToSet` look for from the tail, the left-to-right scan of
    `delFromSet`, and stable sorting. */
module Ordering {

  /** What a comparator callback owes its callers on any three elements: its sign is antisymmetric and
      transitive. Elements that compare equal need not be equal. */
  ghost predicate Lawful<T>(cmp: (T, T) -> int, x: T, y: T, z: T) {
    && cmp(x, x) == 0
    && (cmp(x, y) < 0 <==> cmp(y, x) > 0)
    && (cmp(y, x) < 0 <==> cmp(x, y) > 0)
    && (cmp(x, y) <= 0 && cmp(y, z) <= 0 ==> cmp(x, z) <= 0)
  }

  /** The comparator is a total preorder on the elements of `s`. */
  ghost predicate Preorder<T>(cmp: (T, T) -> int, s: set<T>) {
    forall x, y, z {:trigger Lawful(cmp, x, y, z)} | x in s && y in s && z in s :: Lawful(cmp, x, y, z)
  }

  ghost predicate Sorted<T>(s: seq<T>, cmp: (T, T) -> int) {
    forall i, j {:trigger cmp(s[i], s[j])} | 0 <= i < j < |s| :: cmp(s[i], s[j]) <= 0
  }

  ghost predicate StrictlySorted<T>(s: seq<T>, cmp: (T, T) -> int) {
    forall i, j {:trigger cmp(s[i], s[j])} | 0 <= i < j < |s| :: cmp(s[i], s[j]) < 0
  }

  ghost predicate Distinct<T>(s: seq<T>) {
    forall i, j | 0 <= i < j < |s| :: s[i] != s[j]
  }

  ghost function Elems<T>(s: seq<T>): set<T> {
    set x | x in s
  }

  function InsertAt<T>(s: seq<T>, i: nat, x: T): seq<T>
    requires i <= |s|
  {
    s[..i] + [x] + s[i..]
  }

  function RemoveAt<T>(s: seq<T>, i: nat): seq<T>
    requires i < |s|
  {
    s[..i] + s[i + 1..]
  }

  /** Where a scan from the tail stops: just after the last element that is not greater than `x`. */
  function InsertIndex<T>(s: seq<T>, x: T, cmp: (T, T) -> int): (i: nat)
    ensures i <= |s|
    ensures forall j | i <= j < |s| :: cmp(s[j], x) > 0
    ensures i > 0 ==> cmp(s[i - 1], x) <= 0
  {
    if |s| == 0 || cmp(s[|s| - 1], x) <= 0 then |s| else InsertIndex(s[..|s| - 1], x, cmp)
  }

  function Insert<T>(s: seq<T>, x: T, cmp: (T, T) -> int): seq<T> {
    InsertAt(s, InsertIndex(s, x, cmp), x)
  }

  /** The tail scan stops in exactly one place. */
  lemma {:induction false} InsertIndexUnique<T>(s: seq<T>, x: T, cmp: (T, T) -> int, i: nat)
    requires i <= |s|
    requires forall j | i <= j < |s| :: cmp(s[j], x) > 0
    requires i > 0 ==> cmp(s[i - 1], x) <= 0
    ensures i == InsertIndex(s, x, cmp)
  {
  }

  /** In a sorted sequence everything before the insertion point is not greater than `x`. */
  lemma BelowInsertIndex<T>(s: seq<T>, x: T, cmp: (T, T) -> int, j: nat)
    requires Preorder(cmp, Elems(s) + {x})
    requires Sorted(s, cmp)
    requires j < InsertIndex(s, x, cmp)
    ensures cmp(s[j], x) <= 0
  {
    var i := InsertIndex(s, x, cmp);
    if j < i - 1 {
      assert cmp(s[j], s[i - 1]) <= 0 && cmp(s[i - 1], x) <= 0;
      assert Lawful(cmp, s[j], s[i - 1], x);
    }
  }

  lemma InsertElems<T>(s: seq<T>, x: T, i: nat)
    requires i <= |s|
    ensures Elems(InsertAt(s, i, x)) == Elems(s) + {x}
    ensures multiset(InsertAt(s, i, x)) == multiset(s) + multiset{x}
  {
    var t := InsertAt(s, i, x);
    forall y | y in s ensures y in t {
      var j :| 0 <= j < |s| && s[j] == y;
      assert t[if j < i then j else j + 1] == y;
    }
    assert t[i] == x;
    assert s == s[..i] + s[i..];
  }

  lemma InsertAtIndex<T>(s: seq<T>, i: nat, x: T, k: nat)
    requires i <= |s| && k <= |s|
    ensures InsertAt(s, i, x)[k] == if k < i then s[k] else if k == i then x else s[k - 1]
  {
  }

  lemma RemoveAtIndex<T>(s: seq<T>, i: nat, k: nat)
    requires i < |s| && k < |s| - 1
    ensures |RemoveAt(s, i)| == |s| - 1
    ensures RemoveAt(s, i)[k] == if k < i then s[k] else s[k + 1]
  {
  }

  lemma InsertPair<T>(s: seq<T>, x: T, cmp: (T, T) -> int, a: nat, b: nat)
    requires Preorder(cmp, Elems(s) + {x})
    requires Sorted(s, cmp)
    requires a < b <= |s|
    ensures |InsertAt(s, InsertIndex(s, x, cmp), x)| == |s| + 1
    ensures cmp(Insert(s, x, cmp)[a], Insert(s, x, cmp)[b]) <= 0
  {
    var i := InsertIndex(s, x, cmp);
    InsertAtIndex(s, i, x, a);
    InsertAtIndex(s, i, x, b);
    assert |InsertAt(s, i, x)| == |s| + 1;
    hide InsertAt, InsertIndex;
    if b == i {
      BelowInsertIndex(s, x, cmp, a);
    } else if a == i {
      assert cmp(s[b - 1], x) > 0;
      assert Lawful(cmp, s[b - 1], x, x);
    } else if b < i {
      assert cmp(s[a], s[b]) <= 0;
    } else if a < i {
      assert cmp(s[a], s[b - 1]) <= 0;
    } else {
      assert cmp(s[a - 1], s[b - 1]) <= 0;
    }
  }

  /** Insertion keeps the order. */
  lemma InsertSorted<T>(s: seq<T>, x: T, cmp: (T, T) -> int)
    requires Preorder(cmp, Elems(s) + {x})
    requires Sorted(s, cmp)
    ensures Sorted(Insert(s, x, cmp), cmp)
    ensures multiset(Insert(s, x, cmp)) == multiset(s) + multiset{x}
    ensures Elems(Insert(s, x, cmp)) == Elems(s) + {x}
  {
    InsertElems(s, x, InsertIndex(s, x, cmp));
    var t := Insert(s, x, cmp);
    forall a, b | 0 <= a < b < |t| ensures cmp(t[a], t[b]) <= 0 {
      InsertPair(s, x, cmp, a, b);
    }
  }

  lemma StrictlySortedIsSorted<T>(s: seq<T>, cmp: (T, T) -> int)
    requires StrictlySorted(s, cmp)
    ensures Sorted(s, cmp)
  {
  }

  /** Insertion into a set of pairwise different keys keeps them pairwise different. */
  lemma InsertStrictlySorted<T>(s: seq<T>, x: T, cmp: (T, T) -> int)
    requires Preorder(cmp, Elems(s) + {x})
    requires StrictlySorted(s, cmp)
    requires forall y | y in s :: cmp(y, x) != 0
    ensures StrictlySorted(Insert(s, x, cmp), cmp)
  {
    var t := Insert(s, x, cmp);
    forall a, b | 0 <= a < b < |t| ensures cmp(t[a], t[b]) < 0 {
      InsertStrictPair(s, x, cmp, a, b);
    }
  }

  lemma InsertStrictPair<T>(s: seq<T>, x: T, cmp: (T, T) -> int, a: nat, b: nat)
    requires Preorder(cmp, Elems(s) + {x})
    requires StrictlySorted(s, cmp)
    requires forall y | y in s :: cmp(y, x) != 0
    requires a < b <= |s|
    ensures |InsertAt(s, InsertIndex(s, x, cmp), x)| == |s| + 1
    ensures cmp(Insert(s, x, cmp)[a], Insert(s, x, cmp)[b]) < 0
  {
    var i := InsertIndex(s, x, cmp);
    InsertAtIndex(s, i, x, a);
    InsertAtIndex(s, i, x, b);
    assert |InsertAt(s, i, x)| == |s| + 1;
    hide InsertAt, InsertIndex;
    if b == i {
      StrictlySortedIsSorted(s, cmp);
      BelowInsertIndex(s, x, cmp, a);
      assert s[a] in s;
    } else if a == i {
      assert cmp(s[b - 1], x) > 0;
      assert Lawful(cmp, s[b - 1], x, x);
    } else if b < i {
      assert cmp(s[a], s[b]) < 0;
    } else if a < i {
      assert cmp(s[a], s[b - 1]) < 0;
    } else {
      assert cmp(s[a - 1], s[b - 1]) < 0;
    }
  }

  lemma RemoveSorted<T>(s: seq<T>, i: nat, cmp: (T, T) -> int)
    requires i < |s|
    ensures Sorted(s, cmp) ==> Sorted(RemoveAt(s, i), cmp)
    ensures StrictlySorted(s, cmp) ==> StrictlySorted(RemoveAt(s, i), cmp)
    ensures multiset(RemoveAt(s, i)) == multiset(s) - multiset{s[i]}
  {
    assert s == s[..i] + [s[i]] + s[i + 1..];
    var t := RemoveAt(s, i);
    forall a, b | 0 <= a < b < |t|
      ensures Sorted(s, cmp) ==> cmp(t[a], t[b]) <= 0
      ensures StrictlySorted(s, cmp) ==> cmp(t[a], t[b]) < 0
    {
      var a', b' := if a < i then a else a + 1, if b < i then b else b + 1;
      assert t[a] == s[a'] && t[b] == s[b'];
      if Sorted(s, cmp) {
        assert cmp(s[a'], s[b']) <= 0;
      }
      if StrictlySorted(s, cmp) {
        assert cmp(s[a'], s[b']) < 0;
      }
    }
  }

  lemma RemoveDistinct<T>(s: seq<T>, i: nat)
    requires i < |s| && Distinct(s)
    ensures Distinct(RemoveAt(s, i))
    ensures forall y :: y in RemoveAt(s, i) <==> y in s && y != s[i]
  {
  }

  lemma RemoveElems<T>(s: seq<T>, i: nat)
    requires i < |s|
    ensures Elems(RemoveAt(s, i)) + {s[i]} == Elems(s)
  {
  }

  lemma InsertDistinct<T>(s: seq<T>, i: nat, x: T)
    requires i <= |s| && Distinct(s) && x !in s
    ensures Distinct(InsertAt(s, i, x))
    ensures forall y :: y in InsertAt(s, i, x) <==> y in s || y == x
  {
  }

  /** Where `x` sits in `s`. */
  ghost function IndexOf<T>(s: seq<T>, x: T): (i: nat)
    requires x in s
    ensures i < |s| && s[i] == x
  {
    if s[0] == x then 0 else 1 + IndexOf(s[1..], x)
  }

  lemma IndexOfUnique<T>(s: seq<T>, i: nat)
    requires Distinct(s) && i < |s|
    ensures s[i] in s && IndexOf(s, s[i]) == i
  {
  }

  /** Taking out an element whose key was changed in place and inserting it again restores the order,
      whatever the new key is. */
  lemma RequeueSorted<T>(s: seq<T>, i: nat, x: T, cmp: (T, T) -> int)
    requires i < |s| && Sorted(s, cmp)
    requires Preorder(cmp, Elems(s) + {x})
    ensures Sorted(Insert(RemoveAt(s, i), x, cmp), cmp)
    ensures multiset(Insert(RemoveAt(s, i), x, cmp)) == multiset(s) - multiset{s[i]} + multiset{x}
  {
    RemoveSorted(s, i, cmp);
    assert Elems(RemoveAt(s, i)) <= Elems(s);
    InsertSorted(RemoveAt(s, i), x, cmp);
  }

  /** How far `delFromSet` walks: past the leading elements that are less than `key`. */
  function ScanIndex<T>(s: seq<T>, key: T, cmp: (T, T) -> int): (i: nat)
    ensures i <= |s|
    ensures forall j | 0 <= j < i :: cmp(s[j], key) < 0
    ensures i < |s| ==> cmp(s[i], key) >= 0
  {
    if |s| == 0 || cmp(s[0], key) >= 0 then 0 else 1 + ScanIndex(s[1..], key, cmp)
  }

  /** The left-to-right scan stops in exactly one place. */
  lemma {:induction false} ScanIndexUnique<T>(s: seq<T>, key: T, cmp: (T, T) -> int, i: nat)
    requires i <= |s|
    requires forall j | 0 <= j < i :: cmp(s[j], key) < 0
    requires i < |s| ==> cmp(s[i], key) >= 0
    ensures i == ScanIndex(s, key, cmp)
  {
  }

  predicate Found<T>(s: seq<T>, key: T, cmp: (T, T) -> int) {
    var i := ScanIndex(s, key, cmp);
    i < |s| && cmp(s[i], key) == 0
  }

  /** On a sorted sequence the early exit of the scan misses nothing. */
  lemma FoundIffMember<T>(s: seq<T>, key: T, cmp: (T, T) -> int)
    requires Preorder(cmp, Elems(s) + {key})
    requires Sorted(s, cmp)
    ensures Found(s, key, cmp) <==> exists j :: 0 <= j < |s| && cmp(s[j], key) == 0
  {
    var i := ScanIndex(s, key, cmp);
    if j :| 0 <= j < |s| && cmp(s[j], key) == 0 {
      assert i <= j;
      if i < j {
        assert cmp(s[i], s[j]) <= 0;
        assert Lawful(cmp, s[i], s[j], key);
      }
    }
  }

  /** The elements of `s` that compare equal to `x`, in their order. */
  ghost function SameAs<T>(s: seq<T>, x: T, cmp: (T, T) -> int): seq<T> {
    if |s| == 0 then []
    else SameAs(s[..|s| - 1], x, cmp) + (if cmp(s[|s| - 1], x) == 0 then [s[|s| - 1]] else [])
  }

  lemma {:induction false} SameAsConcat<T>(s: seq<T>, t: seq<T>, x: T, cmp: (T, T) -> int)
    ensures SameAs(s + t, x, cmp) == SameAs(s, x, cmp) + SameAs(t, x, cmp)
  {
    if |t| == 0 {
      assert s + t == s;
    } else {
      assert (s + t)[..|s + t| - 1] == s + t[..|t| - 1];
      SameAsConcat(s, t[..|t| - 1], x, cmp);
    }
  }

  lemma {:induction false} SameAsEmpty<T>(s: seq<T>, x: T, cmp: (T, T) -> int)
    requires forall j | 0 <= j < |s| :: cmp(s[j], x) != 0
    ensures SameAs(s, x, cmp) == []
  {
    if |s| > 0 {
      SameAsEmpty(s[..|s| - 1], x, cmp);
    }
  }

  /** Nothing behind the insertion point of `x` ties with anything that ties with `x`. */
  lemma NoTieBehind<T>(s: seq<T>, x: T, y: T, cmp: (T, T) -> int)
    requires Preorder(cmp, Elems(s) + {x, y})
    requires cmp(x, y) == 0
    ensures SameAs(s[InsertIndex(s, x, cmp)..], y, cmp) == []
  {
    var i := InsertIndex(s, x, cmp);
    forall j | 0 <= j < |s[i..]| ensures cmp(s[i..][j], y) != 0 {
      assert s[i + j] in s;
      assert Lawful(cmp, s[i + j], y, x) && Lawful(cmp, x, y, y);
    }
    SameAsEmpty(s[i..], y, cmp);
  }

  /** Insertion is stable: the new element goes behind every element it ties with, and no tie moves. */
  lemma InsertStable<T>(s: seq<T>, x: T, y: T, cmp: (T, T) -> int)
    requires Preorder(cmp, Elems(s) + {x, y})
    ensures SameAs(Insert(s, x, cmp), y, cmp) == SameAs(s, y, cmp) + (if cmp(x, y) == 0 then [x] else [])
  {
    if cmp(x, y) == 0 {
      NoTieBehind(s, x, y, cmp);
    }
    InsertAtGroups(s, InsertIndex(s, x, cmp), x, y, cmp);
  }

  lemma InsertAtGroups<T>(s: seq<T>, i: nat, x: T, y: T, cmp: (T, T) -> int)
    requires i <= |s|
    requires cmp(x, y) == 0 ==> SameAs(s[i..], y, cmp) == []
    ensures SameAs(InsertAt(s, i, x), y, cmp) == SameAs(s, y, cmp) + (if cmp(x, y) == 0 then [x] else [])
  {
    hide SameAs;
    var l, r := s[..i], s[i..];
    SplitGroups(l, r, x, y, cmp);
    assert l + r == s;
  }

  lemma SplitGroups<T>(l: seq<T>, r: seq<T>, x: T, y: T, cmp: (T, T) -> int)
    ensures SameAs(l + r, y, cmp) == SameAs(l, y, cmp) + SameAs(r, y, cmp)
    ensures cmp(x, y) == 0 ==> SameAs(l + [x] + r, y, cmp) == SameAs(l, y, cmp) + [x] + SameAs(r, y, cmp)
    ensures cmp(x, y) != 0 ==> SameAs(l + [x] + r, y, cmp) == SameAs(l, y, cmp) + SameAs(r, y, cmp)
  {
    hide SameAs;
    SameAsConcat(l + [x], r, y, cmp);
    SameAsConcat(l, [x], y, cmp);
    SameAsConcat(l, r, y, cmp);
    SameAsSingle(x, y, cmp);
  }

  lemma SameAsSingle<T>(x: T, y: T, cmp: (T, T) -> int)
    ensures SameAs([x], y, cmp) == if cmp(x, y) == 0 then [x] else []
  {
  }

  /** `t` is the stable sort of `s`: sorted, and within every group of ties in the order of `s`. */
  ghost predicate StableSortOf<T>(t: seq<T>, s: seq<T>, cmp: (T, T) -> int) {
    && Sorted(t, cmp)
    && multiset(t) == multiset(s)
    && forall y | y in s :: SameAs(t, y, cmp) == SameAs(s, y, cmp)
  }

  lemma MultisetElems<T>(t: seq<T>, s: seq<T>)
    requires multiset(t) == multiset(s)
    ensures Elems(t) == Elems(s) && |t| == |s|
  {
    forall x ensures x in Elems(t) <==> x in Elems(s) {
      assert x in t <==> x in multiset(t);
      assert x in s <==> x in multiset(s);
    }
    assert |multiset(t)| == |t| && |multiset(s)| == |s|;
  }

  /** Inserting the elements one after the other, in order, is a stable sort. */
  lemma StableSortExtend<T>(t: seq<T>, s: seq<T>, x: T, cmp: (T, T) -> int)
    requires Preorder(cmp, Elems(s) + {x})
    requires StableSortOf(t, s, cmp)
    ensures StableSortOf(Insert(t, x, cmp), s + [x], cmp)
  {
    MultisetElems(t, s);
    InsertSorted(t, x, cmp);
    forall y | y in s + [x] ensures SameAs(Insert(t, x, cmp), y, cmp) == SameAs(s + [x], y, cmp) {
      assert Elems(t) + {x, y} == Elems(s) + {x};
      InsertStable(t, x, y, cmp);
      assert (s + [x])[..|s|] == s;
      if y !in s {
        SameAsAgree(t, s, x, cmp);
      }
    }
  }

  /** If a tie of `x` occurs at all, its group is the group of `x`. */
  lemma SameAsAgree<T>(t: seq<T>, s: seq<T>, x: T, cmp: (T, T) -> int)
    requires Preorder(cmp, Elems(s) + {x})
    requires StableSortOf(t, s, cmp)
    ensures SameAs(t, x, cmp) == SameAs(s, x, cmp)
  {
    MultisetElems(t, s);
    if y :| y in s && cmp(y, x) == 0 {
      SameAsCongruent(t, x, y, cmp);
      SameAsCongruent(s, x, y, cmp);
    } else {
      forall j | 0 <= j < |s| ensures cmp(s[j], x) != 0 {
        assert s[j] in s;
      }
      SameAsEmpty(s, x, cmp);
      forall j | 0 <= j < |t| ensures cmp(t[j], x) != 0 {
        assert t[j] in Elems(t);
      }
      SameAsEmpty(t, x, cmp);
    }
  }

  lemma {:induction false} SameAsCongruent<T>(s: seq<T>, x: T, y: T, cmp: (T, T) -> int)
    requires Preorder(cmp, Elems(s) + {x, y})
    requires cmp(y, x) == 0
    ensures SameAs(s, x, cmp) == SameAs(s, y, cmp)
  {
    if |s| > 0 {
      var e := s[|s| - 1];
      assert Elems(s[..|s| - 1]) <= Elems(s);
      SameAsCongruent(s[..|s| - 1], x, y, cmp);
      assert Lawful(cmp, y, x, e) && Lawful(cmp, x, y, e);
      assert Lawful(cmp, e, x, y) && Lawful(cmp, e, y, x);
    }
  }

  /** A stable sort is determined by what it sorts: there is only one. */
  lemma {:induction false} StableSortUnique<T>(t: seq<T>, u: seq<T>, s: seq<T>, cmp: (T, T) -> int)
    requires Preorder(cmp, Elems(s))
    requires StableSortOf(t, s, cmp) && StableSortOf(u, s, cmp)
    ensures t == u
  {
    MultisetElems(t, s);
    MultisetElems(u, s);
    SortedGroupsDetermine(t, u, cmp);
  }

  ghost predicate SameGroups<T>(t: seq<T>, u: seq<T>, cmp: (T, T) -> int) {
    && |t| == |u|
    && multiset(t) == multiset(u)
    && forall y | y in Elems(t) :: SameAs(t, y, cmp) == SameAs(u, y, cmp)
  }

  lemma {:induction false} SortedGroupsDetermine<T>(t: seq<T>, u: seq<T>, cmp: (T, T) -> int)
    requires Preorder(cmp, Elems(t))
    requires Sorted(t, cmp) && Sorted(u, cmp) && SameGroups(t, u, cmp)
    ensures t == u
  {
    if |t| > 0 {
      var n := |t| - 1;
      SameLast(t, u, cmp);
      DropLastGroups(t, u, cmp);
      DropLastSorted(t, cmp);
      DropLastSorted(u, cmp);
      assert Elems(t[..n]) <= Elems(t);
      SortedGroupsDetermine(t[..n], u[..n], cmp);
      assert t == t[..n] + [t[n]] && u == u[..n] + [u[n]];
    }
  }

  lemma DropLastSorted<T>(s: seq<T>, cmp: (T, T) -> int)
    requires |s| > 0 && Sorted(s, cmp)
    ensures Sorted(s[..|s| - 1], cmp)
  {
  }

  lemma SameLast<T>(t: seq<T>, u: seq<T>, cmp: (T, T) -> int)
    requires |t| > 0 && Preorder(cmp, Elems(t))
    requires Sorted(t, cmp) && Sorted(u, cmp) && SameGroups(t, u, cmp)
    ensures t[|t| - 1] == u[|t| - 1]
  {
    var n := |t| - 1;
    var x, z := t[n], u[n];
    MultisetElems(t, u);
    assert x in t && z in u && x in Elems(t) && z in Elems(u);
    LastIsGreatest(t, z, cmp);
    LastIsGreatest(u, x, cmp);
    assert Lawful(cmp, x, z, x) && Lawful(cmp, x, x, x);
    var g, h := SameAs(t[..n], x, cmp), SameAs(u[..n], x, cmp);
    assert SameAs(t, x, cmp) == g + [x] && SameAs(u, x, cmp) == h + [z];
    assert (g + [x])[|g|] == x && (h + [z])[|h|] == z;
  }

  lemma DropLastGroups<T>(t: seq<T>, u: seq<T>, cmp: (T, T) -> int)
    requires |t| > 0 && SameGroups(t, u, cmp) && t[|t| - 1] == u[|t| - 1]
    ensures SameGroups(t[..|t| - 1], u[..|t| - 1], cmp)
  {
    hide SameAs;
    DropLastMultiset(t);
    DropLastMultiset(u);
    var t', u' := t[..|t| - 1], u[..|u| - 1];
    forall y | y in Elems(t') ensures SameAs(t', y, cmp) == SameAs(u', y, cmp) {
      assert y in Elems(t);
      DropLastGroup(t, u, y, cmp);
    }
  }

  lemma DropLastMultiset<T>(s: seq<T>)
    requires |s| > 0
    ensures multiset(s[..|s| - 1]) == multiset(s) - multiset{s[|s| - 1]}
    ensures Elems(s[..|s| - 1]) <= Elems(s)
  {
    assert s == s[..|s| - 1] + [s[|s| - 1]];
  }

  lemma DropLastGroup<T>(t: seq<T>, u: seq<T>, y: T, cmp: (T, T) -> int)
    requires |t| == |u| > 0 && t[|t| - 1] == u[|u| - 1]
    requires SameAs(t, y, cmp) == SameAs(u, y, cmp)
    ensures SameAs(t[..|t| - 1], y, cmp) == SameAs(u[..|u| - 1], y, cmp)
  {
    hide SameAs;
    SameAsSnoc(t, y, cmp);
    SameAsSnoc(u, y, cmp);
    if cmp(t[|t| - 1], y) == 0 {
      AppendCancel(SameAs(t[..|t| - 1], y, cmp), SameAs(u[..|u| - 1], y, cmp), t[|t| - 1]);
    }
  }

  lemma SameAsSnoc<T>(s: seq<T>, y: T, cmp: (T, T) -> int)
    requires |s| > 0
    ensures cmp(s[|s| - 1], y) == 0 ==> SameAs(s, y, cmp) == SameAs(s[..|s| - 1], y, cmp) + [s[|s| - 1]]
    ensures cmp(s[|s| - 1], y) != 0 ==> SameAs(s, y, cmp) == SameAs(s[..|s| - 1], y, cmp)
  {
  }

  lemma AppendCancel<T>(g: seq<T>, h: seq<T>, x: T)
    requires g + [x] == h + [x]
    ensures g == h
  {
    assert |g + [x]| == |h + [x]|;
    forall i | 0 <= i < |g| ensures g[i] == h[i] {
      assert (g + [x])[i] == (h + [x])[i];
    }
  }

  lemma LastIsGreatest<T>(s: seq<T>, x: T, cmp: (T, T) -> int)
    requires |s| > 0 && x in s && Sorted(s, cmp) && Preorder(cmp, Elems(s))
    ensures cmp(x, s[|s| - 1]) <= 0
  {
    var j :| 0 <= j < |s| && s[j] == x;
    if j < |s| - 1 {
      assert cmp(s[j], s[|s| - 1]) <= 0;
    }
    assert Lawful(cmp, x, x, x);
  }
}
