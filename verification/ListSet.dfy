/** The sorted array set of `llist.c`: insertion by shifting from the right, deletion by shifting from the
    left, growth by a fixed step, and recursive binary search. */
module ListSet {
  import opened Ordering
  import opened Wrappers

  /** `DEF_LIST_ARRAY_SIZE`. */
  const GROWTH_STEP := 100

  /** `binarySearch` in `s[low..high]`, as the position of the element it returns. */
  function BinarySearch<T>(s: seq<T>, low: nat, high: nat, key: T, cmp: (T, T) -> int): (r: Option<nat>)
    requires low <= high <= |s|
    ensures r.Some? ==> low <= r.value < high && cmp(s[r.value], key) == 0
    decreases high - low
  {
    if low < high then
      var mid := (low + high) / 2;
      var ret := cmp(s[mid], key);
      if ret < 0 then BinarySearch(s, mid + 1, high, key, cmp)
      else if ret > 0 then BinarySearch(s, low, mid, key, cmp)
      else Some(mid)
    else None
  }

  /** Binary search answers when, and only when, some element compares equal to the key. */
  lemma {:induction false} BinarySearchComplete<T>(s: seq<T>, low: nat, high: nat, key: T, cmp: (T, T) -> int)
    requires low <= high <= |s|
    requires Preorder(cmp, Elems(s) + {key})
    requires Sorted(s, cmp)
    ensures BinarySearch(s, low, high, key, cmp).Some? <==> exists j :: low <= j < high && cmp(s[j], key) == 0
    decreases high - low
  {
    if low < high {
      hide Preorder, Sorted;
      var mid := (low + high) / 2;
      var ret := cmp(s[mid], key);
      if ret < 0 {
        BinarySearchComplete(s, mid + 1, high, key, cmp);
        NoneBelow(s, mid, key, cmp);
      } else if ret > 0 {
        BinarySearchComplete(s, low, mid, key, cmp);
        NoneAbove(s, mid, key, cmp);
      }
    }
  }

  lemma NoneBelow<T>(s: seq<T>, mid: nat, key: T, cmp: (T, T) -> int)
    requires Preorder(cmp, Elems(s) + {key}) && Sorted(s, cmp)
    requires mid < |s| && cmp(s[mid], key) < 0
    ensures forall j | 0 <= j <= mid :: cmp(s[j], key) != 0
  {
    forall j | 0 <= j < mid ensures cmp(s[j], key) != 0 {
      assert cmp(s[j], s[mid]) <= 0;
      assert Lawful(cmp, key, s[j], s[mid]) && Lawful(cmp, s[mid], key, key) && Lawful(cmp, s[j], key, key);
    }
  }

  lemma NoneAbove<T>(s: seq<T>, mid: nat, key: T, cmp: (T, T) -> int)
    requires Preorder(cmp, Elems(s) + {key}) && Sorted(s, cmp)
    requires mid < |s| && cmp(s[mid], key) > 0
    ensures forall j | mid <= j < |s| :: cmp(s[j], key) != 0
  {
    forall j | mid < j < |s| ensures cmp(s[j], key) != 0 {
      assert cmp(s[mid], s[j]) <= 0;
      assert Lawful(cmp, s[mid], s[j], key);
    }
  }

  /** Binary search and the linear scan of `delFromSet` agree, and with pairwise different keys they agree on
      the very position. */
  lemma BinarySearchIsScan<T>(s: seq<T>, key: T, cmp: (T, T) -> int)
    requires Preorder(cmp, Elems(s) + {key})
    requires Sorted(s, cmp)
    ensures BinarySearch(s, 0, |s|, key, cmp).Some? <==> Found(s, key, cmp)
    ensures StrictlySorted(s, cmp) && Found(s, key, cmp) ==>
      BinarySearch(s, 0, |s|, key, cmp) == Some(ScanIndex(s, key, cmp))
  {
    BinarySearchComplete(s, 0, |s|, key, cmp);
    FoundIffMember(s, key, cmp);
    var r := BinarySearch(s, 0, |s|, key, cmp);
    if StrictlySorted(s, cmp) && r.Some? {
      OnlyOneMatch(s, key, ScanIndex(s, key, cmp), r.value, cmp);
    }
  }

  lemma OnlyOneMatch<T>(s: seq<T>, key: T, i: nat, j: nat, cmp: (T, T) -> int)
    requires Preorder(cmp, Elems(s) + {key})
    requires StrictlySorted(s, cmp)
    requires i < |s| && j < |s| && cmp(s[i], key) == 0 && cmp(s[j], key) == 0
    ensures i == j
  {
    assert Lawful(cmp, s[i], key, s[j]) && Lawful(cmp, s[j], key, s[i]);
    assert Lawful(cmp, key, s[i], s[j]) && Lawful(cmp, key, s[j], s[i]);
    assert Lawful(cmp, s[i], s[j], key) && Lawful(cmp, s[j], s[i], key);
  }

  class Set<T(0)> {
    const cmp: (T, T) -> int
    const nil: T
    var data: array<T>
    var size: nat

    ghost predicate Valid()
      reads this
    {
      size <= data.Length
    }

    ghost function Contents(): seq<T>
      requires Valid()
      reads this, data
    {
      data[..size]
    }

    /** `initListSet`; `nil` stands for the null pointer. */
    constructor (cmp: (T, T) -> int, nil: T)
      ensures Valid() && Contents() == [] && fresh(data) && this.cmp == cmp && data.Length == GROWTH_STEP
    {
      this.cmp := cmp;
      this.nil := nil;
      data := new T[GROWTH_STEP](_ => nil);
      size := 0;
    }

    /** `growArray`; `memory` says whether `realloc` would succeed. */
    method Grow(memory: bool) returns (ret: int)
      requires Valid()
      modifies this`data
      ensures Valid() && Contents() == old(Contents())
      ensures ret == if old(size < data.Length) || memory then 0 else -1
      ensures ret == 0 ==> size < data.Length
      ensures data == old(data) || fresh(data)
      ensures data.Length == old(data.Length) + if old(size == data.Length) && memory then GROWTH_STEP else 0
      ensures ret != 0 ==> data == old(data)
    {
      ret := 0;
      if size == data.Length {
        if memory {
          var grown := new T[data.Length + GROWTH_STEP](_ => nil);
          var i := 0;
          while i < size
            invariant data == old(data) && 0 <= i <= size && grown[..i] == data[..i]
          {
            grown[i] := data[i];
            i := i + 1;
          }
          data := grown;
        } else {
          ret := -1;
        }
      }
    }

    /** `addToSet`: refused only when the array is full and cannot grow. */
    method AddToSet(item: T, memory: bool) returns (ret: int)
      requires Valid()
      modifies this, data
      ensures Valid() && (data == old(data) || fresh(data))
      ensures ret == if old(size < data.Length) || memory then 0 else -1
      ensures data.Length == old(data.Length) + if old(size == data.Length) && memory then GROWTH_STEP else 0
      ensures Contents() == if ret == 0 then Insert(old(Contents()), item, cmp) else old(Contents())
    {
      ret := Grow(memory);
      if ret != 0 {
        return;
      }
      var n := ShiftRight(item);
      data[n] := item;
      size := size + 1;
      ret := 0;
      SplitInsert(data[..size], old(Contents()), n, item);
    }

    lemma SplitInsert(t: seq<T>, s: seq<T>, n: nat, item: T)
      requires n <= |s| && |t| == |s| + 1 && t[n] == item
      requires forall j | 0 <= j < n :: t[j] == s[j]
      requires forall j | n <= j < |s| :: t[j + 1] == s[j]
      ensures t == InsertAt(s, n, item)
    {
    }

    /** The loop of `addToSet`: make room for `item` behind the last element that is not greater. */
    method ShiftRight(item: T) returns (n: nat)
      requires Valid() && size < data.Length
      modifies data
      ensures n == InsertIndex(old(Contents()), item, cmp)
      ensures forall j | 0 <= j < n :: data[j] == old(Contents())[j]
      ensures forall j | n <= j < size :: data[j + 1] == old(Contents())[j]
    {
      ghost var s := Contents();
      n := size;
      while n > 0 && cmp(data[n - 1], item) > 0
        invariant n <= size
        invariant forall j | 0 <= j < n :: data[j] == s[j]
        invariant forall j | n < j <= size :: data[j] == s[j - 1]
        invariant forall j | n <= j < |s| :: cmp(s[j], item) > 0
      {
        data[n] := data[n - 1];
        n := n - 1;
      }
      InsertIndexUnique(s, item, cmp, n);
    }

    /** `delFromSet`: takes out the first element equal to the key; the key may be any element. */
    method DelFromSet(key: T) returns (r: Option<T>)
      requires Valid()
      modifies this`size, data
      ensures Valid()
      ensures !Found(old(Contents()), key, cmp) ==> r == None && Contents() == old(Contents())
      ensures Found(old(Contents()), key, cmp) ==>
        var i := ScanIndex(old(Contents()), key, cmp);
        r == Some(old(Contents())[i]) && Contents() == RemoveAt(old(Contents()), i)
    {
      ghost var s := Contents();
      var n := 0;
      while n < size && cmp(data[n], key) < 0
        invariant 0 <= n <= size && Contents() == s
        invariant forall j | 0 <= j < n :: cmp(s[j], key) < 0
      {
        assert data[n] == s[n];
        n := n + 1;
      }
      assert n < size ==> data[n] == s[n];
      ScanIndexUnique(s, key, cmp, n);
      if n == size || cmp(data[n], key) > 0 {
        return None;
      }
      var curr := data[n];
      n := ShiftLeft(n);
      data[n] := nil;
      size := size - 1;
      return Some(curr);
    }

    /** The inner loop of `delFromSet`. */
    method ShiftLeft(from: nat) returns (n: nat)
      requires Valid() && from < size
      modifies data
      ensures n == size - 1
      ensures data[..n] == RemoveAt(old(data[..size]), from)
    {
      ghost var s := data[..size];
      n := from;
      while n + 1 < size
        invariant from <= n < size
        invariant data[..n] == s[..from] + s[from + 1..n + 1]
        invariant data[n + 1..size] == s[n + 1..]
      {
        assert data[n + 1] == data[n + 1..size][0] == s[n + 1];
        data[n] := data[n + 1];
        n := n + 1;
      }
    }

    /** `searchListSet`. */
    method Search(key: T) returns (r: Option<T>)
      requires Valid()
      ensures var i := BinarySearch(Contents(), 0, |Contents()|, key, cmp);
        r == if i.Some? then Some(Contents()[i.value]) else None
    {
      r := None;
      if 0 < size {
        var i := BinarySearch(data[..size], 0, size, key, cmp);
        if i.Some? {
          r := Some(data[i.value]);
        }
      }
    }
  }
}
