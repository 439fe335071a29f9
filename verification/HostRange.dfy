/** Building a collection from a list of host specifications (`gvm_hosts_new_with_max` of `hosts.c`). */
module HostRange {
  import opened Wrappers
  import opened Bits
  import opened Address
  import opened HostLists
  import opened Hosts

  /** One past the greatest IPv6 address. */
  const WORD6 := Pow256(16)

  // ----- ranges

  function Range4(first: nat, n: nat): seq<Entry> {
    if n == 0 then [] else Range4(first, n - 1) + [Entry(V4(first + n - 1), [])]
  }

  function Range6(first: nat, n: nat): seq<Entry> {
    if n == 0 then [] else Range6(first, n - 1) + [Entry(V6(first + n - 1), [])]
  }

  /** A range has every address from the first to the last once, in ascending order. */
  lemma {:induction false} RangeMeaning(first: nat, n: nat)
    ensures |Range4(first, n)| == |Range6(first, n)| == n
    ensures forall i | 0 <= i < n :: Range4(first, n)[i] == Entry(V4(first + i), [])
    ensures forall i | 0 <= i < n :: Range6(first, n)[i] == Entry(V6(first + i), [])
  {
    if n > 0 {
      RangeMeaning(first, n - 1);
    }
  }

  function Size(first: nat, last: nat): nat {
    if first <= last then last - first + 1 else 0
  }

  /** The check in front of every host that is added: `count` may get one above the maximum before it strikes. */
  predicate TooMany(count: nat, max: nat) {
    max > 0 && count > max
  }

  /** Whether a range is expanded completely: its last address is not the greatest one, and the maximum is not passed. */
  predicate Expands(count: nat, first: nat, last: nat, top: nat, max: nat) {
    first > last || (last < top && !TooMany(count + last - first, max))
  }

  /** A new host at the end. */
  method AddNew(set_: HostSet, value: Addr)
    requires set_.Valid()
    modifies set_, set_.hosts
    ensures set_.Valid() && (fresh(set_.hosts) || set_.hosts == old(set_.hosts))
    ensures set_.duplicated == old(set_.duplicated)
    ensures forall h | h in set_.Members() :: h in old(set_.Members()) || fresh(h)
    ensures set_.entries == old(set_.entries) + [Entry(value, [])] && set_.count == old(set_.count) + 1
  {
    var host := new Host(value, []);
    set_.Add(host);
  }

  /** The expansion loop for IPv4, with the counter wrapping at 2^32. It comes to an end by itself when the last
      address is not the greatest one; otherwise only a maximum stops it, and then it always fails. */
  method Expand4(set_: HostSet, first: nat, last: nat, max: nat) returns (ok: bool)
    requires set_.Valid() && first < WORD && last < WORD
    requires last == WORD - 1 && first <= last ==> max > 0
    modifies set_, set_.hosts
    ensures set_.Valid() && (fresh(set_.hosts) || set_.hosts == old(set_.hosts))
    ensures set_.duplicated == old(set_.duplicated)
    ensures forall h | h in set_.Members() :: h in old(set_.Members()) || fresh(h)
    ensures ok <==> Expands(old(set_.count), first, last, WORD - 1, max)
    ensures ok ==> set_.entries == old(set_.entries) + Range4(first, Size(first, last))
  {
    hide HostSet.Valid;
    ok := true;
    ghost var es, start := set_.entries, set_.count;
    Range4Step(es, first);
    if first > last {
      return;
    }
    var current: nat := first;
    ghost var n: nat := 0;
    while current <= last
      invariant set_.Valid() && (fresh(set_.hosts) || set_.hosts == old(set_.hosts))
      invariant set_.duplicated == old(set_.duplicated)
      invariant forall h | h in set_.Members() :: h in old(set_.Members()) || fresh(h)
      invariant set_.count == start + n && current < WORD
      invariant last < WORD - 1 ==> current == first + n <= last + 1 && set_.entries == es + Range4(first, n)
      invariant n > 0 ==> !TooMany(start + n - 1, max)
      decreases if last == WORD - 1 then max + 1 - n else last + 1 - current
    {
      if TooMany(set_.count, max) {
        return false;
      }
      AddNew(set_, V4(current));
      Range4Next(es, first, n);
      current := (current + 1) % WORD;
      n := n + 1;
    }
  }

  lemma Range4Step(es: seq<Entry>, first: nat)
    ensures es + Range4(first, 0) == es
  {
  }

  lemma Range4Next(es: seq<Entry>, first: nat, n: nat)
    ensures es + Range4(first, n) + [Entry(V4(first + n), [])] == es + Range4(first, n + 1)
  {
  }

  /** `memcpy` of an IPv6 address into an array of its own. */
  method NewAddress(s: seq<Byte>) returns (a: array<Byte>)
    requires |s| == 16
    ensures fresh(a) && a.Length == 16 && a[..] == s
  {
    a := new Byte[16](i requires 0 <= i < 16 => s[i]);
  }

  /** The expansion loop for IPv6: a counter of sixteen bytes, compared byte by byte. */
  method Expand6(set_: HostSet, first: array<Byte>, last: array<Byte>, max: nat) returns (ok: bool)
    requires set_.Valid() && first.Length == last.Length == 16
    requires Value(last[..]) == WORD6 - 1 && Value(first[..]) <= Value(last[..]) ==> max > 0
    modifies set_, set_.hosts
    ensures set_.Valid() && (fresh(set_.hosts) || set_.hosts == old(set_.hosts))
    ensures set_.duplicated == old(set_.duplicated)
    ensures forall h | h in set_.Members() :: h in old(set_.Members()) || fresh(h)
    ensures ok <==> Expands(old(set_.count), Value(first[..]), Value(last[..]), WORD6 - 1, max)
    ensures ok ==>
      set_.entries == old(set_.entries) + Range6(Value(first[..]), Size(Value(first[..]), Value(last[..])))
  {
    hide Value, MemCmp, Pow256, Range6, Shows;
    ok := true;
    ghost var es, start, lo, hi := set_.entries, set_.count, Value(first[..]), Value(last[..]);
    Range6Step(es, lo);
    MemCmpIsOrder(first[..], last[..]);
    if MemCmp(first[..], last[..]) > 0 {
      return;
    }
    var current := NewAddress(first[..]);
    ghost var n: nat := 0;
    ValueBelow(last[..]);
    while MemCmp(current[..], last[..]) <= 0
      invariant set_.Valid() && (fresh(set_.hosts) || set_.hosts == old(set_.hosts))
      invariant set_.duplicated == old(set_.duplicated)
      invariant forall h | h in set_.Members() :: h in old(set_.Members()) || fresh(h)
      invariant current.Length == 16 && fresh(current) && last[..] == old(last[..]) && first[..] == old(first[..])
      invariant set_.count == start + n && (current as object) != (set_.hosts as object)
      invariant hi < WORD6 - 1 ==> Value(current[..]) == lo + n <= hi + 1 && set_.entries == es + Range6(lo, n)
      invariant n > 0 ==> !TooMany(start + n - 1, max)
      decreases if hi == WORD6 - 1 then max + 1 - n else hi + 1 - Value(current[..])
    {
      MemCmpIsOrder(current[..], last[..]);
      if TooMany(set_.count, max) {
        return false;
      }
      AddNew(set_, V6(Value(current[..])));
      Range6Next(es, lo, n);
      Increment(current);
      n := n + 1;
    }
    MemCmpIsOrder(current[..], last[..]);
    ValueBelow(current[..]);
  }

  lemma Range6Step(es: seq<Entry>, first: nat)
    ensures es + Range6(first, 0) == es
  {
  }

  lemma Range6Next(es: seq<Entry>, first: nat, n: nat)
    ensures es + Range6(first, n) + [Entry(V6(first + n), [])] == es + Range6(first, n + 1)
  {
  }

  /** The counter of the IPv4 loop after `k` rounds. */
  function Counter(first: nat, k: nat): nat {
    if k == 0 then first else (Counter(first, k - 1) + 1) % WORD
  }

  /** Without a maximum the loop goes on for ever exactly when the last address is the greatest one: the counter
      wraps and never passes it. */
  lemma {:induction false} EndlessIff(first: nat, last: nat)
    requires first <= last < WORD
    ensures (forall k: nat :: Counter(first, k) <= last) <==> last == WORD - 1
  {
    if last == WORD - 1 {
      forall k: nat ensures Counter(first, k) <= last {
        CounterInWord(first, k);
      }
    } else {
      CounterRuns(first, last - first + 1);
    }
  }

  lemma {:induction false} CounterInWord(first: nat, k: nat)
    requires first < WORD
    ensures Counter(first, k) < WORD
  {
  }

  lemma {:induction false} CounterRuns(first: nat, k: nat)
    requires first + k < WORD
    ensures Counter(first, k) == first + k
  {
    if k > 0 {
      CounterRuns(first, k - 1);
    }
  }

  /** The sixteen bytes of the IPv6 loop after `k` rounds. */
  function Counter6(first: seq<Byte>, k: nat): (c: seq<Byte>)
    ensures |c| == |first|
  {
    if k == 0 then first
    else
      UpIsPlusOne(Counter6(first, k - 1));
      Up(Counter6(first, k - 1))
  }

  /** The IPv6 loop goes on for ever under the same condition: the carry runs out of the first byte. */
  lemma {:induction false} EndlessIff6(first: seq<Byte>, last: seq<Byte>)
    requires |first| == |last| == 16 && Value(first) <= Value(last)
    ensures (forall k: nat :: MemCmp(Counter6(first, k), last) <= 0) <==> Value(last) == WORD6 - 1
  {
    hide Value, MemCmp, Pow256, Up;
    Pow256Of16();
    ValueBelow(last);
    forall k: nat ensures MemCmp(Counter6(first, k), last) <= 0 <==> Value(Counter6(first, k)) <= Value(last) {
      Counter6Value(first, k);
      MemCmpIsOrder(Counter6(first, k), last);
    }
    if Value(last) == WORD6 - 1 {
      forall k: nat ensures Value(Counter6(first, k)) <= Value(last) {
        Counter6Value(first, k);
        ValueBelow(Counter6(first, k));
      }
    } else {
      var k := Value(last) - Value(first) + 1;
      Counter6Value(first, k);
      assert Value(Counter6(first, k)) > Value(last);
    }
  }

  lemma Pow256Of16()
    ensures Pow256(16) == WORD6
  {
    Pow256Is(16);
  }

  lemma {:induction false} Counter6Value(first: seq<Byte>, k: nat)
    requires |first| == 16
    ensures Value(first) + k < WORD6 ==> Value(Counter6(first, k)) == Value(first) + k
  {
    hide Value, Pow256, Up;
    if k > 0 {
      Counter6Value(first, k - 1);
      UpIsPlusOne(Counter6(first, k - 1));
      Pow256Of16();
    }
  }

  // ----- lists of specifications

  /** What type detection makes of one element of the list, with its numbers read. */
  datatype Element =
    | Invalid
    | Blank
    | One(value: Addr)
    | Cidr4(addr: nat, block: nat)
    | Short4(addr: nat, end: nat)
    | Long4(first: nat, last: nat)
    | Cidr6(bytes: seq<Byte>, block: nat)
    | Short6(bytes: seq<Byte>, end: nat)
    | Long6(from: seq<Byte>, to: seq<Byte>)

  /** The bounds that type detection guarantees. */
  predicate WellTyped(e: Element) {
    match e
    case Invalid => true
    case Blank => true
    case One(_) => true
    case Cidr4(addr, block) => addr < WORD && 1 <= block <= 30
    case Short4(addr, end) => addr < WORD && end <= 255
    case Long4(first, last) => first < WORD && last < WORD
    case Cidr6(bytes, block) => |bytes| == 16 && 1 <= block <= 128
    case Short6(bytes, end) => |bytes| == 16 && end <= 0xffff
    case Long6(from, to) => |from| == |to| == 16
  }

  predicate IsRange(e: Element) {
    !e.Invalid? && !e.Blank? && !e.One?
  }

  predicate IsV4(e: Element) {
    e.Cidr4? || e.Short4? || e.Long4?
  }

  /** First and last address of a range. A block leaves its network and broadcast addresses out, if it has more than
      two. */
  ghost function Bounds(e: Element): (nat, nat)
    requires WellTyped(e) && IsRange(e)
  {
    match e
    case Cidr4(addr, block) => BlockBounds4(addr, block)
    case Short4(addr, end) => (addr, Network(addr, 256) + end)
    case Long4(first, last) => (first, last)
    case Cidr6(bytes, block) => BlockBounds6(Value(bytes), block)
    case Short6(bytes, end) => (Value(bytes), Network(Value(bytes), 0x1_0000) + end)
    case Long6(from, to) => (Value(from), Value(to))
  }

  /** The network address of a block. */
  function Network(addr: nat, size: nat): (net: nat)
    requires size > 0
  {
    RestBelow(addr, size);
    addr - addr % size
  }

  lemma RestBelow(addr: nat, size: nat)
    requires size > 0
    ensures addr % size <= addr
  {
  }

  function BlockBounds4(addr: nat, block: nat): (nat, nat)
    requires 1 <= block <= 30
  {
    var net, size := Network(addr, Pow2(32 - block)), Pow2(32 - block);
    (net + 1, if size >= 2 then net + size - 2 else net)
  }

  function BlockBounds6(addr: nat, block: nat): (nat, nat)
    requires 1 <= block <= 128
  {
    var net, size := Network(addr, Pow2(128 - block)), Pow2(128 - block);
    if block == 128 then (addr, addr) else if block == 127 then (net, net + 1)
    else (net + 1, if size >= 2 then net + size - 2 else net)
  }

  ghost function Top(e: Element): int {
    if IsV4(e) then WORD - 1 else WORD6 - 1
  }

  /** A range up to the greatest address: its loop does not end by itself. */
  ghost predicate Endless(e: Element)
    requires WellTyped(e)
  {
    IsRange(e) && Bounds(e).0 <= Bounds(e).1 && Bounds(e).1 == Top(e)
  }

  ghost function Expansion(e: Element): seq<Entry>
    requires WellTyped(e)
  {
    if e.One? then [Entry(e.value, [])]
    else if !IsRange(e) then []
    else
      var (first, last) := Bounds(e);
      if IsV4(e) then Range4(first, Size(first, last)) else Range6(first, Size(first, last))
  }

  ghost function All(es: seq<Element>): seq<Entry>
    requires forall e | e in es :: WellTyped(e)
  {
    if |es| == 0 then [] else All(es[..|es| - 1]) + Expansion(es[|es| - 1])
  }

  /** An IPv4 block never reaches the greatest address. */
  lemma BlocksEnd(e: Element)
    requires WellTyped(e) && e.Cidr4?
    ensures !Endless(e)
  {
    hide Pow2;
    BlockFacts(e.addr, e.block);
  }

  /** An IPv6 block reaches the greatest address only if it leaves no broadcast address out, that is with one or two
      addresses, and is the last block of its size. */
  lemma Blocks6EndIff(e: Element)
    requires WellTyped(e) && e.Cidr6?
    ensures var size := Pow2(128 - e.block);
      Endless(e) <==> e.block >= 127 && Network(Value(e.bytes), size) + size == WORD6
  {
    hide Pow2, Value, Pow256;
    ValueBelow(e.bytes);
    if e.block < 128 {
      BlockBounds(e.bytes, e.block);
    } else {
      OneAddress();
    }
  }

  lemma OneAddress()
    ensures Pow2(128 - 128) == 1
  {
  }

  // ----- what an element names

  /** `x` is in the block of `addr`, but neither its first nor its last address. */
  predicate Usable(x: nat, addr: nat, size: nat)
    requires size > 0
  {
    x / size == addr / size && x % size != 0 && x % size != size - 1
  }

  /** A block has its usable addresses, but those of one or two addresses all of them; a short range goes on to another
      last number, a long one to another address. */
  ghost predicate NamedBy(e: Element, v: Addr)
    requires WellTyped(e)
  {
    match e
    case Invalid => false
    case Blank => false
    case One(value) => v == value
    case Cidr4(addr, block) => v.V4? && Usable(v.addr, addr, Pow2(32 - block))
    case Short4(addr, end) => v.V4? && addr <= v.addr <= addr - addr % 256 + end
    case Long4(first, last) => v.V4? && first <= v.addr <= last
    case Cidr6(bytes, block) =>
      var size := Pow2(128 - block);
      v.V6? && if block >= 127 then v.addr / size == Value(bytes) / size else Usable(v.addr, Value(bytes), size)
    case Short6(bytes, end) => v.V6? && Value(bytes) <= v.addr <= Value(bytes) - Value(bytes) % 0x1_0000 + end
    case Long6(from, to) => v.V6? && Value(from) <= v.addr <= Value(to)
  }

  lemma InRange(first: nat, last: nat, v: Addr)
    ensures (exists x :: x in Range4(first, Size(first, last)) && x.value == v) <==> v.V4? && first <= v.addr <= last
    ensures (exists x :: x in Range6(first, Size(first, last)) && x.value == v) <==> v.V6? && first <= v.addr <= last
  {
    hide Range4, Range6;
    var n := Size(first, last);
    RangeMeaning(first, n);
    if !v.Name? && first <= v.addr <= last {
      var i := v.addr - first;
      if v.V4? {
        assert Range4(first, n)[i] == Entry(v, []);
      } else {
        assert Range6(first, n)[i] == Entry(v, []);
      }
    }
  }

  lemma NamedBounds(e: Element, v: Addr)
    requires WellTyped(e) && IsRange(e)
    ensures NamedBy(e, v) <==> v.V4? == IsV4(e) && !v.Name? && Bounds(e).0 <= v.addr <= Bounds(e).1
  {
    hide Pow2, Value, Usable, BlockBounds4, BlockBounds6;
    if v.Name? {
      return;
    }
    match e {
      case Cidr4(addr, block) => InBlock4(addr, block, v.addr);
      case Cidr6(bytes, block) => InBlock6(bytes, block, v.addr);
      case Short4(_, _) =>
      case Long4(_, _) =>
      case Short6(_, _) =>
      case Long6(_, _) =>
    }
  }

  lemma InBlock4(addr: nat, block: nat, x: nat)
    requires addr < WORD && 1 <= block <= 30
    ensures Usable(x, addr, Pow2(32 - block)) <==> BlockBounds4(addr, block).0 <= x <= BlockBounds4(addr, block).1
  {
    hide Pow2;
    BlockFacts(addr, block);
    UsableAddresses(addr, block, x);
  }

  lemma InBlock6(bytes: seq<Byte>, block: nat, x: nat)
    requires |bytes| == 16 && 1 <= block <= 128
    ensures var size := Pow2(128 - block);
      (if block >= 127 then x / size == Value(bytes) / size else Usable(x, Value(bytes), size))
      <==> BlockBounds6(Value(bytes), block).0 <= x <= BlockBounds6(Value(bytes), block).1
  {
    hide Pow2, Value;
    if block == 128 {
      OneAddress();
    } else {
      BlockBounds(bytes, block);
      hide WORD6;
      SameBlock(Value(bytes), Pow2(128 - block), x);
    }
  }

  /** An element is expanded to the addresses that it names, without virtual hosts. */
  lemma ElementMeaning(e: Element, v: Addr)
    requires WellTyped(e)
    ensures (exists x :: x in Expansion(e) && x.value == v) <==> NamedBy(e, v)
    ensures forall x | x in Expansion(e) :: x.vhosts == []
  {
    hide NamedBy, Bounds, Range4, Range6;
    if IsRange(e) {
      var (first, last) := Bounds(e);
      NamedBounds(e, v);
      InRange(first, last, v);
      RangeMeaning(first, Size(first, last));
    } else {
      SingleMeaning(e, v);
    }
  }

  lemma SingleMeaning(e: Element, v: Addr)
    requires WellTyped(e) && !IsRange(e)
    ensures (exists x :: x in Expansion(e) && x.value == v) <==> NamedBy(e, v)
    ensures forall x | x in Expansion(e) :: x.vhosts == []
  {
    if e.One? {
      assert Entry(e.value, []) in Expansion(e);
    }
  }

  lemma ExpansionSize(e: Element)
    requires WellTyped(e)
    ensures IsRange(e) ==> |Expansion(e)| == Size(Bounds(e).0, Bounds(e).1)
    ensures !IsRange(e) ==> |Expansion(e)| == if e.One? then 1 else 0
  {
    hide Bounds;
    if IsRange(e) {
      RangeMeaning(Bounds(e).0, Size(Bounds(e).0, Bounds(e).1));
    }
  }

  lemma {:induction false} AllGrows(es: seq<Element>, i: nat)
    requires i <= |es| && forall e | e in es :: WellTyped(e)
    ensures |All(es[..i])| <= |All(es)|
  {
    hide Expansion, WellTyped;
    if i < |es| {
      assert es[..|es| - 1][..i] == es[..i];
      AllGrows(es[..|es| - 1], i);
    } else {
      assert es[..i] == es;
    }
  }

  lemma AllSnoc(es: seq<Element>, i: nat)
    requires i < |es| && forall e | e in es :: WellTyped(e)
    ensures All(es[..i + 1]) == All(es[..i]) + Expansion(es[i])
  {
    assert es[..i + 1][..i] == es[..i];
  }

  /** The ranges of IPv4, expanded. */
  method AddRange4(set_: HostSet, e: Element, max: nat) returns (ok: bool)
    requires set_.Valid() && WellTyped(e) && IsV4(e) && (Endless(e) ==> max > 0)
    modifies set_, set_.hosts
    ensures set_.Valid() && (fresh(set_.hosts) || set_.hosts == old(set_.hosts))
    ensures set_.duplicated == old(set_.duplicated)
    ensures forall h | h in set_.Members() :: h in old(set_.Members()) || fresh(h)
    ensures ok == Expands(old(set_.count), Bounds(e).0, Bounds(e).1, WORD - 1, max)
    ensures ok ==> set_.entries == old(set_.entries) + Expansion(e)
  {
    var first, last := Ips4(e);
    hide HostSet.Valid, Bounds, Range4;
    ok := Expand4(set_, first, last, max);
  }

  method Ips4(e: Element) returns (first: nat, last: nat)
    requires WellTyped(e) && IsV4(e)
    ensures (first, last) == Bounds(e) && first < WORD && last < WORD
  {
    hide Pow2;
    match e {
      case Cidr4(addr, block) =>
        BlockFacts(addr, block);
        first, last := CidrBlockIps(addr, block);
      case Short4(addr, end) =>
        first, last := ShortRangeIps(addr, end);
      case Long4(a, b) =>
        first, last := a, b;
    }
  }

  /** The ranges of IPv6, expanded. */
  method AddRange6(set_: HostSet, e: Element, max: nat) returns (ok: bool)
    requires set_.Valid() && WellTyped(e) && IsRange(e) && !IsV4(e) && (Endless(e) ==> max > 0)
    modifies set_, set_.hosts
    ensures set_.Valid() && (fresh(set_.hosts) || set_.hosts == old(set_.hosts))
    ensures set_.duplicated == old(set_.duplicated)
    ensures forall h | h in set_.Members() :: h in old(set_.Members()) || fresh(h)
    ensures ok == Expands(old(set_.count), Bounds(e).0, Bounds(e).1, WORD6 - 1, max)
    ensures ok ==> set_.entries == old(set_.entries) + Expansion(e)
  {
    var first, last := Ips6(e);
    hide HostSet.Valid, Bounds, Range6, Value, Pow256;
    ok := Expand6(set_, first, last, max);
  }

  method Ips6(e: Element) returns (first: array<Byte>, last: array<Byte>)
    requires WellTyped(e) && IsRange(e) && !IsV4(e)
    ensures fresh(first) && fresh(last) && first.Length == last.Length == 16
    ensures (Value(first[..]), Value(last[..])) == Bounds(e)
  {
    hide Pow2, Value;
    match e {
      case Cidr6(bytes, block) =>
        first := NewAddress(bytes);
        last := NewAddress(bytes);
        if block < 128 {
          BlockSizes(block);
        }
        Cidr6BlockIps(first, last, block);
      case Short6(bytes, end) =>
        first := NewAddress(bytes);
        last := NewAddress(bytes);
        ShortRange6Ips(first, last, end);
      case Long6(from, to) =>
        first := NewAddress(from);
        last := NewAddress(to);
    }
  }

  /** Whether an element can be taken in completely. */
  ghost predicate Fits(e: Element, count: nat, max: nat)
    requires WellTyped(e)
  {
    !e.Invalid? && !Endless(e) && !TooMany(count + |Expansion(e)|, max)
  }

  lemma FitsIs(e: Element, count: nat, max: nat)
    requires WellTyped(e) && !TooMany(count, max)
    ensures IsRange(e) ==>
      (Fits(e, count, max)
       <==> Expands(count, Bounds(e).0, Bounds(e).1, Top(e), max) && !TooMany(count + |Expansion(e)|, max))
    ensures e.Blank? ==> Fits(e, count, max) && Expansion(e) == []
    ensures e.One? ==> Expansion(e) == [Entry(e.value, [])] && (Fits(e, count, max) <==> !TooMany(count + 1, max))
    ensures e.Invalid? ==> !Fits(e, count, max)
  {
    hide Bounds, Expansion;
    ExpansionSize(e);
    BelowTop(e);
    if e.One? {
      OneExpansion(e);
    }
  }

  lemma OneExpansion(e: Element)
    requires e.One?
    ensures Expansion(e) == [Entry(e.value, [])]
  {
  }

  lemma BelowTop(e: Element)
    requires WellTyped(e)
    ensures IsRange(e) ==> Bounds(e).1 <= Top(e)
  {
    hide Pow2, Value, Pow256;
    match e {
      case Cidr4(addr, block) => BlockFacts(addr, block);
      case Short4(addr, end) => LastByte(addr);
      case Long4(_, _) =>
      case Cidr6(bytes, block) =>
        if block < 128 {
          BlockBounds(bytes, block);
        }
        ValueBelow(bytes);
      case Short6(bytes, end) =>
        ValueBelow(bytes);
        LastBytes(bytes);
      case Long6(from, to) => ValueBelow(to);
      case Invalid =>
      case Blank =>
      case One(_) =>
    }
  }

  lemma LastByte(addr: nat)
    requires addr < WORD
    ensures addr - addr % 256 + 255 <= WORD - 1
  {
  }

  lemma LastBytes(bytes: seq<Byte>)
    requires |bytes| == 16
    ensures Value(bytes) - Value(bytes) % 0x1_0000 + 0xffff <= WORD6 - 1
  {
    ValueBelow(bytes);
    Pow256Is(14);
    assert Pow256(16) == 256 * (256 * Pow256(14));
    hide Value, Pow256;
    BlockBelow(Value(bytes), 0x1_0000, Pow256(14));
  }

  /** One element of the list. */
  method AddElement(set_: HostSet, e: Element, max: nat) returns (ok: bool)
    requires set_.Valid() && WellTyped(e) && (Endless(e) ==> max > 0) && !TooMany(set_.count, max)
    modifies set_, set_.hosts
    ensures set_.Valid() && (fresh(set_.hosts) || set_.hosts == old(set_.hosts))
    ensures set_.duplicated == old(set_.duplicated)
    ensures forall h | h in set_.Members() :: h in old(set_.Members()) || fresh(h)
    ensures ok == Fits(e, old(set_.count), max)
    ensures ok ==> set_.entries == old(set_.entries) + Expansion(e)
  {
    hide HostSet.Valid, Endless, Bounds, Expansion, Fits, Expands;
    FitsIs(e, set_.count, max);
    ghost var es := set_.entries;
    CountIs(set_);
    ok := true;
    match e {
      case Invalid =>
        return false;
      case Blank =>
        assert es + [] == es;
        return;
      case One(value) =>
        AddNew(set_, value);
      case Cidr4(_, _) => ok := AddRange4(set_, e, max);
      case Short4(_, _) => ok := AddRange4(set_, e, max);
      case Long4(_, _) => ok := AddRange4(set_, e, max);
      case Cidr6(_, _) => ok := AddRange6(set_, e, max);
      case Short6(_, _) => ok := AddRange6(set_, e, max);
      case Long6(_, _) => ok := AddRange6(set_, e, max);
    }
    CountIs(set_);
    if ok && TooMany(set_.count, max) {
      ok := false;
    }
  }

  lemma CountIs(set_: HostSet)
    requires set_.Valid()
    ensures set_.count == |set_.entries|
  {
  }

  /** Whether a list yields a collection: nothing invalid, nothing endless, and not more hosts than allowed. */
  ghost predicate Accepted(es: seq<Element>, max: nat)
    requires forall e | e in es :: WellTyped(e)
  {
    (forall e | e in es :: !e.Invalid? && !Endless(e)) && (max == 0 || |All(es)| <= max)
  }

  lemma RejectedAt(es: seq<Element>, i: nat, max: nat)
    requires i < |es| && (forall e | e in es :: WellTyped(e)) && !Fits(es[i], |All(es[..i])|, max)
    ensures !Accepted(es, max)
  {
    hide Expansion, Endless, WellTyped;
    assert es[i] in es;
    AllSnoc(es, i);
    AllGrows(es, i + 1);
  }

  /** `gvm_hosts_new_with_max`, after the list has been split: `null` exactly when the list is not accepted, and
      otherwise all hosts in order, without duplicates if there was more than one element. The result never has more
      hosts than a maximum other than 0. */
  method NewWithMax(elements: seq<Element>, max: nat) returns (r: HostSet?)
    requires forall e | e in elements :: WellTyped(e)
    requires max > 0 || forall e | e in elements :: !Endless(e)
    ensures r != null <==> Accepted(elements, max)
    ensures r != null ==> fresh(r) && fresh(r.hosts) && r.Valid() && (max > 0 ==> r.count <= max)
    ensures r != null ==> r.entries == if |elements| > 1 then Dedup(All(elements)) else All(elements)
    ensures r != null ==> r.count + r.duplicated == |All(elements)|
  {
    hide HostSet.Valid, Expansion, Endless, WellTyped, Fits, All, Dedup;
    var hosts := new HostSet();
    NothingToAdd();
    assert elements[..0] == [];
    var i := 0;
    while i < |elements|
      invariant 0 <= i <= |elements|
      invariant hosts.Valid() && fresh(hosts) && fresh(hosts.hosts)
      invariant hosts.entries == All(elements[..i]) && hosts.count == |hosts.entries| && hosts.duplicated == 0
      invariant !TooMany(hosts.count, max) && forall h | h in hosts.Members() :: fresh(h)
      invariant forall k | 0 <= k < i :: !elements[k].Invalid? && !Endless(elements[k])
    {
      assert elements[i] in elements;
      var ok := AddElement(hosts, elements[i], max);
      if !ok {
        RejectedAt(elements, i, max);
        return null;
      }
      FitsMeans(elements, i, max);
      CountIs(hosts);
      i := i + 1;
    }
    assert elements[..i] == elements;
    if |elements| > 1 {
      hosts.Deduplicate();
      CountIs(hosts);
      DedupMeaning(All(elements));
    }
    r := hosts;
  }

  lemma NothingToAdd()
    ensures All([]) == []
  {
  }

  lemma FitsMeans(es: seq<Element>, i: nat, max: nat)
    requires i < |es| && (forall e | e in es :: WellTyped(e)) && Fits(es[i], |All(es[..i])|, max)
    ensures !es[i].Invalid? && !Endless(es[i]) && !TooMany(|All(es[..i + 1])|, max)
    ensures All(es[..i + 1]) == All(es[..i]) + Expansion(es[i])
  {
    hide Expansion, Endless, WellTyped, All;
    AllSnoc(es, i);
  }

  lemma SameValues(es: seq<Entry>)
    ensures ValueSet(Dedup(es)) == ValueSet(es)
  {
    DedupMeaning(es);
    hide Dedup, Firsts;
    forall v ensures v in ValueSet(Dedup(es)) <==> v in ValueSet(es) {
      FirstsMembers(Values(es), v);
      InValues(es, v);
      InValues(Dedup(es), v);
    }
  }

  lemma InValues(es: seq<Entry>, v: Addr)
    ensures v in Values(es) <==> v in ValueSet(es)
  {
    if v in ValueSet(es) {
      var i :| 0 <= i < |es| && es[i].value == v;
      assert Values(es)[i] == v;
    }
  }

  /** `gvm_hosts_exclude_with_max`: a list that is not accepted changes nothing and answers -1; otherwise exactly the
      hosts with a value that the list names go, the rest stays in order, and the answer says how many went. */
  method ExcludeWithMax(set_: HostSet, excluded: Option<seq<Element>>, max: nat) returns (ret: int)
    requires set_.Valid() && (excluded.Some? ==> forall e | e in excluded.value :: WellTyped(e))
    requires excluded.Some? ==> max > 0 || forall e | e in excluded.value :: !Endless(e)
    modifies set_, set_.hosts
    ensures set_.Valid()
    ensures var accepted := excluded.Some? && Accepted(excluded.value, max);
      && (ret == -1 <==> !accepted)
      && set_.entries == (if accepted then Keep(old(set_.entries), ValueSet(All(excluded.value))) else old(set_.entries))
      && (accepted ==> ret == old(set_.count) - set_.count && set_.removed == old(set_.removed) + ret)
  {
    hide Keep, ValueSet, All, Accepted, Dedup, Endless, WellTyped;
    if excluded.None? {
      return -1;
    }
    var other := NewWithMax(excluded.value, max);
    SameValues(All(excluded.value));
    ret := set_.Exclude(other);
  }
}
