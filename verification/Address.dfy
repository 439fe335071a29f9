/** The first and last addresses of network blocks and ranges (`hosts.c`). An IPv4 address is the number that
    `ntohl` gives; an IPv6 address is an array of 16 bytes, most significant first. */
module Address {
  import opened Bits

  type Byte = x: int | 0 <= x < 256

  const WORD := 0x1_0000_0000

  lemma Powers()
    ensures Pow2(2) == 4 && Pow2(8) == 256 && Pow2(32) == WORD
  {
    assert Pow2(8) == 256;
    Pow2Add(8, 8);
    Pow2Add(16, 16);
  }

  // ----- IPv4

  /** `cidr_block_ips`, on the address and the block number; everything is taken modulo 2^32. */
  method CidrBlockIps(addr: nat, block: nat) returns (first: nat, last: nat)
    requires addr < WORD && 1 <= block <= 30
    ensures var size := Pow2(32 - block);
      var net := addr - addr % size;
      && first == net + 1
      && last == net + size - 2
      && first <= last < WORD - 1
  {
    hide Pow2, BitAnd, BitXor;
    BlockFacts(addr, block);
    ghost var n, rest := Pow2(32 - block), addr % Pow2(32 - block);
    var size := Pow2(32 - block) % WORD;
    first := BitAnd(addr, BitXor(0xffff_ffff, size - 1));
    first := (first + 1) % WORD;
    last := (first + size - 3) % WORD;
  }

  lemma BlockFacts(addr: nat, block: nat)
    requires addr < WORD && 1 <= block <= 30
    ensures var size := Pow2(32 - block);
      && 4 <= size < WORD
      && BitAnd(addr, BitXor(0xffff_ffff, size - 1)) == addr - addr % size
      && addr - addr % size + size <= WORD
  {
    hide Pow2, BitAnd, BitXor;
    Powers();
    Pow2Mono(2, 32 - block);
    SmallBlock(block);
    HighMask(32, 32 - block);
    AndHighMask(addr, 32, 32 - block);
    BlockInWord(addr, block);
  }

  lemma SmallBlock(block: nat)
    requires 1 <= block <= 32
    ensures Pow2(32 - block) < WORD
  {
    Powers();
    assert Pow2(32) == 2 * Pow2(31);
    hide Pow2;
    Pow2Mono(32 - block, 31);
  }

  lemma BlockInWord(addr: nat, block: nat)
    requires addr < WORD && 1 <= block <= 32
    ensures addr - addr % Pow2(32 - block) + Pow2(32 - block) <= WORD
  {
    Powers();
    Pow2Add(block, 32 - block);
    hide Pow2;
    BlockBelow(addr, Pow2(32 - block), Pow2(block));
  }

  /** A block that starts below a multiple of its size ends at or below it. */
  lemma BlockBelow(a: nat, size: nat, n: nat)
    requires size > 0 && a < n * size
    ensures a - a % size + size <= n * size
  {
    var q := a / size;
    assert a == q * size + a % size;
    assert q >= n ==> q * size >= n * size;
    assert (q + 1) * size == q * size + size;
    assert q + 1 <= n ==> (q + 1) * size <= n * size;
  }

  /** The range consists of exactly the addresses of the block without its first and its last one. */
  lemma UsableAddresses(addr: nat, block: nat, x: nat)
    requires addr < WORD && 1 <= block <= 30
    ensures var size := Pow2(32 - block);
      var net := addr - addr % size;
      net + 1 <= x <= net + size - 2 <==> x / size == addr / size && x % size != 0 && x % size != size - 1
  {
    hide Pow2;
    SameBlock(addr, Pow2(32 - block), x);
  }

  /** The addresses of a block, counted from its network address. */
  lemma SameBlock(addr: nat, size: nat, x: nat)
    requires size > 0
    ensures var net := addr - addr % size;
      && (net <= x < net + size <==> x / size == addr / size)
      && (x / size == addr / size ==> x % size == x - net)
  {
    var q, net := addr / size, addr - addr % size;
    assert net == q * size && x == (x / size) * size + x % size;
    if net <= x < net + size {
      DivUnique(x, size, q, x - net);
    }
  }

  /** `short_range_network_ips`: the last byte is replaced by a number up to 255. */
  method ShortRangeIps(addr: nat, end: nat) returns (first: nat, last: nat)
    requires addr < WORD && end <= 255
    ensures first == addr && last == addr - addr % 256 + end && last < WORD
  {
    hide Pow2, BitAnd;
    first := addr;
    Powers();
    AndHighMask(addr, 32, 8);
    BlockInWord(addr, 24);
    last := (BitAnd(addr, 0xffff_ff00) + end) % WORD;
  }

  // ----- big-endian bytes

  function Value(s: seq<Byte>): nat {
    if |s| == 0 then 0 else 256 * Value(s[..|s| - 1]) + s[|s| - 1]
  }

  function Pow256(n: nat): (p: nat)
    ensures p > 0
  {
    if n == 0 then 1 else 256 * Pow256(n - 1)
  }

  lemma {:induction false} Pow256Is(n: nat)
    ensures Pow256(n) == Pow2(8 * n)
  {
    if n > 0 {
      Pow256Is(n - 1);
      Powers();
      hide Pow2;
      Pow2Add(8, 8 * (n - 1));
    }
  }

  lemma {:induction false} ValueBelow(s: seq<Byte>)
    ensures Value(s) < Pow256(|s|)
  {
    if |s| > 0 {
      ValueBelow(s[..|s| - 1]);
    }
  }

  lemma {:induction false} ValueConcat(a: seq<Byte>, b: seq<Byte>)
    ensures Value(a + b) == Value(a) * Pow256(|b|) + Value(b)
  {
    if |b| == 0 {
      assert a + b == a;
    } else {
      var c := b[..|b| - 1];
      assert (a + b)[..|a + b| - 1] == a + c;
      ValueConcat(a, c);
      Distribute(Value(a), Pow256(|c|), Value(c));
    }
  }

  lemma Distribute(a: nat, p: nat, c: nat)
    ensures 256 * (a * p + c) == a * (256 * p) + 256 * c
  {
  }

  /** `memcmp` on byte strings of equal length: the sign of the first difference. */
  function MemCmp(a: seq<Byte>, b: seq<Byte>): int
    requires |a| == |b|
  {
    if |a| == 0 then 0 else if a[0] != b[0] then a[0] - b[0] else MemCmp(a[1..], b[1..])
  }

  lemma ValueCons(s: seq<Byte>)
    requires |s| > 0
    ensures Value(s) == s[0] * Pow256(|s| - 1) + Value(s[1..])
  {
    hide Value, Pow256;
    assert s == [s[0]] + s[1..];
    ValueConcat([s[0]], s[1..]);
    ValueOne(s[0]);
  }

  lemma ValueOne(x: Byte)
    ensures Value([x]) == x
  {
  }

  /** The order of `memcmp` is the order of the numbers. */
  lemma {:induction false} MemCmpIsOrder(a: seq<Byte>, b: seq<Byte>)
    requires |a| == |b|
    ensures (MemCmp(a, b) < 0 <==> Value(a) < Value(b)) && (MemCmp(a, b) > 0 <==> Value(a) > Value(b))
  {
    hide Value, Pow256, MemCmp;
    MemCmpHead(a, b);
    if |a| == 0 {
      assert a == b;
      return;
    }
    ValueCons(a);
    ValueCons(b);
    ValueBelow(a[1..]);
    ValueBelow(b[1..]);
    MemCmpIsOrder(a[1..], b[1..]);
    HeadDecides(a[0], b[0], Pow256(|a| - 1), Value(a[1..]), Value(b[1..]));
    HeadDecides(b[0], a[0], Pow256(|a| - 1), Value(b[1..]), Value(a[1..]));
  }

  lemma MemCmpHead(a: seq<Byte>, b: seq<Byte>)
    requires |a| == |b|
    ensures MemCmp(a, b) == if |a| == 0 then 0 else if a[0] != b[0] then a[0] - b[0] else MemCmp(a[1..], b[1..])
  {
  }

  lemma HeadDecides(x: int, y: int, p: int, c: int, d: int)
    requires 0 <= c < p && 0 <= d < p
    ensures x * p + c < y * p + d <==> x < y || (x == y && c < d)
  {
    assert x < y ==> (x + 1) * p <= y * p;
    assert x > y ==> (y + 1) * p <= x * p;
    assert (x + 1) * p == x * p + p && (y + 1) * p == y * p + p;
  }

  lemma {:induction false} ValueInjective(a: seq<Byte>, b: seq<Byte>)
    requires |a| == |b| && Value(a) == Value(b)
    ensures a == b
  {
    if |a| > 0 {
      ValueInjective(a[..|a| - 1], b[..|b| - 1]);
      assert a == a[..|a| - 1] + [a[|a| - 1]] && b == b[..|b| - 1] + [b[|b| - 1]];
    }
  }

  // ----- stepping by one

  /** The number one step up, at the byte position `i`: it overflows into the bytes before. */
  function Up(s: seq<Byte>): seq<Byte> {
    if |s| == 0 then []
    else if s[|s| - 1] < 255 then s[..|s| - 1] + [s[|s| - 1] + 1]
    else Up(s[..|s| - 1]) + [0]
  }

  function Down(s: seq<Byte>): seq<Byte> {
    if |s| == 0 then []
    else if s[|s| - 1] > 0 then s[..|s| - 1] + [s[|s| - 1] - 1]
    else Down(s[..|s| - 1]) + [255]
  }

  lemma {:induction false} UpIsPlusOne(s: seq<Byte>)
    ensures |Up(s)| == |s|
    ensures Value(Up(s)) == if Value(s) + 1 == Pow256(|s|) then 0 else Value(s) + 1
  {
    if |s| > 0 {
      var c, l := s[..|s| - 1], s[|s| - 1];
      UpIsPlusOne(c);
      ValueBelow(c);
      ValueSnoc(c, if l < 255 then l + 1 else 0);
      ValueSnoc(Up(c), 0);
    }
  }

  lemma {:induction false} DownIsMinusOne(s: seq<Byte>)
    ensures |Down(s)| == |s|
    ensures Value(Down(s)) == if Value(s) == 0 then Pow256(|s|) - 1 else Value(s) - 1
  {
    if |s| > 0 {
      var c, l := s[..|s| - 1], s[|s| - 1];
      DownIsMinusOne(c);
      ValueSnoc(c, if l > 0 then l - 1 else 255);
      ValueSnoc(Down(c), 255);
    }
  }

  lemma ValueSnoc(c: seq<Byte>, l: Byte)
    ensures Value(c + [l]) == 256 * Value(c) + l
  {
  }

  lemma {:induction false} UpAt(s: seq<Byte>, i: int, t: seq<Byte>)
    requires |t| == |s| && -1 <= i < |s|
    requires forall k | i < k < |s| :: s[k] == 255 && t[k] == 0
    requires i >= 0 ==> s[i] < 255 && t[i] == s[i] + 1
    requires forall k | 0 <= k < i :: t[k] == s[k]
    ensures t == Up(s)
  {
    if |s| > 0 {
      var n := |s| - 1;
      assert t == t[..n] + [t[n]];
      if i < n {
        UpAt(s[..n], i, t[..n]);
      } else {
        assert t[..n] == s[..n];
      }
    }
  }

  lemma {:induction false} DownAt(s: seq<Byte>, i: int, t: seq<Byte>)
    requires |t| == |s| && -1 <= i < |s|
    requires forall k | i < k < |s| :: s[k] == 0 && t[k] == 255
    requires i >= 0 ==> s[i] > 0 && t[i] == s[i] - 1
    requires forall k | 0 <= k < i :: t[k] == s[k]
    ensures t == Down(s)
  {
    if |s| > 0 {
      var n := |s| - 1;
      assert t == t[..n] + [t[n]];
      if i < n {
        DownAt(s[..n], i, t[..n]);
      } else {
        assert t[..n] == s[..n];
      }
    }
  }

  /** The carry loop of `cidr6_block_ips` and of the range expansion: plus one modulo 2^128. */
  method Increment(a: array<Byte>)
    requires a.Length == 16
    modifies a
    ensures Value(a[..]) == if Value(old(a[..])) + 1 == Pow256(16) then 0 else Value(old(a[..])) + 1
  {
    hide *;
    ghost var s := a[..];
    var i := 15;
    while i >= 0
      invariant -1 <= i <= 15
      invariant forall k | 0 <= k <= i :: a[k] == s[k]
      invariant forall k | i < k < 16 :: s[k] == 255 && a[k] == 0
    {
      if a[i] < 255 {
        a[i] := a[i] + 1;
        break;
      }
      a[i] := 0;
      i := i - 1;
    }
    UpAt(s, i, a[..]);
    UpIsPlusOne(s);
  }

  /** The borrow loop: minus one modulo 2^128. */
  method Decrement(a: array<Byte>)
    requires a.Length == 16
    modifies a
    ensures Value(a[..]) == if Value(old(a[..])) == 0 then Pow256(16) - 1 else Value(old(a[..])) - 1
  {
    hide *;
    ghost var s := a[..];
    var i := 15;
    while i >= 0
      invariant -1 <= i <= 15
      invariant forall k | 0 <= k <= i :: a[k] == s[k]
      invariant forall k | i < k < 16 :: s[k] == 0 && a[k] == 255
    {
      if a[i] > 0 {
        a[i] := a[i] - 1;
        break;
      }
      a[i] := 255;
      i := i - 1;
    }
    DownAt(s, i, a[..]);
    DownIsMinusOne(s);
  }

  // ----- IPv6 blocks

  /** The bytes before position `15 - k` kept, `b` in its place, and `fill` behind it. */
  ghost function Edged(s: seq<Byte>, k: nat, b: Byte, fill: Byte): seq<Byte>
    requires |s| == 16 && k < 16
  {
    s[..15 - k] + [b] + seq(k, i requires 0 <= i < k => fill)
  }

  lemma {:induction false} FillValue(k: nat, fill: Byte)
    ensures fill == 0 ==> Value(seq(k, i requires 0 <= i < k => fill)) == 0
    ensures fill == 255 ==> Value(seq(k, i requires 0 <= i < k => fill)) == Pow256(k) - 1
  {
    if k > 0 {
      FillValue(k - 1, fill);
      assert seq(k, i requires 0 <= i < k => fill)[..k - 1] == seq(k - 1, i requires 0 <= i < k - 1 => fill);
    }
  }

  lemma EdgedValue(s: seq<Byte>, k: nat, b: Byte, fill: Byte)
    requires |s| == 16 && k < 16
    ensures Value(Edged(s, k, b, fill))
         == (256 * Value(s[..15 - k]) + b) * Pow256(k) + Value(seq(k, i requires 0 <= i < k => fill))
  {
    hide Value, Pow256;
    ValueSnoc(s[..15 - k], b);
    ValueConcat(s[..15 - k] + [b], seq(k, i requires 0 <= i < k => fill));
  }

  lemma SplitValue(s: seq<Byte>, k: nat)
    requires |s| == 16 && k < 16
    ensures Value(s) == (256 * Value(s[..15 - k]) + s[15 - k]) * Pow256(k) + Value(s[16 - k..])
    ensures Value(s[16 - k..]) < Pow256(k)
  {
    hide Value, Pow256;
    ValueSnoc(s[..15 - k], s[15 - k]);
    ValueConcat(s[..15 - k] + [s[15 - k]], s[16 - k..]);
    assert s == s[..15 - k] + [s[15 - k]] + s[16 - k..];
    ValueBelow(s[16 - k..]);
  }

  /** Clearing the `k` last bytes and the `r` lowest bits of the byte before rounds down to a multiple of the block
      size, and setting them all gives the last number of the block. */
  lemma EdgesOfBlock(high: nat, byte: nat, tail: nat, p: nat, m: nat)
    requires m > 0 && 256 % m == 0 && tail < p
    ensures var a, size := (256 * high + byte) * p + tail, m * p;
      && size > 0
      && (256 * high + byte - byte % m) * p == a - a % size
      && (256 * high + byte - byte % m + m - 1) * p + p - 1 == a - a % size + size - 1
  {
    var c := WholeUnits(high, byte, m);
    Below(byte % m, m, p, tail);
    UnitsOf(c, m, byte % m, p, tail);
  }

  lemma WholeUnits(high: nat, byte: nat, m: nat) returns (c: nat)
    requires m > 0 && 256 % m == 0
    ensures 256 * high + byte - byte % m == c * m
  {
    var q, d := 256 / m, byte / m;
    assert 256 == q * m && byte == d * m + byte % m;
    c := q * high + d;
    Collect(q, m, high, d);
  }

  lemma Collect(q: nat, m: nat, high: nat, d: nat)
    ensures (q * m) * high + d * m == (q * high + d) * m
  {
  }

  lemma UnitsOf(c: nat, m: nat, x: nat, p: nat, tail: nat)
    requires x < m && tail < p && x * p + tail < m * p
    ensures var a, size := (c * m + x) * p + tail, m * p;
      && (c * m) * p == a - a % size
      && (c * m + m - 1) * p + p - 1 == a - a % size + size - 1
  {
    Expand(c, m, p, x);
    Expand(c, m, p, 0);
    Expand(c, m, p, m - 1);
    DivUnique((c * m + x) * p + tail, m * p, c, x * p + tail);
    Minus(m, p);
  }

  lemma Minus(m: nat, p: nat)
    requires m > 0
    ensures (m - 1) * p == m * p - p
  {
  }

  lemma Expand(c: nat, m: nat, p: nat, x: nat)
    ensures (c * m + x) * p == c * (m * p) + x * p
  {
  }

  lemma Below(x: nat, m: nat, p: nat, tail: nat)
    requires x < m && tail < p
    ensures x * p + tail < m * p && m * p > 0
  {
    assert (x + 1) * p <= m * p;
  }

  lemma ByteMasks(b: Byte, r: nat)
    requires r < 8
    ensures var m := Pow2(r);
      && 0 < m <= 256 && 256 % m == 0
      && BitAnd(b, BitXor(0xff, m - 1)) == b - b % m
      && BitOr(b, m - 1) == b - b % m + m - 1
      && 0 <= b - b % m && b - b % m + m - 1 < 256
  {
    hide Pow2, BitAnd, BitXor, BitOr;
    Powers();
    Pow2Add(8 - r, r);
    HighMask(8, r);
    AndHighMask(b, 8, r);
    OrLowMask(b, r);
    DivUnique(256, Pow2(r), Pow2(8 - r), 0);
    BlockBelow(b, Pow2(r), Pow2(8 - r));
  }

  lemma BlockSize(block: nat)
    requires 1 <= block <= 127
    ensures var n := 128 - block;
      n / 8 < 16 && n % 8 < 8 && Pow2(n) == Pow2(n % 8) * Pow256(n / 8)
  {
    var n := 128 - block;
    Pow2Add(n % 8, 8 * (n / 8));
    Pow256Is(n / 8);
  }

  lemma EdgeValues(s: seq<Byte>, block: nat)
    requires |s| == 16 && 1 <= block <= 127
    ensures var k, m := (128 - block) / 8, Pow2((128 - block) % 8);
      var a, size, b := Value(s), Pow2(128 - block), s[15 - k];
      && 0 <= b - b % m && b - b % m + m - 1 < 256
      && Value(Edged(s, k, b - b % m, 0)) == a - a % size
      && Value(Edged(s, k, b - b % m + m - 1, 255)) == a - a % size + size - 1
  {
    hide Value, Pow256, Pow2, Edged;
    BlockSize(block);
    ByteMasks(s[15 - (128 - block) / 8], (128 - block) % 8);
    hide *;
    EdgesOfSize(s, (128 - block) / 8, Pow2((128 - block) % 8), Pow2(128 - block));
  }

  lemma EdgesOfSize(s: seq<Byte>, k: nat, m: nat, size: nat)
    requires |s| == 16 && k < 16 && m > 0 && 256 % m == 0 && size == m * Pow256(k) && size > 0
    requires 0 <= s[15 - k] - s[15 - k] % m && s[15 - k] - s[15 - k] % m + m - 1 < 256
    ensures Value(Edged(s, k, s[15 - k] - s[15 - k] % m, 0)) == Value(s) - Value(s) % size
    ensures Value(Edged(s, k, s[15 - k] - s[15 - k] % m + m - 1, 255)) == Value(s) - Value(s) % size + size - 1
  {
    hide *;
    var b := s[15 - k];
    SplitValue(s, k);
    EdgedValue(s, k, b - b % m, 0);
    EdgedValue(s, k, b - b % m + m - 1, 255);
    FillValue(k, 0);
    FillValue(k, 255);
    EdgesOfBlock(Value(s[..15 - k]), b, Value(s[16 - k..]), Pow256(k), m);
  }

  lemma EdgedIs(s: seq<Byte>, k: nat, b: Byte, fill: Byte, t: seq<Byte>)
    requires |s| == |t| == 16 && k < 16
    requires t[15 - k] == b && (forall i | 15 - k < i < 16 :: t[i] == fill) && forall i | 0 <= i < 15 - k :: t[i] == s[i]
    ensures t == Edged(s, k, b, fill)
  {
  }

  /** "And with mask": the network address. */
  method ClearHostBits(a: array<Byte>, block: nat)
    requires a.Length == 16 && 1 <= block <= 127
    modifies a
    ensures var v := Value(old(a[..])); Value(a[..]) == v - v % Pow2(128 - block)
  {
    hide *;
    ghost var s := a[..];
    var j := 15;
    var i := (128 - block) / 8;
    while i > 0
      invariant 0 <= i <= (128 - block) / 8 && j == 15 - (128 - block) / 8 + i
      invariant forall n | 0 <= n <= j :: a[n] == s[n]
      invariant forall n | j < n < 16 :: a[n] == 0
    {
      a[j] := 0;
      j := j - 1;
      i := i - 1;
    }
    ByteMasks(a[j], (128 - block) % 8);
    a[j] := BitAnd(a[j], BitXor(0xff, Pow2((128 - block) % 8) - 1));
    EdgeValues(s, block);
    EdgedIs(s, (128 - block) / 8, a[j], 0, a[..]);
  }

  /** The broadcast address. */
  method SetHostBits(a: array<Byte>, block: nat)
    requires a.Length == 16 && 1 <= block <= 127
    modifies a
    ensures var v, size := Value(old(a[..])), Pow2(128 - block); Value(a[..]) == v - v % size + size - 1
  {
    hide *;
    ghost var s := a[..];
    var j := 15;
    var i := (128 - block) / 8;
    while i > 0
      invariant 0 <= i <= (128 - block) / 8 && j == 15 - (128 - block) / 8 + i
      invariant forall n | 0 <= n <= j :: a[n] == s[n]
      invariant forall n | j < n < 16 :: a[n] == 255
    {
      a[j] := 0xff;
      j := j - 1;
      i := i - 1;
    }
    ByteMasks(a[j], (128 - block) % 8);
    a[j] := BitOr(a[j], Pow2((128 - block) % 8) - 1);
    EdgeValues(s, block);
    EdgedIs(s, (128 - block) / 8, a[j], 255, a[..]);
  }

  lemma BlockBounds(s: seq<Byte>, block: nat)
    requires |s| == 16 && 1 <= block <= 127
    ensures var v, size := Value(s), Pow2(128 - block);
      && size >= 2 && 0 <= v - v % size && v - v % size + size <= Pow256(16)
      && (block == 127 ==> size == 2) && (block <= 126 ==> size >= 4)
  {
    hide Value, Pow256, Pow2;
    BlockSizes(block);
    ValueBelow(s);
    Pow256Is(16);
    Pow2Add(block, 128 - block);
    hide *;
    BlockBelow(Value(s), Pow2(128 - block), Pow2(block));
  }

  lemma BlockSizes(block: nat)
    requires 1 <= block <= 127
    ensures Pow2(128 - block) >= 2
    ensures block == 127 ==> Pow2(128 - block) == 2
    ensures block <= 126 ==> Pow2(128 - block) >= 4
  {
  }

  /** `memcpy` of an address. */
  method CopyBytes(from: array<Byte>, to: array<Byte>)
    requires from.Length == to.Length == 16 && from != to
    modifies to
    ensures to[..] == from[..] == old(from[..])
  {
    for i := 0 to 16
      invariant forall k | 0 <= k < i :: to[k] == from[k]
      invariant from[..] == old(from[..])
    {
      to[i] := from[i];
    }
  }

  /** `cidr6_block_ips`, on arrays of bytes that are changed in place. */
  method Cidr6BlockIps(first: array<Byte>, last: array<Byte>, block: nat)
    requires first.Length == last.Length == 16 && first != last && 1 <= block <= 128
    modifies first, last
    ensures var a, size := Value(old(first[..])), Pow2(128 - block);
      var net := a - a % size;
      && (block == 128 ==> Value(first[..]) == Value(last[..]) == a)
      && (block == 127 ==> Value(first[..]) == net && Value(last[..]) == net + 1)
      && (block <= 126 ==> Value(first[..]) == net + 1 && Value(last[..]) == net + size - 2)
  {
    hide *;
    ghost var s := first[..];
    CopyBytes(first, last);
    if block == 128 {
      return;
    }
    BlockBounds(s, block);
    ClearHostBits(first, block);
    SetHostBits(last, block);
    if block == 127 {
      return;
    }
    Increment(first);
    Decrement(last);
  }

  /** `short_range6_network_ips`: the last two bytes are replaced; at most four hexadecimal digits were read. */
  method ShortRange6Ips(first: array<Byte>, last: array<Byte>, end: nat)
    requires first.Length == last.Length == 16 && first != last && end <= 0xffff
    modifies last
    ensures var a := Value(first[..]); Value(last[..]) == a - a % 0x1_0000 + end
  {
    hide *;
    CopyBytes(first, last);
    last[15] := end % 256;
    last[14] := end / 256 % 256;
    assert last[..] == first[..][..14] + [end / 256, end % 256];
    LastTwo(first[..], end);
  }

  lemma LastTwo(s: seq<Byte>, end: nat)
    requires |s| == 16 && end <= 0xffff
    ensures Value(s[..14] + [end / 256, end % 256]) == Value(s) - Value(s) % 0x1_0000 + end
  {
    hide Value;
    assert s == s[..14] + [s[14]] + [s[15]];
    assert s[..14] + [end / 256, end % 256] == s[..14] + [end / 256] + [end % 256];
    ValueSnoc(s[..14] + [s[14]], s[15]);
    ValueSnoc(s[..14], s[14]);
    ValueSnoc(s[..14] + [end / 256], end % 256);
    ValueSnoc(s[..14], end / 256);
  }
}
