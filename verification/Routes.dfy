/** The choice of a route for an IPv4 destination (`gvm_routethrough` of `networking.c`). Addresses and masks are
    kept in network byte order, but compared as the numbers that a little-endian machine reads. */
module Routes {
  import opened Wrappers
  import opened Bits
  import opened Address

  /** Four bytes in the order of memory, that is in network byte order. */
  datatype Word = Word(b0: Byte, b1: Byte, b2: Byte, b3: Byte) {
    function Bytes(): seq<Byte> {
      [b0, b1, b2, b3]
    }

    /** The number that the machine reads. */
    function LittleEndian(): nat {
      b0 + 256 * b1 + 0x1_0000 * b2 + 0x100_0000 * b3
    }
  }

  /** `route_entry_t`. */
  datatype Route = Route(interface_: string, dest: Word, mask: Word)

  function AndByte(a: Byte, b: Byte): Byte {
    AndBelow(a, b);
    BitAnd(a, b)
  }

  lemma {:induction false} AndBelow(a: nat, b: nat)
    ensures BitAnd(a, b) <= a
  {
    if a > 0 && b > 0 {
      AndBelow(a / 2, b / 2);
    }
  }

  /** The bitwise and of two words. */
  function And(a: Word, b: Word): Word {
    Word(AndByte(a.b0, b.b0), AndByte(a.b1, b.b1), AndByte(a.b2, b.b2), AndByte(a.b3, b.b3))
  }

  predicate Matches(dest: Word, r: Route) {
    And(dest, r.mask) == r.dest
  }

  /** The loop over the routing table. It is proved for any masks: the result is a matching route whose mask is the
      greatest number, and the last one of these. */
  method ChooseRoute(dest: Word, routes: seq<Route>) returns (chosen: Option<nat>)
    ensures chosen.None? <==> forall j | 0 <= j < |routes| :: !Matches(dest, routes[j])
    ensures chosen.Some? ==> Chosen(dest, routes, chosen.value)
  {
    hide Word.LittleEndian, Matches, Chosen;
    chosen := None;
    var bestMatch := 0;
    var i := 0;
    while i < |routes|
      invariant 0 <= i <= |routes|
      invariant chosen.None? ==> bestMatch == 0 && forall j | 0 <= j < i :: !Matches(dest, routes[j])
      invariant chosen.Some? ==> chosen.value < i && bestMatch == routes[chosen.value].mask.LittleEndian()
      invariant chosen.Some? ==> Chosen(dest, routes[..i], chosen.value)
    {
      ChosenNext(dest, routes, i, chosen);
      if Matches(dest, routes[i]) && routes[i].mask.LittleEndian() >= bestMatch {
        chosen := Some(i);
        bestMatch := routes[i].mask.LittleEndian();
      }
      i := i + 1;
    }
    assert routes[..i] == routes;
    if chosen.Some? {
      ChoiceMatches(dest, routes, chosen.value);
    }
  }

  predicate Better(dest: Word, routes: seq<Route>, i: nat, chosen: Option<nat>)
    requires i < |routes| && (chosen.Some? ==> chosen.value < |routes|)
  {
    && Matches(dest, routes[i])
    && (chosen.None? || routes[i].mask.LittleEndian() >= routes[chosen.value].mask.LittleEndian())
  }

  lemma ChoiceMatches(dest: Word, routes: seq<Route>, i: nat)
    requires Chosen(dest, routes, i)
    ensures i < |routes| && Matches(dest, routes[i])
  {
  }

  /** One route more: it is the choice if it matches and its mask is at least as great as that of the choice so far. */
  lemma ChosenNext(dest: Word, routes: seq<Route>, i: nat, chosen: Option<nat>)
    requires i < |routes| && (chosen.Some? ==> chosen.value < i)
    requires chosen.Some? ==> Chosen(dest, routes[..i], chosen.value)
    requires chosen.None? ==> forall j | 0 <= j < i :: !Matches(dest, routes[j])
    ensures Better(dest, routes, i, chosen) ==> Chosen(dest, routes[..i + 1], i)
    ensures chosen.Some? && !Better(dest, routes, i, chosen) ==> Chosen(dest, routes[..i + 1], chosen.value)
  {
    hide Word.LittleEndian, Matches;
    var r := routes[..i + 1];
    assert forall j | 0 <= j < i :: r[j] == routes[..i][j];
    if chosen.Some? {
      assert r[chosen.value] == routes[..i][chosen.value];
    }
  }

  ghost predicate Chosen(dest: Word, routes: seq<Route>, i: nat) {
    && i < |routes| && Matches(dest, routes[i])
    && (forall j | 0 <= j < i && Matches(dest, routes[j]) ::
          routes[j].mask.LittleEndian() <= routes[i].mask.LittleEndian())
    && (forall j | i < j < |routes| && Matches(dest, routes[j]) ::
          routes[j].mask.LittleEndian() < routes[i].mask.LittleEndian())
  }

  // ----- masks of consecutive bits

  /** How many of the `p` leading bits are in byte `i`. */
  function BitsIn(p: nat, i: nat): (k: nat)
    ensures k <= 8
  {
    if p <= 8 * i then 0 else if p >= 8 * i + 8 then 8 else p - 8 * i
  }

  function MaskByte(p: nat, i: nat): Byte {
    Powers();
    Pow2Mono(8 - BitsIn(p, i), 8);
    256 - Pow2(8 - BitsIn(p, i))
  }

  /** The mask of a prefix of `p` bits. */
  function Mask(p: nat): Word {
    Word(MaskByte(p, 0), MaskByte(p, 1), MaskByte(p, 2), MaskByte(p, 3))
  }

  /** The address up to its `p` leading bits, the others cleared. */
  function Prefix(addr: nat, p: nat): int
    requires p <= 32
  {
    addr - addr % Pow2(32 - p)
  }

  lemma MaskByteMono(p: nat, q: nat, i: nat)
    requires p <= q
    ensures MaskByte(p, i) <= MaskByte(q, i)
    ensures p < q && 8 * i <= p < 8 * i + 8 ==> MaskByte(p, i) < MaskByte(q, i)
  {
    hide Pow2;
    var k, l := BitsIn(p, i), BitsIn(q, i);
    Pow2Mono(8 - l, 8 - k);
    if k < l {
      Pow2Mono(8 - l, 8 - k - 1);
      Pow2Next(8 - k - 1);
    }
  }

  lemma Pow2Next(n: nat)
    ensures Pow2(n + 1) == 2 * Pow2(n)
  {
  }

  /** Byte-swapped or not, a longer prefix has the greater mask. */
  lemma LongerIsGreater(p: nat, q: nat)
    requires p <= 32 && q <= 32
    ensures Mask(p).LittleEndian() < Mask(q).LittleEndian() <==> p < q
    ensures Mask(p).LittleEndian() <= Mask(q).LittleEndian() <==> p <= q
  {
    if p < q {
      StrictlyGreater(p, q);
    } else if q < p {
      StrictlyGreater(q, p);
    }
  }

  lemma StrictlyGreater(p: nat, q: nat)
    requires p < q <= 32
    ensures Mask(p).LittleEndian() < Mask(q).LittleEndian()
  {
    hide MaskByte;
    MaskByteMono(p, q, 0);
    MaskByteMono(p, q, 1);
    MaskByteMono(p, q, 2);
    MaskByteMono(p, q, 3);
  }

  lemma MaskedByte(b: Byte, p: nat, i: nat)
    ensures Pow2(8 - BitsIn(p, i)) <= 256
    ensures AndByte(b, MaskByte(p, i)) == b - b % Pow2(8 - BitsIn(p, i))
  {
    hide Pow2, BitAnd;
    Powers();
    AndHighMask(b, 8, 8 - BitsIn(p, i));
  }

  lemma ValueOfWord(w: Word)
    ensures Value(w.Bytes()) == ((w.b0 * 256 + w.b1) * 256 + w.b2) * 256 + w.b3
    ensures 0 <= Value(w.Bytes()) < WORD
  {
    hide Value;
    assert w.Bytes() == [w.b0] + [w.b1] + [w.b2] + [w.b3];
    ValueOne(w.b0);
    ValueSnoc([w.b0], w.b1);
    ValueSnoc([w.b0] + [w.b1], w.b2);
    ValueSnoc([w.b0] + [w.b1] + [w.b2], w.b3);
  }

  // ----- longest prefix match

  /** Clearing in one byte of a number, with the bytes behind it cleared altogether. */
  lemma PrefixByte(high: nat, b: Byte, tail: nat, p: nat, r: nat)
    requires r <= 8 && tail < p
    ensures Pow2(r) <= 256
    ensures var a := (256 * high + b) * p + tail;
      (256 * high + b - b % Pow2(r)) * p == a - a % (Pow2(r) * p)
  {
    hide Pow2;
    Powers();
    Pow2Mono(r, 8);
    Pow2Add(8 - r, r);
    DivUnique(256, Pow2(r), Pow2(8 - r), 0);
    EdgesOfBlock(high, b, tail, p, Pow2(r));
  }

  /** Masking an address leaves its leading bits. */
  lemma MaskedIsPrefix(a: Word, p: nat)
    requires p <= 32
    ensures Value(And(a, Mask(p)).Bytes()) == Prefix(Value(a.Bytes()), p)
  {
    hide Pow2, Value, BitAnd, MaskByte, Pow256;
    var m := And(a, Mask(p));
    var i := if p < 8 then 0 else if p < 16 then 1 else if p < 24 then 2 else 3;
    MaskedBytes(a, p);
    ValueOfWord(a);
    ValueOfWord(m);
    BoundaryPower(p, i);
    SmallPowers256();
    var r := 8 - BitsIn(p, i);
    if i == 0 {
      PrefixByte(0, a.b0, (a.b1 * 256 + a.b2) * 256 + a.b3, 0x100_0000, r);
    } else if i == 1 {
      PrefixByte(a.b0, a.b1, a.b2 * 256 + a.b3, 0x1_0000, r);
    } else if i == 2 {
      PrefixByte(a.b0 * 256 + a.b1, a.b2, a.b3, 256, r);
    } else {
      PrefixByte((a.b0 * 256 + a.b1) * 256 + a.b2, a.b3, 0, 1, r);
    }
  }

  lemma SmallPowers256()
    ensures Pow256(0) == 1 && Pow256(1) == 256 && Pow256(2) == 0x1_0000 && Pow256(3) == 0x100_0000
  {
  }

  lemma BoundaryPower(p: nat, i: nat)
    requires p <= 32 && i <= 3 && 8 * i <= p <= 8 * i + 8
    ensures Pow2(32 - p) == Pow2(8 - BitsIn(p, i)) * Pow256(3 - i)
  {
    hide Pow2, Pow256;
    Pow2Add(8 - BitsIn(p, i), 8 * (3 - i));
    Pow256Is(3 - i);
  }

  /** The bytes in front of the boundary stay, the one at the boundary is cut, and those behind it are cleared. */
  lemma MaskedBytes(a: Word, p: nat)
    requires p <= 32
    ensures var m := And(a, Mask(p));
      && m.b0 == (if p >= 8 then a.b0 else a.b0 - a.b0 % Pow2(8 - BitsIn(p, 0)))
      && m.b1 == (if p >= 16 then a.b1 else if p < 8 then 0 else a.b1 - a.b1 % Pow2(8 - BitsIn(p, 1)))
      && m.b2 == (if p >= 24 then a.b2 else if p < 16 then 0 else a.b2 - a.b2 % Pow2(8 - BitsIn(p, 2)))
      && m.b3 == (if p < 24 then 0 else a.b3 - a.b3 % Pow2(8 - BitsIn(p, 3)))
  {
    hide AndByte, MaskByte;
    MaskedByte(a.b0, p, 0);
    MaskedByte(a.b1, p, 1);
    MaskedByte(a.b2, p, 2);
    MaskedByte(a.b3, p, 3);
    assert Pow2(0) == 1 && Pow2(8) == 256;
  }

  lemma WordsEqual(v: Word, w: Word)
    ensures v == w <==> Value(v.Bytes()) == Value(w.Bytes())
  {
    if Value(v.Bytes()) == Value(w.Bytes()) {
      ValueInjective(v.Bytes(), w.Bytes());
      assert v.Bytes()[0] == w.Bytes()[0] && v.Bytes()[1] == w.Bytes()[1];
      assert v.Bytes()[2] == w.Bytes()[2] && v.Bytes()[3] == w.Bytes()[3];
    }
  }

  /** A route matches exactly when its destination is the prefix of the address. */
  lemma MatchesPrefix(dest: Word, r: Route, p: nat)
    requires p <= 32 && r.mask == Mask(p)
    ensures Matches(dest, r) <==> Value(r.dest.Bytes()) == Prefix(Value(dest.Bytes()), p)
  {
    hide Value, Pow2, And, Mask;
    MaskedIsPrefix(dest, p);
    WordsEqual(And(dest, r.mask), r.dest);
  }

  /** The routes of a table have masks of consecutive bits, of these lengths. */
  ghost predicate Contiguous(routes: seq<Route>, lens: seq<nat>) {
    |lens| == |routes| && forall i | 0 <= i < |routes| :: lens[i] <= 32 && routes[i].mask == Mask(lens[i])
  }

  ghost predicate PrefixMatch(dest: Word, r: Route, p: nat)
    requires p <= 32
  {
    Value(r.dest.Bytes()) == Prefix(Value(dest.Bytes()), p)
  }

  /** On a table with masks of consecutive bits the choice is the longest prefix match, the last one of equal length,
      although the masks are compared byte-swapped. */
  lemma LongestPrefixMatch(dest: Word, routes: seq<Route>, lens: seq<nat>, i: nat)
    requires Contiguous(routes, lens) && i < |routes|
    ensures Chosen(dest, routes, i) <==>
      && PrefixMatch(dest, routes[i], lens[i])
      && (forall j | 0 <= j < |routes| && PrefixMatch(dest, routes[j], lens[j]) :: lens[j] <= lens[i])
      && (forall j | i < j < |routes| && PrefixMatch(dest, routes[j], lens[j]) :: lens[j] < lens[i])
  {
    hide Mask, Word.LittleEndian, PrefixMatch, Matches;
    forall j | 0 <= j < |routes|
      ensures Matches(dest, routes[j]) <==> PrefixMatch(dest, routes[j], lens[j])
      ensures routes[j].mask.LittleEndian() <= routes[i].mask.LittleEndian() <==> lens[j] <= lens[i]
      ensures routes[j].mask.LittleEndian() < routes[i].mask.LittleEndian() <==> lens[j] < lens[i]
    {
      MatchIs(dest, routes[j], lens[j]);
      LongerIsGreater(lens[j], lens[i]);
    }
  }

  lemma MatchIs(dest: Word, r: Route, p: nat)
    requires p <= 32 && r.mask == Mask(p)
    ensures Matches(dest, r) <==> PrefixMatch(dest, r, p)
  {
    MatchesPrefix(dest, r, p);
  }
}
