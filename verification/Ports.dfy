/** Port lists (`networking.c`): a validator, a second parser that relies on it, and membership. */
module Ports {
  import opened Wrappers
  import opened Text
  import opened Numbers

  // ----- one element of the list, as the validator reads it

  /** Past a type specifier: a letter, blanks and a colon, if the element is long enough to have one. */
  function AfterType(e: string): string {
    if |e| >= 2 && (e[0] == 'T' || e[0] == 'U') then
      var t := SkipBlank(e[1..]);
      if t != "" && t[0] == ':' then t[1..] else t
    else e
  }

  /** The numbers that `validate_port_range` accepts: everything behind the number must be blank. */
  predicate NumberOk(c: Conv) {
    !c.overflow && SkipBlank(c.rest) == "" && c.value != 0 && c.value <= 65535
  }

  /** The body of its loop, behind the type specifier. */
  predicate ValidItem(x: string) {
    var h := CharIndex(x, '-');
    if h < |x| then
      var first := SkipBlank(x);
      var c1 := StrToL(first);
      var end := SkipBlank(c1.rest);
      var second := SkipBlank(x[h + 1..]);
      var c2 := StrToL(second);
      && first != "" && first[0] != '-'
      && !c1.overflow && end != "" && end[0] == '-' && c1.value != 0 && c1.value <= 65535
      && second != "" && NumberOk(c2) && c1.value <= c2.value
    else
      SkipBlank(x) == "" || NumberOk(StrToL(SkipBlank(x)))
  }

  // ----- what an element means

  /** A port number, with white space in front and blanks behind. */
  function Port(t: string): Option<int> {
    var c := StrToL(t);
    if !c.overflow && SkipBlank(c.rest) == "" && 1 <= c.value <= 65535 then Some(c.value) else None
  }

  /** A single port, or two ports around the first hyphen, in order. */
  function Interval(x: string): Option<(int, int)> {
    var h := CharIndex(x, '-');
    if h < |x| then
      var lo :- Port(x[..h]);
      var hi :- Port(x[h + 1..]);
      if lo <= hi then Some((lo, hi)) else None
    else
      var p :- Port(x);
      Some((p, p))
  }

  lemma NothingConverted(t: string)
    requires !Converts(t)
    ensures StrToL(t) == Conv(0, t, false) && Port(t) == None
  {
  }

  /** Skipping blanks first makes no difference to a number. */
  lemma SkippedSame(t: string)
    ensures Converts(SkipBlank(t)) <==> Converts(t)
    ensures Converts(t) ==> StrToL(SkipBlank(t)) == StrToL(t)
    ensures Port(SkipBlank(t)) == Port(t)
  {
    hide SkipSpace, SkipBlank, DigitCount, DecValue, Unsigned, Clip;
    BlanksBefore(t);
    if !Converts(t) {
      NothingConverted(t);
      NothingConverted(SkipBlank(t));
    }
  }

  lemma NotNegative(t: string, m: nat, k: nat, n: nat)
    requires Shape(t, m, k, n) && t[m] != '-'
    ensures StrToL(t).value >= 0
  {
  }

  /** Without a hyphen there are no negative numbers. */
  lemma NoMinus(t: string)
    requires Free(t, '-')
    ensures StrToL(t).value >= 0
  {
  }

  lemma NoHyphen(x: string)
    ensures CharIndex(x, '-') == |x| <==> Free(x, '-')
  {
  }

  lemma SingleIff(x: string)
    requires Free(x, '-')
    ensures ValidItem(x) <==> SkipBlank(x) == "" || Interval(x).Some?
  {
    hide StrToL, SkipBlank;
    NoHyphen(x);
    SkippedSame(x);
    NoMinus(x);
    if !Converts(x) {
      NothingConverted(x);
      NothingConverted(SkipBlank(x));
    }
  }

  lemma BlankSuffix(r: string, b: string)
    requires SkipBlank(r) == "" && b != "" && !IsBlank(b[0])
    ensures SkipBlank(r + b) == b
  {
    BlankCountUnique(r + b, |r|);
  }

  /** The parser's cut at the hyphen reads the same first number as the validator does. */
  lemma CutReadsSame(x: string, h: nat)
    requires h < |x| && x[h] == '-' && Free(x[..h], '-') && Port(x[..h]).Some?
    ensures var first := SkipBlank(x);
      var c := StrToL(first);
      && first != "" && first[0] != '-'
      && !c.overflow && c.value == Port(x[..h]).value && SkipBlank(c.rest) == x[h..]
  {
    var a, b := x[..h], x[h..];
    assert x == a + b;
    hide StrToL, SkipBlank, Port, IsBlank, Converts;
    PortConverts(a);
    BeforeHyphen(a, b);
    SkippedSame(x);
    FirstNotHyphen(x, h);
    BlankSuffixOf(StrToL(a).rest, b);
  }

  lemma PortConverts(a: string)
    requires Port(a).Some?
    ensures Converts(a) && !StrToL(a).overflow && SkipBlank(StrToL(a).rest) == "" && StrToL(a).value == Port(a).value
  {
  }

  lemma BeforeHyphen(a: string, b: string)
    requires Converts(a) && b != "" && b[0] == '-'
    ensures StrToL(a + b) == StrToL(a).(rest := StrToL(a).rest + b)
    ensures Converts(a + b)
  {
    hide StrToL;
    NumberBefore(a, b);
  }

  lemma BlankSuffixOf(r: string, b: string)
    requires SkipBlank(r) == "" && b != "" && b[0] == '-'
    ensures SkipBlank(r + b) == b
  {
    hide SkipBlank;
    BlankSuffix(r, b);
  }

  lemma FirstNotHyphen(x: string, h: nat)
    requires h < |x| && x[h] == '-' && Free(x[..h], '-') && Converts(x[..h])
    ensures SkipBlank(x) != "" && SkipBlank(x)[0] != '-'
  {
  }

  lemma DigitIsNoBlank(c: char)
    requires IsDigit(c)
    ensures !IsBlank(c) && !IsSpace(c) && c != '-'
  {
  }

  // ----- the validator accepts exactly the intervals

  lemma FirstHyphen(x: string, q: nat)
    requires q < |x| && x[q] == '-' && forall i | 0 <= i < q :: x[i] != '-'
    ensures CharIndex(x, '-') == q
  {
  }

  lemma NotHyphen(c: char)
    requires IsSpace(c) || IsBlank(c) || IsDigit(c)
    ensures c != '-'
  {
  }

  /** If the first hyphen were a sign, the second number would have another hyphen behind it. */
  lemma SignIsHyphen(x: string, m: nat, k: nat, n: nat)
    requires Shape(x, m, k, n) && x[m] == '-' && SkipBlank(x[m + k + n..]) != ""
    ensures CharIndex(x, '-') == m && !NumberOk(StrToL(SkipBlank(x[m + 1..])))
  {
    hide StrToL, IsBlank, IsSpace, IsDigit, DecValue, Clip, CharIndex, SkipBlank;
    forall i | 0 <= i < m ensures x[i] != '-' {
      NotHyphen(x[i]);
    }
    FirstHyphen(x, m);
    assert Signed(x[m..]);
    var y := x[m + 1..];
    DigitIsNoBlank(y[0]);
    DigitNotSigned(y);
    assert y[0..] == y;
    assert Shape(y, 0, 0, n);
    ShapeRead(y, 0, 0, n);
    assert y[n..] == x[m + k + n..];
    NoBlankToSkip(y);
  }

  lemma DigitNotSigned(y: string)
    requires y != "" && IsDigit(y[0])
    ensures !Signed(y)
  {
  }

  lemma NoBlankToSkip(y: string)
    requires y != "" && !IsBlank(y[0])
    ensures SkipBlank(y) == y
  {
  }

  lemma DigitsThenHyphen(x: string, m: nat, k: nat, n: nat)
    requires Shape(x, m, k, n) && x[m] != '-'
    requires SkipBlank(x[m + k + n..]) != "" && SkipBlank(x[m + k + n..])[0] == '-'
    ensures var h, q := CharIndex(x, '-'), m + k + n;
      && q <= h < |x| && Shape(x[..h], m, k, n) && x[..h][m] == x[m] && SkipBlank(x[..h][q..]) == ""
      && x[..h][m + k..q] == x[m + k..q]
  {
    hide *;
    var q := m + k + n;
    var b := FirstAfterDigits(x, m, k, n);
    FirstHyphen(x, q + b);
    CutShape(x, m, k, n, q + b);
    CutBlank(x, q, b);
    assert x[..q + b][m + k..q] == x[m + k..q];
    ShapeBounds(x, m, k, n);
  }

  lemma ShapeBounds(x: string, m: nat, k: nat, n: nat)
    requires Shape(x, m, k, n)
    ensures m < m + k + n <= |x|
  {
  }

  lemma FirstAfterDigits(x: string, m: nat, k: nat, n: nat) returns (b: nat)
    requires Shape(x, m, k, n) && x[m] != '-'
    requires SkipBlank(x[m + k + n..]) != "" && SkipBlank(x[m + k + n..])[0] == '-'
    ensures var q := m + k + n;
      && q + b < |x| && x[q + b] == '-' && (forall i | 0 <= i < q + b :: x[i] != '-')
      && forall i | q <= i < q + b :: IsBlank(x[i])
  {
    hide IsBlank, IsSpace, IsDigit;
    var q := m + k + n;
    var r := x[q..];
    b := BlankCount(r);
    assert x[q + b] == r[b];
    forall i | 0 <= i < q + b ensures x[i] != '-' {
      if i >= q {
        assert x[i] == r[i - q];
        NotHyphen(x[i]);
      } else if i < m || i >= m + k {
        NotHyphen(x[i]);
      }
    }
    forall i | q <= i < q + b ensures IsBlank(x[i]) {
      assert x[i] == r[i - q];
    }
  }

  lemma CutShape(x: string, m: nat, k: nat, n: nat, h: nat)
    requires Shape(x, m, k, n) && m + k + n <= h < |x|
    ensures Shape(x[..h], m, k, n) && x[..h][m] == x[m]
  {
  }

  lemma CutBlank(x: string, q: nat, b: nat)
    requires q + b <= |x| && forall i | q <= i < q + b :: IsBlank(x[i])
    ensures SkipBlank(x[..q + b][q..]) == ""
  {
  }

  /** An accepted first number ends at the first hyphen. */
  lemma FirstEndsAtHyphen(x: string)
    requires ValidItem(x) && CharIndex(x, '-') < |x|
    ensures Port(x[..CharIndex(x, '-')]) == Some(StrToL(SkipBlank(x)).value)
  {
    hide *;
    FirstFacts(x);
    SkippedSame(x);
    if !Converts(x) {
      NothingConverted(SkipBlank(x));
      assert false;
    } else {
      var m, k, n := ShapeOf(x);
      ShapeRead(x, m, k, n);
      ShapeBounds(x, m, k, n);
      if x[m] == '-' {
        SignIsHyphen(x, m, k, n);
        assert false;
      } else {
        DigitsThenHyphen(x, m, k, n);
        ShapeRead(x[..CharIndex(x, '-')], m, k, n);
        NotNegative(x, m, k, n);
        PortIs(x[..CharIndex(x, '-')]);
      }
    }
  }

  lemma PortIs(t: string)
    ensures var c := StrToL(t);
      !c.overflow && SkipBlank(c.rest) == "" && 1 <= c.value <= 65535 ==> Port(t) == Some(c.value)
  {
  }

  lemma FirstFacts(x: string)
    requires ValidItem(x) && CharIndex(x, '-') < |x|
    ensures var c := StrToL(SkipBlank(x));
      && !c.overflow && SkipBlank(c.rest) != "" && SkipBlank(c.rest)[0] == '-' && c.value != 0 && c.value <= 65535
    ensures NumberOk(StrToL(SkipBlank(x[CharIndex(x, '-') + 1..])))
  {
    hide StrToL, SkipBlank, CharIndex, NumberOk;
  }

  lemma SecondSame(t: string)
    ensures SkipBlank(t) != "" && NumberOk(StrToL(SkipBlank(t))) && StrToL(SkipBlank(t)).value > 0 <==> Port(t).Some?
    ensures Port(t).Some? ==> Port(t).value == StrToL(SkipBlank(t)).value
  {
    hide StrToL, SkipBlank, Converts;
    SkippedSame(t);
    NoNumber();
    if !Converts(t) {
      NothingConverted(SkipBlank(t));
    }
  }

  lemma NoNumber()
    ensures !Converts("")
  {
  }

  /** The validator accepts an element exactly when it is blank or an interval of ports. */
  lemma ValidIffInterval(x: string)
    ensures ValidItem(x) <==> SkipBlank(x) == "" || Interval(x).Some?
  {
    hide StrToL, SkipBlank, IsBlank, Port, CharIndex, NumberOk;
    var h := CharIndex(x, '-');
    NoHyphen(x);
    if h == |x| {
      SingleIff(x);
      return;
    }
    HyphenNotBlank(x, h);
    SecondSame(x[h + 1..]);
    FirstHyphenAt(x);
    PortPositive(x[..h]);
    if ValidItem(x) {
      FirstEndsAtHyphen(x);
    }
    if Interval(x).Some? {
      CutReadsSame(x, h);
      PortPositive(x[h + 1..]);
    }
  }

  lemma FirstHyphenAt(x: string)
    requires CharIndex(x, '-') < |x|
    ensures x[CharIndex(x, '-')] == '-' && Free(x[..CharIndex(x, '-')], '-')
  {
  }

  lemma PortPositive(t: string)
    ensures Port(t).Some? ==> 1 <= Port(t).value <= 65535
  {
  }

  lemma HyphenNotBlank(x: string, h: nat)
    requires h < |x| && h == CharIndex(x, '-')
    ensures SkipBlank(x) != ""
  {
  }

  // ----- the whole list

  /** Newlines count as commas. */
  function Commas(s: string): (r: string)
    ensures |r| == |s|
  {
    seq(|s|, i requires 0 <= i < |s| => if s[i] == '\n' then ',' else s[i])
  }

  function TrimAll(parts: seq<string>): (r: seq<string>)
    ensures |r| == |parts|
  {
    seq(|parts|, i requires 0 <= i < |parts| => Trim(parts[i]))
  }

  /** The elements of a port list. */
  function Elements(portRange: string): seq<string> {
    TrimAll(Split(Commas(SkipBlank(portRange)), ','))
  }

  predicate IsBlankText(x: string) {
    SkipBlank(x) == ""
  }

  predicate ElementOk(e: string) {
    IsBlankText(AfterType(e)) || Interval(AfterType(e)).Some?
  }

  /** A list that is not blank and of which every element is blank or an interval of ports. */
  predicate Accepted(portRange: string) {
    !IsBlankText(portRange) && forall e | e in Elements(portRange) :: ElementOk(e)
  }

  /** The type specifier of an element, if it has one with a colon: true for TCP. */
  function Marker(e: string): Option<bool> {
    if |e| >= 2 && (e[0] == 'T' || e[0] == 'U') && SkipBlank(e[1..]) != "" && SkipBlank(e[1..])[0] == ':' then
      Some(e[0] == 'T')
    else None
  }

  /** The protocol in force after some elements: that of the latest specifier, and TCP without any. */
  function Protocol(es: seq<string>): bool {
    if |es| == 0 then true
    else
      match Marker(es[|es| - 1])
      case Some(tcp) => tcp
      case None => Protocol(es[..|es| - 1])
  }

  datatype PortRange = PortRange(start: int, end: int, tcp: bool)

  /** One range for each element that is an interval, in order, with the protocol in force. */
  function RangesOf(es: seq<string>): seq<PortRange> {
    if |es| == 0 then []
    else
      var n := |es| - 1;
      RangesOf(es[..n])
      + match Interval(AfterType(es[n]))
        case Some(i) => [PortRange(i.0, i.1, Protocol(es))]
        case None => []
  }

  // ----- the validator

  method ReplaceNewlines(s: string) returns (r: string)
    ensures r == Commas(s)
  {
    r := s;
    for i := 0 to |s|
      invariant |r| == |s|
      invariant forall k | 0 <= k < i :: r[k] == Commas(s)[k]
      invariant forall k | i <= k < |s| :: r[k] == s[k]
    {
      if r[i] == '\n' {
        r := r[i := ','];
      }
    }
  }

  /** The checks on one element. */
  method ValidateElement(e: string) returns (ok: bool)
    ensures ok == ElementOk(Trim(e))
  {
    hide StrToL, SkipBlank, CharIndex, Trim, Interval, AfterType;
    var element := AfterType(Trim(e));
    ValidIffInterval(element);
    FirstHasHyphen(element);
    var h := CharIndex(element, '-');
    if h < |element| {
      var first := SkipBlank(element);
      if first[0] == '-' {
        return false;
      }
      var c1 := StrToL(first);
      var end := SkipBlank(c1.rest);
      if c1.overflow || end == "" || end[0] != '-' || c1.value == 0 || c1.value > 65535 {
        return false;
      }
      var second := SkipBlank(element[h + 1..]);
      if second == "" {
        return false;
      }
      var c2 := StrToL(second);
      ok := NumberOk(c2) && c1.value <= c2.value;
    } else {
      var only := SkipBlank(element);
      ok := only == "" || NumberOk(StrToL(only));
    }
  }

  lemma FirstHasHyphen(x: string)
    ensures CharIndex(x, '-') < |x| ==> SkipBlank(x) != ""
  {
  }

  /** `validate_port_range`. */
  method ValidatePortRange(portRange: Option<string>) returns (ret: int)
    ensures ret == if portRange.Some? && Accepted(portRange.value) then 0 else 1
  {
    hide SkipBlank, Split, Trim, ElementOk, Commas;
    if portRange.None? || SkipBlank(portRange.value) == "" {
      return 1;
    }
    var text := ReplaceNewlines(SkipBlank(portRange.value));
    var split := Split(text, ',');
    ghost var es := Elements(portRange.value);
    for i := 0 to |split|
      invariant forall k | 0 <= k < i :: ElementOk(es[k])
    {
      var ok := ValidateElement(split[i]);
      assert es[i] == Trim(split[i]) && es[i] in es;
      if !ok {
        return 1;
      }
    }
    ret := 0;
  }

  // ----- elements of a list

  lemma TrimAllCons(p: string, q: seq<string>)
    ensures TrimAll([p] + q) == [Trim(p)] + TrimAll(q)
  {
    hide Trim;
  }

  lemma FreeBehind(c: char, p: string)
    requires IsBlank(c) && Free(p, ',')
    ensures Free([c] + p, ',')
  {
  }

  lemma TrimAllNone()
    ensures TrimAll([]) == []
  {
  }

  lemma BlankInFirst(c: char, p: string, r: string)
    requires IsBlank(c) && Free(p, ',')
    ensures TrimAll(Split([c] + p + "," + r, ',')) == TrimAll(Split(p + "," + r, ','))
    ensures TrimAll(Split([c] + p, ',')) == TrimAll(Split(p, ','))
  {
    hide *;
    FreeBehind(c, p);
    BlankTrimmed(c, p);
    SplitCons([c] + p, ',', r);
    SplitCons(p, ',', r);
    TrimAllCons([c] + p, Split(r, ','));
    TrimAllCons(p, Split(r, ','));
    SplitFree([c] + p, ',');
    SplitFree(p, ',');
    TrimAllCons([c] + p, []);
    TrimAllCons(p, []);
    TrimAllNone();
    assert [[c] + p] == [[c] + p] + [] && [p] == [p] + [];
  }

  lemma BlankInFront(c: char, t: string)
    requires IsBlank(c)
    ensures TrimAll(Split([c] + t, ',')) == TrimAll(Split(t, ','))
  {
    hide *;
    SplitStep(t, ',');
    PrefixFree(t, ',');
    var i := CharIndex(t, ',');
    if i < |t| {
      BlankInFirst(c, t[..i], t[i + 1..]);
      assert [c] + t == [c] + t[..i] + "," + t[i + 1..];
    } else {
      WholeFree(t, ',');
      BlankInFirst(c, t, "");
    }
  }

  lemma BlankTrimmed(c: char, t: string)
    requires IsBlank(c)
    ensures Trim([c] + t) == Trim(t)
  {
    assert ([c] + t)[1..] == t;
  }

  lemma {:induction false} SkippedElements(s: string)
    ensures Elements(s) == TrimAll(Split(Commas(s), ','))
  {
    if s != "" && IsBlank(s[0]) {
      SkippedElements(s[1..]);
      assert SkipBlank(s) == SkipBlank(s[1..]);
      assert Commas(s) == [s[0]] + Commas(s[1..]);
      hide *;
      BlankInFront(s[0], Commas(s[1..]));
      ElementsOfSkipped(s);
    } else {
      assert SkipBlank(s) == s;
    }
  }

  lemma ElementsOfSkipped(s: string)
    requires s != "" && IsBlank(s[0])
    ensures Elements(s) == Elements(s[1..])
  {
    hide Split, TrimAll, Commas;
    assert SkipBlank(s) == SkipBlank(s[1..]);
  }

  /** Commas and newlines separate the elements of a list; an element is what stands between them, without the white space
      around it. */
  lemma ElementsMeaning(a: string, b: string)
    ensures Elements(a + "," + b) == Elements(a) + Elements(b) && Elements(a + "\n" + b) == Elements(a) + Elements(b)
    ensures Free(a, ',') && Free(a, '\n') ==> Elements(a) == [Trim(a)]
  {
    hide Split, Trim, SkipBlank;
    SkippedElements(a);
    SkippedElements(b);
    SkippedElements(a + "," + b);
    SkippedElements(a + "\n" + b);
    assert Commas(a + "," + b) == Commas(a) + "," + Commas(b) == Commas(a + "\n" + b);
    SplitConcat(Commas(a), ',', Commas(b));
    if Free(a, ',') && Free(a, '\n') {
      assert Commas(a) == a;
      SplitFree(a, ',');
    }
  }

  // ----- the second parser

  /** Skipping blanks first makes no difference to an interval. */
  lemma IntervalSkipped(x: string)
    ensures Interval(SkipBlank(x)) == Interval(x)
  {
    hide Port, CharIndex, IsBlank, SkipBlank;
    NoHyphen(x);
    if CharIndex(x, '-') == |x| {
      SuffixFree(x);
      NoHyphen(SkipBlank(x));
      SkippedSame(x);
    } else {
      HyphenSkipped(x);
      SkippedSame(x[..CharIndex(x, '-')]);
    }
  }

  lemma SuffixFree(x: string)
    requires Free(x, '-')
    ensures Free(SkipBlank(x), '-')
  {
  }

  lemma HyphenSkipped(x: string)
    requires CharIndex(x, '-') < |x|
    ensures var h, y := CharIndex(x, '-'), SkipBlank(x);
      var k := CharIndex(y, '-');
      k < |y| && y[..k] == SkipBlank(x[..h]) && y[k + 1..] == x[h + 1..]
  {
    hide CharIndex, IsBlank;
    var b, h := BlankCount(x), CharIndex(x, '-');
    var y := x[b..];
    FirstHyphenAt(x);
    HyphenIsNothing(x[h]);
    BlanksEnd(x, h);
    assert forall i | 0 <= i < h - b :: y[i] == x[..h][i + b];
    FirstHyphen(y, h - b);
    BlankCountUnique(x[..h], b);
    assert x[..h][b..] == y[..h - b];
    assert y[h - b + 1..] == x[h + 1..];
  }

  /** The parser's view of an element: the protocol that it leaves in force and the text behind the specifier. */
  lemma TypeOf(e: string)
    ensures Marker(e).Some? <==>
      |e| >= 2 && (e[0] == 'T' || e[0] == 'U') && SkipBlank(e[1..]) != "" && SkipBlank(e[1..])[0] == ':'
    ensures Marker(e).Some? ==> AfterType(e) == SkipBlank(e[1..])[1..] && Marker(e).value == (e[0] == 'T')
  {
  }

  /** A valid element: where there is a hyphen, there is something behind it. */
  lemma HyphenFollowed(x: string)
    requires Interval(x).Some? && CharIndex(x, '-') < |x|
    ensures SkipBlank(x[CharIndex(x, '-') + 1..]) != ""
  {
  }

  lemma PortRead(t: string, v: int)
    requires Port(t) == Some(v)
    ensures StrToL(t).value == v && StrToL(SkipBlank(t)).value == v
  {
    hide StrToL, SkipBlank, Converts;
    SkippedSame(t);
    PortConverts(t);
    PortConverts(SkipBlank(t));
  }

  lemma BlankNoInterval(x: string)
    requires SkipBlank(x) == ""
    ensures Interval(x) == None
  {
  }

  /** What the loop of `port_range_ranges` makes of one element of an accepted list. */
  method ParseElement(e: string, tcp: bool) returns (tcp': bool, range: Option<PortRange>)
    requires ElementOk(Trim(e))
    ensures var element := Trim(e);
      && tcp' == Marker(element).GetOr(tcp)
      && range == match Interval(AfterType(element))
                  case Some(i) => Some(PortRange(i.0, i.1, tcp'))
                  case None => None
  {
    hide StrToL, SkipBlank, CharIndex, Trim, Port, Marker, AfterType;
    var element := Trim(e);
    TypeOf(element);
    SpecifierRead(element);
    tcp' := tcp;
    if |element| >= 2 {
      if element[0] == 'T' {
        element := SkipBlank(element[1..]);
        if element != "" && element[0] == ':' {
          element := element[1..];
          tcp' := true;
        }
      } else if element[0] == 'U' {
        element := SkipBlank(element[1..]);
        if element != "" && element[0] == ':' {
          element := element[1..];
          tcp' := false;
        }
      }
    }
    assert element == AfterType(Trim(e));
    ghost var x := element;
    IntervalSkipped(x);
    element := SkipBlank(element);
    var h := CharIndex(element, '-');
    range := None;
    if element == "" {
      BlankNoInterval(x);
    } else if h < |element| {
      HyphenFollowed(element);
      PortRead(element[..h], Interval(x).value.0);
      PortRead(element[h + 1..], Interval(x).value.1);
      var hyphen := SkipBlank(element[h + 1..]);
      assert hyphen != "";
      range := Some(PortRange(StrToL(element[..h]).value, StrToL(hyphen).value, tcp'));
    } else {
      PortRead(element, Interval(x).value.0);
      range := Some(PortRange(StrToL(element).value, StrToL(element).value, tcp'));
    }
  }

  lemma SpecifierRead(e: string)
    ensures |e| >= 2 && (e[0] == 'T' || e[0] == 'U') && Marker(e).None? ==> AfterType(e) == SkipBlank(e[1..])
    ensures !(|e| >= 2 && (e[0] == 'T' || e[0] == 'U')) ==> AfterType(e) == e && Marker(e).None?
  {
  }

  /** `port_range_ranges`: nothing for a list that is not accepted, and otherwise its ranges. */
  method PortRangeRanges(portRange: Option<string>) returns (ranges: Option<seq<PortRange>>)
    ensures ranges == if portRange.Some? && Accepted(portRange.value) then Some(RangesOf(Elements(portRange.value)))
                      else None
  {
    hide SkipBlank, Split, Trim, ElementOk, Commas, Marker, Interval, AfterType;
    if portRange.None? {
      return None;
    }
    var err := ValidatePortRange(portRange);
    if err != 0 {
      return None;
    }
    var text := ReplaceNewlines(SkipBlank(portRange.value));
    var split := Split(text, ',');
    var found, tcp := [], true;
    ghost var es := Elements(portRange.value);
    for i := 0 to |split|
      invariant found == RangesOf(es[..i]) && tcp == Protocol(es[..i])
    {
      var range;
      assert es[i] == Trim(split[i]) && es[i] in es && es[..i + 1][..i] == es[..i];
      tcp, range := ParseElement(split[i], tcp);
      if range.Some? {
        found := found + [range.value];
      }
    }
    assert es[..|split|] == es;
    ranges := Some(found);
  }

  // ----- membership

  predicate Covers(r: PortRange, port: int, tcp: bool) {
    r.tcp == tcp && r.start <= port <= r.end
  }

  /** `port_in_port_ranges`. */
  method PortInPortRanges(port: int, tcp: bool, ranges: Option<seq<PortRange>>) returns (found: bool)
    ensures found <==>
      ranges.Some? && 0 <= port <= 65536 && exists i :: 0 <= i < |ranges.value| && Covers(ranges.value[i], port, tcp)
  {
    if ranges.None? || port < 0 || port > 65536 {
      return false;
    }
    for i := 0 to |ranges.value|
      invariant forall k | 0 <= k < i :: !Covers(ranges.value[k], port, tcp)
    {
      if ranges.value[i].tcp != tcp {
        continue;
      }
      if ranges.value[i].start <= port <= ranges.value[i].end {
        return true;
      }
    }
    found := false;
  }

  /** The latest type specifier up to the element at `i` says TCP or UDP; without any, it is TCP. */
  ghost predicate InForce(es: seq<string>, i: nat, tcp: bool)
    requires i < |es|
  {
    if forall k | 0 <= k <= i :: Marker(es[k]).None? then tcp
    else exists k :: 0 <= k <= i && Marker(es[k]) == Some(tcp) && forall m | k < m <= i :: Marker(es[m]).None?
  }

  lemma {:induction false} ProtocolInForce(es: seq<string>, i: nat, tcp: bool)
    requires i < |es|
    ensures Protocol(es[..i + 1]) == tcp <==> InForce(es, i, tcp)
  {
    hide Marker;
    assert es[..i + 1][..i] == es[..i];
    if Marker(es[i]).None? {
      if i > 0 {
        ProtocolInForce(es, i - 1, tcp);
      } else {
        assert Protocol(es[..0]);
      }
    }
  }

  lemma BehindLetter(c: char, rest: string)
    requires (c == 'T' || c == 'U') && rest != ""
    ensures var t := SkipBlank(rest);
      && Marker([c] + rest) == (if t != "" && t[0] == ':' then Some(c == 'T') else None)
      && AfterType([c] + rest) == if t != "" && t[0] == ':' then t[1..] else t
  {
    hide SkipBlank;
    assert ([c] + rest)[1..] == rest;
  }

  lemma BlanksSkipped(blanks: string, x: string)
    requires (forall c | c in blanks :: IsBlank(c)) && (x == "" || !IsBlank(x[0]))
    ensures SkipBlank(blanks + x) == x
  {
    BlankCountUnique(blanks + x, |blanks|);
  }

  /** A letter, blanks and a colon are a specifier; the element is what follows. Without the colon, letter and blanks are
      skipped all the same. */
  lemma Specifiers(c: char, blanks: string, x: string)
    requires (c == 'T' || c == 'U') && forall b | b in blanks :: IsBlank(b)
    ensures Marker([c] + blanks + ":" + x) == Some(c == 'T') && AfterType([c] + blanks + ":" + x) == x
    ensures blanks + x != "" && (x == "" || (x[0] != ':' && !IsBlank(x[0]))) ==>
      Marker([c] + blanks + x) == None && AfterType([c] + blanks + x) == x
    ensures x == "" || (x[0] != 'T' && x[0] != 'U') ==> Marker(x) == None && AfterType(x) == x
  {
    NoLetter(x);
    hide SkipBlank, Marker, AfterType;
    BlanksSkipped(blanks, ":" + x);
    BehindLetter(c, blanks + (":" + x));
    assert [c] + blanks + ":" + x == [c] + (blanks + (":" + x)) && (":" + x)[1..] == x;
    if blanks + x != "" && (x == "" || (x[0] != ':' && !IsBlank(x[0]))) {
      BlanksSkipped(blanks, x);
      BehindLetter(c, blanks + x);
      assert [c] + blanks + x == [c] + (blanks + x);
    }
  }

  lemma NoLetter(x: string)
    ensures x == "" || (x[0] != 'T' && x[0] != 'U') ==> Marker(x) == None && AfterType(x) == x
  {
  }

  /** Some element is an interval around the port, with the protocol in force there. */
  ghost predicate Named(es: seq<string>, port: int, tcp: bool) {
    exists i :: 0 <= i < |es| && ElementNames(es, i, port, tcp)
  }

  ghost predicate ElementNames(es: seq<string>, i: nat, port: int, tcp: bool)
    requires i < |es|
  {
    Interval(AfterType(es[i])).Some? && InForce(es, i, tcp)
    && Interval(AfterType(es[i])).value.0 <= port <= Interval(AfterType(es[i])).value.1
  }

  ghost predicate Covered(rs: seq<PortRange>, port: int, tcp: bool) {
    exists r :: r in rs && Covers(r, port, tcp)
  }

  lemma CoveredAppend(a: seq<PortRange>, b: seq<PortRange>, port: int, tcp: bool)
    ensures Covered(a + b, port, tcp) <==> Covered(a, port, tcp) || Covered(b, port, tcp)
  {
  }

  lemma CoveredOne(r: PortRange, port: int, tcp: bool)
    ensures Covered([r], port, tcp) <==> Covers(r, port, tcp)
    ensures !Covered([], port, tcp)
  {
  }

  /** The ranges cover exactly the ports that the elements name, and they are all ranges of ports. */
  lemma {:induction false} RangesMeaning(es: seq<string>, port: int, tcp: bool)
    ensures forall r | r in RangesOf(es) :: 1 <= r.start <= r.end <= 65535
    ensures Covered(RangesOf(es), port, tcp) <==> Named(es, port, tcp)
    ensures |RangesOf(es)| <= |es|
  {
    hide AfterType, Interval, Protocol, Covered, Named, InForce;
    if |es| == 0 {
      NothingNamed(port, tcp);
      return;
    }
    var n := |es| - 1;
    RangesMeaning(es[..n], port, tcp);
    IntervalBounds(AfterType(es[n]));
    ProtocolInForce(es, n, tcp);
    assert es[..n + 1] == es;
    NamedBefore(es, port, tcp);
    var last := if Interval(AfterType(es[n])).Some? then
        [PortRange(Interval(AfterType(es[n])).value.0, Interval(AfterType(es[n])).value.1, Protocol(es))]
      else [];
    CoveredAppend(RangesOf(es[..n]), last, port, tcp);
    CoveredOne(if |last| > 0 then last[0] else PortRange(0, 0, true), port, tcp);
  }

  lemma NothingNamed(port: int, tcp: bool)
    ensures !Named([], port, tcp) && !Covered([], port, tcp)
  {
  }

  lemma IntervalBounds(x: string)
    ensures Interval(x).Some? ==> 1 <= Interval(x).value.0 <= Interval(x).value.1 <= 65535
  {
    hide Port;
    PortPositive(x[..CharIndex(x, '-')]);
    PortPositive(x);
    if CharIndex(x, '-') < |x| {
      PortPositive(x[CharIndex(x, '-') + 1..]);
    }
  }

  lemma NamedBefore(es: seq<string>, port: int, tcp: bool)
    requires |es| > 0
    ensures Named(es, port, tcp) <==> Named(es[..|es| - 1], port, tcp) || ElementNames(es, |es| - 1, port, tcp)
  {
    hide AfterType, Interval, Marker;
    var n := |es| - 1;
    forall i | 0 <= i < n ensures ElementNames(es, i, port, tcp) <==> ElementNames(es[..n], i, port, tcp) {
      assert forall k | 0 <= k <= i :: es[..n][k] == es[k];
    }
  }

  function IntervalCount(es: seq<string>): (n: nat)
    ensures n <= |es|
  {
    if |es| == 0 then 0
    else IntervalCount(es[..|es| - 1]) + if Interval(AfterType(es[|es| - 1])).Some? then 1 else 0
  }

  /** Each interval has its own range, in the order of the elements, with its bounds and the protocol in force. */
  lemma {:induction false} RangesInOrder(es: seq<string>, i: nat, tcp: bool)
    requires i < |es|
    ensures |RangesOf(es)| == IntervalCount(es)
    ensures Interval(AfterType(es[i])).Some? && InForce(es, i, tcp) ==>
      var k, v := IntervalCount(es[..i]), Interval(AfterType(es[i])).value;
      k < |RangesOf(es)| && RangesOf(es)[k] == PortRange(v.0, v.1, tcp)
  {
    hide AfterType, Interval, Protocol, InForce;
    var n := |es| - 1;
    RangesCounted(es);
    if i == n {
      RangesCounted(es[..n]);
      ProtocolInForce(es, n, tcp);
      assert es[..n + 1] == es;
    } else {
      RangesInOrder(es[..n], i, tcp);
      SameForce(es, n, i, tcp);
      assert es[..n][..i] == es[..i];
    }
  }

  lemma {:induction false} RangesCounted(es: seq<string>)
    ensures |RangesOf(es)| == IntervalCount(es)
  {
    hide AfterType, Interval, Protocol;
    if |es| > 0 {
      RangesCounted(es[..|es| - 1]);
    }
  }

  lemma SameForce(es: seq<string>, n: nat, i: nat, tcp: bool)
    requires i < n <= |es|
    ensures InForce(es[..n], i, tcp) <==> InForce(es, i, tcp)
  {
    hide Marker;
    assert forall k | 0 <= k <= i :: es[..n][k] == es[k];
  }
}
