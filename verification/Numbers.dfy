/** `strtol` in base ten, and the white space around numbers. */
module Numbers {
  import opened Text

  const LONG_MAX := 0x7fff_ffff_ffff_ffff

  function BlankCount(s: string): (n: nat)
    ensures n <= |s| && forall i | 0 <= i < n :: IsBlank(s[i])
    ensures n < |s| ==> !IsBlank(s[n])
  {
    if s != "" && IsBlank(s[0]) then 1 + BlankCount(s[1..]) else 0
  }

  function SpaceCount(s: string): (n: nat)
    ensures n <= |s| && forall i | 0 <= i < n :: IsSpace(s[i])
    ensures n < |s| ==> !IsSpace(s[n])
  {
    if s != "" && IsSpace(s[0]) then 1 + SpaceCount(s[1..]) else 0
  }

  /** How many digits a text starts with. */
  function DigitCount(s: string): (n: nat)
    ensures n <= |s| && forall i | 0 <= i < n :: IsDigit(s[i])
    ensures n < |s| ==> !IsDigit(s[n])
  {
    if s != "" && IsDigit(s[0]) then 1 + DigitCount(s[1..]) else 0
  }

  /** Past the blanks. */
  function SkipBlank(s: string): string {
    s[BlankCount(s)..]
  }

  function SkipSpace(s: string): string {
    s[SpaceCount(s)..]
  }

  function DecValue(s: string): nat
    requires forall i | 0 <= i < |s| :: IsDigit(s[i])
  {
    if s == "" then 0
    else
      assert IsDigit(s[|s| - 1]);
      10 * DecValue(s[..|s| - 1]) + (s[|s| - 1] - '0') as nat
  }

  /** The number, where reading stopped, and whether it was out of range. */
  datatype Conv = Conv(value: int, rest: string, overflow: bool)

  predicate Signed(s: string) {
    s != "" && (s[0] == '-' || s[0] == '+')
  }

  function Unsigned(s: string): string {
    if Signed(s) then s[1..] else s
  }

  function Clip(v: int): int {
    if v > LONG_MAX then LONG_MAX else if v < -LONG_MAX - 1 then -LONG_MAX - 1 else v
  }

  /** `strtol`: without any digit nothing is consumed. */
  function StrToL(s: string): Conv {
    var t := SkipSpace(s);
    var d := Unsigned(t);
    var n := DigitCount(d);
    if n == 0 then Conv(0, s, false)
    else
      var v: int := if t[0] == '-' then -(DecValue(d[..n]) as int) else DecValue(d[..n]);
      Conv(Clip(v), d[n..], Clip(v) != v)
  }

  /** A 64-bit number stored in an `int`. */
  function Trunc32(x: int): (r: int)
    ensures -0x8000_0000 <= r < 0x8000_0000
  {
    (x + 0x8000_0000) % 0x1_0000_0000 - 0x8000_0000
  }

  /** `atoi`: `strtol` without a look at errors, cut to an `int`. */
  function Atoi(s: string): (r: int)
    ensures -0x8000_0000 <= r < 0x8000_0000
  {
    Trunc32(StrToL(s).value)
  }

  // ----- counting from the front

  lemma BlankCountUnique(s: string, n: nat)
    requires n <= |s| && (forall i | 0 <= i < n :: IsBlank(s[i])) && (n < |s| ==> !IsBlank(s[n]))
    ensures BlankCount(s) == n
  {
  }

  lemma BlanksEnd(s: string, j: nat)
    requires j < |s| && !IsBlank(s[j])
    ensures BlankCount(s) <= j
  {
  }

  lemma SpaceCountUnique(s: string, n: nat)
    requires n <= |s| && (forall i | 0 <= i < n :: IsSpace(s[i])) && (n < |s| ==> !IsSpace(s[n]))
    ensures SpaceCount(s) == n
  {
  }

  lemma DigitCountUnique(s: string, n: nat)
    requires n <= |s| && (forall i | 0 <= i < n :: IsDigit(s[i])) && (n < |s| ==> !IsDigit(s[n]))
    ensures DigitCount(s) == n
  {
  }

  /** Blanks in front make no difference to a number. */
  lemma BlanksBefore(s: string)
    ensures SkipSpace(SkipBlank(s)) == SkipSpace(s)
  {
  }

  lemma HyphenIsNothing(c: char)
    requires c == '-'
    ensures !IsBlank(c) && !IsSpace(c) && !IsDigit(c)
  {
  }

  lemma NoDigits()
    ensures Unsigned("") == "" && DigitCount("") == 0
  {
  }

  lemma UnsignedAppend(t: string, b: string)
    requires t != ""
    ensures Unsigned(t + b) == Unsigned(t) + b && (t + b)[0] == t[0]
  {
  }

  /** What follows a number, starting with a hyphen, does not change how the number is read. */
  lemma NumberBefore(a: string, b: string)
    requires b != "" && b[0] == '-' && DigitCount(Unsigned(SkipSpace(a))) > 0
    ensures StrToL(a + b) == StrToL(a).(rest := StrToL(a).rest + b)
    ensures DigitCount(Unsigned(SkipSpace(a + b))) > 0
  {
    hide IsSpace, IsDigit, SpaceCount, DigitCount, DecValue, Clip, Unsigned;
    NoDigits();
    var m := SpaceCount(a);
    var t := a[m..];
    var d, n := Unsigned(t), DigitCount(Unsigned(t));
    HyphenIsNothing(b[0]);
    SpaceCountUnique(a + b, m);
    assert (a + b)[m..] == t + b;
    UnsignedAppend(t, b);
    DigitCountUnique(d + b, n);
    assert (d + b)[..n] == d[..n] && (d + b)[n..] == d[n..] + b;
  }

  predicate Converts(s: string) {
    DigitCount(Unsigned(SkipSpace(s))) > 0
  }

  /** A number at position `m` of a text, behind a sign of `k` characters, with `n` digits. */
  ghost predicate Shape(s: string, m: nat, k: nat, n: nat) {
    && k <= 1 && n > 0 && m + k + n <= |s|
    && (forall i | 0 <= i < m :: IsSpace(s[i]))
    && !IsSpace(s[m]) && (k == 1 <==> Signed(s[m..]))
    && (forall i | m + k <= i < m + k + n :: IsDigit(s[i]))
    && (m + k + n < |s| ==> !IsDigit(s[m + k + n]))
  }

  /** The text of such a number tells what `strtol` makes of it. */
  lemma ShapeRead(s: string, m: nat, k: nat, n: nat)
    requires Shape(s, m, k, n)
    ensures Converts(s)
    ensures var v: int := DecValue(s[m + k..m + k + n]);
      var x := if s[m] == '-' then -v else v;
      var signed := if x > 0x7fff_ffff_ffff_ffff then 0x7fff_ffff_ffff_ffff
                    else if x < -0x8000_0000_0000_0000 then -0x8000_0000_0000_0000 else x;
      StrToL(s).value == signed && StrToL(s).rest == s[m + k + n..]
    ensures StrToL(s).overflow <==>
      StrToL(s).value != if s[m] == '-' then -(DecValue(s[m + k..m + k + n]) as int) else DecValue(s[m + k..m + k + n])
  {
    hide IsSpace, IsDigit, SpaceCount, DigitCount, DecValue, Clip;
    SpaceCountUnique(s, m);
    var t := s[m..];
    var d := Unsigned(t);
    assert d == s[m + k..];
    DigitCountUnique(d, n);
    assert d[..n] == s[m + k..m + k + n] && d[n..] == s[m + k + n..];
    ClipIs(DecValue(d[..n]));
    ClipIs(-(DecValue(d[..n]) as int));
  }

  /** Numbers out of range become the nearest one in range. */
  lemma ClipIs(x: int)
    ensures Clip(x) == if x > 0x7fff_ffff_ffff_ffff then 0x7fff_ffff_ffff_ffff
                       else if x < -0x8000_0000_0000_0000 then -0x8000_0000_0000_0000 else x
  {
  }

  lemma ShapeOf(s: string) returns (m: nat, k: nat, n: nat)
    requires Converts(s)
    ensures Shape(s, m, k, n)
  {
    hide IsSpace, IsDigit, SpaceCount, DigitCount;
    NoDigits();
    m := SpaceCount(s);
    var t := s[m..];
    k := if Signed(t) then 1 else 0;
    var d := Unsigned(t);
    assert d == s[m + k..];
    n := DigitCount(d);
    forall i | m + k <= i < m + k + n ensures IsDigit(s[i]) {
      assert d[i - m - k] == s[i];
    }
  }
}
