/** The two escaping loops of `task_openvas.c`: `escapeHosts` normalises a host list inside its own buffer, and
    `escapeXml` writes a request into a bounded buffer. */
module Escape {
  import opened Text

  const NUL := '\0'

  /** The buffer holds the C string `s`. */
  ghost predicate Holds(a: array<char>, s: string)
    reads a
  {
    |s| < a.Length && a[..|s|] == s && a[|s|] == NUL && Free(s, NUL)
  }

  // ----- host lists

  predicate IsHostChar(c: char) {
    IsDigit(c) || c == '/' || c == '.' || c == '-'
  }

  /** Everything that cannot belong to a host counts as a separator. */
  function Mask(s: string): (r: string)
    ensures |r| == |s|
  {
    seq(|s|, i requires 0 <= i < |s| => if IsHostChar(s[i]) then s[i] else ',')
  }

  function NonEmpty(parts: seq<string>): seq<string> {
    if |parts| == 0 then []
    else NonEmpty(parts[..|parts| - 1]) + (if parts[|parts| - 1] == "" then [] else [parts[|parts| - 1]])
  }

  /** The hosts of a text: its longest stretches of host characters, in order. */
  function HostTokens(s: string): seq<string> {
    NonEmpty(Split(Mask(s), ','))
  }

  /** The hosts of a text, with a single comma between neighbours. */
  function Normalized(s: string): string {
    Join(HostTokens(s), ",")
  }

  ghost function Snoc(p: seq<string>, x: char, c: char): seq<string>
    requires |p| > 0
  {
    if x == c then p + [""] else p[..|p| - 1] + [p[|p| - 1] + [x]]
  }

  lemma SnocCons(a: string, q: seq<string>, x: char, c: char)
    requires |q| > 0
    ensures Snoc([a] + q, x, c) == [a] + Snoc(q, x, c)
  {
  }

  /** How a further character changes the split. */
  lemma {:induction false} SplitSnoc(s: string, x: char, c: char)
    ensures Split(s + [x], c) == Snoc(Split(s, c), x, c)
    decreases |s|
  {
    var i := CharIndex(s, c);
    var a := s[..i];
    assert Free(a, c);
    hide *;
    if i < |s| {
      var b := s[i + 1..];
      assert s == a + [c] + b && s + [x] == a + [c] + (b + [x]);
      SplitCons(a, c, b);
      SplitCons(a, c, b + [x]);
      SplitSnoc(b, x, c);
      SnocCons(a, Split(b, c), x, c);
    } else {
      assert s == a;
      SplitFree(s, c);
      SplitSnocFree(s, x, c);
    }
  }

  lemma SplitSnocFree(s: string, x: char, c: char)
    requires Free(s, c)
    ensures Split(s + [x], c) == Snoc([s], x, c)
  {
    if x == c {
      assert s + [c] + "" == s + [x];
      SplitCons(s, c, "");
      SplitFree("", c);
      assert [s] + [""] == Snoc([s], x, c);
    } else {
      SplitFree(s + [x], c);
      assert [s][..0] == [];
    }
  }

  lemma NonEmptySnoc(parts: seq<string>, x: string)
    ensures NonEmpty(parts + [x]) == if x == "" then NonEmpty(parts) else NonEmpty(parts) + [x]
  {
  }

  /** What the buffer holds after the characters of `s` have been read: the hosts so far, then a comma if a
      separator followed the last one. */
  ghost predicate Written(s: string, out: string, isDelim: bool) {
    && out == Normalized(s) + (if isDelim then "," else "")
    && (isDelim <==> HostTokens(s) != [] && LastPart(s) == "")
  }

  lemma WrittenStart()
    ensures Written("", "", false)
  {
  }

  lemma MaskSnoc(s: string, x: char)
    ensures Mask(s + [x]) == Mask(s) + [if IsHostChar(x) then x else ',']
  {
  }

  lemma SplitLast(p: seq<string>)
    requires |p| > 0
    ensures p == p[..|p| - 1] + [p[|p| - 1]]
  {
  }

  lemma NormalizedEmpty(s: string)
    ensures Normalized(s) == "" <==> HostTokens(s) == []
    ensures HostTokens(s) != [] ==> Normalized(s)[|Normalized(s)| - 1] != ','
  {
    var t := HostTokens(s);
    NonEmptyPieces(Split(Mask(s), ','));
    SplitPieces(Mask(s), ',');
    if t != [] {
      SplitLast(t);
      JoinSnoc(t[..|t| - 1], t[|t| - 1], ",");
      assert t[|t| - 1] in t;
    }
  }

  lemma {:induction false} NonEmptyPieces(parts: seq<string>)
    ensures forall t | t in NonEmpty(parts) :: t != "" && t in parts
  {
    if |parts| > 0 {
      NonEmptyPieces(parts[..|parts| - 1]);
    }
  }

  ghost function LastPart(s: string): string {
    var p := Split(Mask(s), ',');
    p[|p| - 1]
  }

  ghost function Before(s: string): seq<string> {
    var p := Split(Mask(s), ',');
    NonEmpty(p[..|p| - 1])
  }

  /** One more character extends the last part, or closes it. */
  lemma PartsNext(s: string, x: char)
    ensures HostTokens(s) == if LastPart(s) == "" then Before(s) else Before(s) + [LastPart(s)]
    ensures IsHostChar(x) ==>
      HostTokens(s + [x]) == Before(s) + [LastPart(s) + [x]] && LastPart(s + [x]) == LastPart(s) + [x]
    ensures !IsHostChar(x) ==> HostTokens(s + [x]) == HostTokens(s) && LastPart(s + [x]) == ""
  {
    var p := Split(Mask(s), ',');
    var init, last := p[..|p| - 1], p[|p| - 1];
    var m := if IsHostChar(x) then x else ',';
    assert m == ',' <==> !IsHostChar(x);
    hide Mask, NonEmpty, Split, IsHostChar;
    MaskSnoc(s, x);
    SplitSnoc(Mask(s), m, ',');
    SplitLast(p);
    NonEmptySnoc(init, last);
    if m == ',' {
      NonEmptySnoc(p, "");
    } else {
      NonEmptySnoc(init, last + [x]);
      assert (init + [last + [x]])[..|init|] == init;
    }
  }

  lemma WrittenNext(s: string, out: string, isDelim: bool, x: char)
    requires Written(s, out, isDelim)
    ensures IsHostChar(x) ==> Written(s + [x], out + [x], false)
    ensures !IsHostChar(x) && !isDelim && out != "" ==> Written(s + [x], out + [','], true)
    ensures !IsHostChar(x) && (isDelim || out == "") ==> Written(s + [x], out, isDelim)
  {
    hide HostTokens, LastPart, Before, IsHostChar, Join;
    PartsNext(s, x);
    NormalizedEmpty(s);
    if IsHostChar(x) {
      ExtendLast(Before(s), LastPart(s), x, isDelim, out);
    }
  }

  lemma ExtendLast(t: seq<string>, last: string, x: char, isDelim: bool, out: string)
    requires out == Join(if last == "" then t else t + [last], ",") + (if isDelim then "," else "")
    requires isDelim <==> t != [] && last == ""
    ensures out + [x] == Join(t + [last + [x]], ",")
  {
    JoinSnoc(t, last, ",");
    JoinSnoc(t, last + [x], ",");
    if last == "" {
      if t != [] {
        assert Join(t, ",") + "," + [x] == Join(t, ",") + "," + ("" + [x]);
      }
    } else {
      assert Join(t, ",") + "," + last + [x] == Join(t, ",") + "," + (last + [x]);
    }
  }

  /** `escapeHosts`: the write cursor never overtakes the read cursor, so the buffer becomes the normalised
      list of the hosts that were in it; 0 if there was any host. */
  method EscapeHosts(hosts: array<char>, ghost s: string) returns (ret: int)
    requires Holds(hosts, s)
    modifies hosts
    ensures Holds(hosts, Normalized(s))
    ensures ret == if HostTokens(s) != [] then 0 else -1
    ensures forall j | |s| < j < hosts.Length :: hosts[j] == old(hosts[j])
  {
    hide Written, HostTokens, Normalized, IsHostChar;
    var cnt, isDelim, psz := 0, false, 0;
    WrittenStart();
    while hosts[psz] != NUL
      invariant 0 <= cnt <= psz <= |s| && hosts[psz..|s| + 1] == s[psz..] + [NUL]
      invariant Written(s[..psz], hosts[..cnt], isDelim)
      invariant forall j | |s| < j < hosts.Length :: hosts[j] == old(hosts[j])
      decreases |s| - psz
    {
      var x := hosts[psz];
      assert x == hosts[psz..|s| + 1][0] == (s[psz..] + [NUL])[0];
      assert psz < |s| && x == s[psz] && s[..psz + 1] == s[..psz] + [x];
      ghost var out := hosts[..cnt];
      WrittenNext(s[..psz], out, isDelim, x);
      assert hosts[psz + 1..|s| + 1] == hosts[psz..|s| + 1][1..] == s[psz + 1..] + [NUL];
      if IsHostChar(x) {
        hosts[cnt] := x;
        assert hosts[..cnt + 1] == out + [x];
        cnt := cnt + 1;
        isDelim := false;
      } else if !isDelim && 0 != cnt {
        hosts[cnt] := ',';
        assert hosts[..cnt + 1] == out + [','];
        cnt := cnt + 1;
        isDelim := true;
      }
      psz := psz + 1;
    }
    AtTheEnd(s, hosts[psz..|s| + 1], psz);
    assert s[..psz] == s;
    WrittenEnd(s, hosts[..cnt], isDelim);
    if 0 < cnt && hosts[cnt - 1] == ',' {
      cnt := cnt - 1;
      hosts[cnt] := NUL;
    } else {
      hosts[cnt] := NUL;
    }
    assert hosts[..cnt] == Normalized(s);
    ret := if 0 < cnt then 0 else -1;
  }

  lemma AtTheEnd(s: string, tail: string, psz: nat)
    requires Free(s, NUL) && psz <= |s| && tail == s[psz..] + [NUL] && tail[0] == NUL
    ensures psz == |s|
  {
  }

  lemma WrittenEnd(s: string, out: string, isDelim: bool)
    requires Written(s, out, isDelim) && Free(s, NUL)
    ensures out == Normalized(s) + (if out != "" && out[|out| - 1] == ',' then "," else "")
    ensures Normalized(s) == "" <==> HostTokens(s) == []
    ensures HostTokens(s) == [] ==> out == ""
    ensures Free(Normalized(s), NUL)
  {
    NormalizedEmpty(s);
    NormalizedChars(s);
  }

  predicate AllHostChars(s: string) {
    forall i | 0 <= i < |s| :: IsHostChar(s[i])
  }

  /** Each host of a list is not empty and consists of digits, dots, slashes and hyphens. */
  lemma TokensAreHosts(s: string)
    ensures forall t | t in HostTokens(s) ::
      t != "" && AllHostChars(t) && forall i | 0 <= i < |t| :: '0' <= t[i] <= '9' || t[i] in {'.', '/', '-'}
  {
    var p := Split(Mask(s), ',');
    NonEmptyPieces(p);
    SplitPieces(Mask(s), ',');
    SplitChars(Mask(s), ',');
  }

  lemma {:induction false} NonEmptyConcat(a: seq<string>, b: seq<string>)
    ensures NonEmpty(a + b) == NonEmpty(a) + NonEmpty(b)
  {
    if |b| == 0 {
      assert a + b == a;
    } else {
      assert (a + b)[..|a + b| - 1] == a + b[..|b| - 1];
      NonEmptyConcat(a, b[..|b| - 1]);
    }
  }

  lemma MaskAround(a: string, c: char, b: string)
    requires !('0' <= c <= '9') && c !in {'.', '/', '-'}
    ensures Mask(a + [c] + b) == Mask(a) + [','] + Mask(b)
  {
  }

  /** Any other character separates: the hosts on its two sides are read on their own. */
  lemma OthersSeparate(a: string, c: char, b: string)
    requires !('0' <= c <= '9') && c !in {'.', '/', '-'}
    ensures HostTokens(a + [c] + b) == HostTokens(a) + HostTokens(b)
  {
    hide Mask, NonEmpty, Split;
    MaskAround(a, c, b);
    SplitConcat(Mask(a), ',', Mask(b));
    NonEmptyConcat(Split(Mask(a), ','), Split(Mask(b), ','));
  }

  lemma {:induction false} SplitChars(s: string, c: char)
    ensures forall p | p in Split(s, c) :: forall i | 0 <= i < |p| :: p[i] in s
    decreases |s|
  {
    var i := CharIndex(s, c);
    if i < |s| {
      SplitChars(s[i + 1..], c);
    }
  }

  lemma NormalizedChars(s: string)
    ensures Free(Normalized(s), NUL)
  {
    TokensAreHosts(s);
    JoinChars(HostTokens(s));
  }

  lemma {:induction false} JoinChars(parts: seq<string>)
    requires forall t | t in parts :: AllHostChars(t)
    ensures Free(Join(parts, ","), NUL)
    ensures Mask(Join(parts, ",")) == Join(parts, ",")
  {
    if |parts| > 0 {
      assert parts[0] in parts;
      if |parts| > 1 {
        JoinChars(parts[1..]);
      }
    }
  }

  /** Normalising keeps the hosts and their order, and doing it again changes nothing. */
  lemma NormalizedKeepsHosts(s: string)
    ensures HostTokens(Normalized(s)) == HostTokens(s)
    ensures Normalized(Normalized(s)) == Normalized(s)
  {
    var t := HostTokens(s);
    TokensAreHosts(s);
    JoinChars(t);
    if t == [] {
      WrittenStart();
      assert Normalized(s) == "";
    } else {
      forall p | p in t ensures Free(p, ',') {
        assert AllHostChars(p);
      }
      SplitJoin(t, ',');
      NonEmptyId(t);
    }
  }

  lemma {:induction false} NonEmptyId(parts: seq<string>)
    requires forall t | t in parts :: t != ""
    ensures NonEmpty(parts) == parts
  {
    if |parts| > 0 {
      var init, last := parts[..|parts| - 1], parts[|parts| - 1];
      assert parts == init + [last] && last in parts;
      forall t | t in init ensures t != "" {
        assert t in parts;
      }
      NonEmptyId(init);
    }
  }

  // ----- request text

  function EscapedChar(c: char): string {
    if c == '"' then ['\\', '"'] else [c]
  }

  /** Every double quote behind a backslash. */
  function Escaped(s: string): string {
    if s == "" then "" else Escaped(s[..|s| - 1]) + EscapedChar(s[|s| - 1])
  }

  /** Reading a backslash in front of a double quote as one quote, and anything else as itself. */
  function Unescaped(s: string): string {
    if s == "" then ""
    else if |s| >= 2 && s[0] == '\\' && s[1] == '"' then ['"'] + Unescaped(s[2..])
    else [s[0]] + Unescaped(s[1..])
  }

  /** `escapeXml` for an output buffer of `maxlen` characters: the whole escaped text or nothing, and it fails
      exactly for the empty text and for texts that with their NUL do not fit. */
  method EscapeXml(xml: string, out: array<char>, maxlen: nat) returns (cnt: nat)
    requires Free(xml, NUL) && 1 <= maxlen <= out.Length
    modifies out
    ensures cnt == if 0 < |Escaped(xml)| <= maxlen - 1 then |Escaped(xml)| else 0
    ensures cnt > 0 ==> out[..cnt] == Escaped(xml)
    ensures out[cnt] == NUL
    ensures forall j | maxlen <= j < out.Length :: out[j] == old(out[j])
  {
    cnt := 0;
    var psz := 0;
    assert Escaped(xml[..0]) == "";
    hide Escaped, EscapedChar;
    while psz < |xml| && cnt < maxlen - 1
      invariant psz <= |xml| && cnt <= maxlen - 1 && out[..cnt] == Escaped(xml[..psz])
      invariant forall j | maxlen <= j < out.Length :: out[j] == old(out[j])
    {
      EscapedStep(xml, psz);
      var fits;
      fits, cnt := PutChar(xml[psz], out, cnt, maxlen);
      if !fits {
        break;
      }
      psz := psz + 1;
    }
    if psz < |xml| {
      EscapedStep(xml, psz);
    } else {
      assert xml[..psz] == xml;
    }
    if 0 < cnt && psz == |xml| {
      out[cnt] := NUL;
    } else {
      cnt := 0;
      out[0] := NUL;
    }
  }

  /** The body of the loop of `escapeXml`: one character, or nothing if its escaped form does not fit. */
  method PutChar(c: char, out: array<char>, cnt: nat, maxlen: nat) returns (fits: bool, n: nat)
    requires cnt < maxlen - 1 && maxlen <= out.Length
    modifies out
    ensures fits <==> cnt + |EscapedChar(c)| <= maxlen - 1
    ensures n == (if fits then cnt + |EscapedChar(c)| else cnt) && |EscapedChar(c)| >= 1
    ensures out[..n] == old(out[..cnt]) + if fits then EscapedChar(c) else ""
    ensures forall j | maxlen <= j < out.Length :: out[j] == old(out[j])
  {
    fits, n := true, cnt;
    if c == '"' {
      if n < maxlen - 2 {
        out[n] := '\\';
        out[n + 1] := '"';
        n := n + 2;
      } else {
        fits := false;
      }
    } else {
      out[n] := c;
      n := n + 1;
    }
  }

  lemma EscapedStep(s: string, k: nat)
    requires k < |s|
    ensures Escaped(s[..k + 1]) == Escaped(s[..k]) + EscapedChar(s[k])
    ensures |Escaped(s[..k + 1])| <= |Escaped(s)|
  {
    assert s[..k + 1][..k] == s[..k];
    EscapedGrows(s, k + 1);
  }

  lemma {:induction false} EscapedGrows(s: string, k: nat)
    requires k <= |s|
    ensures |Escaped(s[..k])| <= |Escaped(s)|
    decreases |s|
  {
    if k < |s| {
      assert s[..|s| - 1][..k] == s[..k];
      EscapedGrows(s[..|s| - 1], k);
    } else {
      assert s[..k] == s;
    }
  }

  /** Nothing is lost: the request can be read back from its escaped form. */
  lemma {:induction false} UnescapeEscape(s: string)
    ensures Unescaped(Escaped(s)) == s
  {
    UnescapeBehind(s, "");
    assert s + "" == s && Escaped(s) + "" == Escaped(s);
  }

  lemma Assoc(a: string, b: string, c: string)
    ensures a + b + c == a + (b + c)
  {
  }

  lemma {:induction false} UnescapeBehind(s: string, tail: string)
    requires tail == "" || tail[0] != '"'
    ensures Unescaped(Escaped(s) + tail) == s + Unescaped(tail)
    decreases |s|
  {
    hide *;
    EscapedSplit(s);
    if s == "" {
      assert "" + tail == tail;
      return;
    }
    var t, x := s[..|s| - 1], s[|s| - 1];
    UnescapeChar(x, tail);
    UnescapeBehind(t, EscapedChar(x) + tail);
    UnescapeGlue(Escaped(t), EscapedChar(x), t, x, tail);
  }

  lemma EscapedSplit(s: string)
    ensures Escaped("") == ""
    ensures s != "" ==>
      var t, x := s[..|s| - 1], s[|s| - 1];
      s == t + [x] && Escaped(s) == Escaped(t) + EscapedChar(x)
  {
  }

  lemma UnescapeGlue(et: string, ex: string, t: string, x: char, tail: string)
    requires Unescaped(et + (ex + tail)) == t + Unescaped(ex + tail)
    requires Unescaped(ex + tail) == [x] + Unescaped(tail)
    ensures Unescaped(et + ex + tail) == t + [x] + Unescaped(tail)
  {
    hide *;
    Assoc(et, ex, tail);
    Assoc(t, [x], Unescaped(tail));
  }

  lemma UnescapeChar(x: char, tail: string)
    requires tail == "" || tail[0] != '"'
    ensures (EscapedChar(x) + tail)[0] != '"'
    ensures Unescaped(EscapedChar(x) + tail) == [x] + Unescaped(tail)
  {
  }
}
