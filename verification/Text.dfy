/** The C and GLib string functions that the parsers share. A C string is the sequence of its characters
    before the terminating NUL. */
module Text {
  import opened Wrappers

  predicate Occurs(text: string, needle: string, i: int) {
    0 <= i <= |text| - |needle| && text[i..i + |needle|] == needle
  }

  /** `strstr`, as the offset of the first occurrence at or after `from`. */
  function StrStr(text: string, needle: string, from: nat): (r: Option<nat>)
    ensures r.Some? ==> from <= r.value && Occurs(text, needle, r.value)
    ensures r.Some? ==> forall j | from <= j < r.value :: !Occurs(text, needle, j)
    ensures r.None? ==> forall j | from <= j :: !Occurs(text, needle, j)
    decreases |text| - from
  {
    if from + |needle| > |text| then None
    else if Occurs(text, needle, from) then Some(from)
    else StrStr(text, needle, from + 1)
  }

  predicate Free(s: string, c: char) {
    forall i | 0 <= i < |s| :: s[i] != c
  }

  lemma StrStrFirst(text: string, needle: string, i: nat)
    requires Occurs(text, needle, i)
    requires forall j | 0 <= j < i :: !Occurs(text, needle, j)
    ensures StrStr(text, needle, 0) == Some(i)
  {
  }

  lemma OccursChar(text: string, c: char, i: int)
    ensures Occurs(text, [c], i) <==> 0 <= i < |text| && text[i] == c
  {
  }

  /** The first occurrence of a one-character needle behind a text that is free of it. */
  lemma StrStrChar(a: string, c: char, b: string)
    requires Free(a, c)
    ensures StrStr(a + [c] + b, [c], 0) == Some(|a|)
  {
    var text := a + [c] + b;
    OccursChar(text, c, |a|);
    forall j | 0 <= j < |a| ensures !Occurs(text, [c], j) {
      OccursChar(text, c, j);
      assert text[j] == a[j];
    }
    StrStrFirst(text, [c], |a|);
  }

  lemma StrStrFree(a: string, c: char)
    ensures Free(a, c) <==> StrStr(a, [c], 0).None?
  {
    hide StrStr;
    forall j ensures Occurs(a, [c], j) <==> 0 <= j < |a| && a[j] == c {
      OccursChar(a, c, j);
    }
    if StrStr(a, [c], 0).None? {
      forall j | 0 <= j < |a| ensures a[j] != c {
        assert !Occurs(a, [c], j);
      }
    }
  }

  lemma FoundCharPrefix(text: string, c: char)
    requires StrStr(text, [c], 0).Some?
    ensures var i := StrStr(text, [c], 0).value;
      i < |text| && text[i] == c && Free(text[..i], c) && text == text[..i] + [c] + text[i + 1..]
  {
    var i := StrStr(text, [c], 0).value;
    hide *;
    OccursChar(text, c, i);
    assert forall j | 0 <= j < i :: text[j] != c by {
      forall j | 0 <= j < i ensures text[j] != c {
        OccursChar(text, c, j);
      }
    }
    FreePrefix(text, i, c);
  }

  lemma FreePrefix(text: string, i: nat, c: char)
    requires i < |text| && text[i] == c && forall j | 0 <= j < i :: text[j] != c
    ensures Free(text[..i], c) && text == text[..i] + [c] + text[i + 1..]
  {
  }

  function CharIndex(s: string, c: char): (i: nat)
    ensures i <= |s| && forall j | 0 <= j < i :: s[j] != c
    ensures i < |s| ==> s[i] == c
  {
    if s == "" || s[0] == c then 0 else 1 + CharIndex(s[1..], c)
  }

  /** `g_strsplit` with a one-character separator, for a non-empty text. */
  function Split(s: string, c: char): (parts: seq<string>)
    ensures |parts| > 0
    decreases |s|
  {
    var i := CharIndex(s, c);
    if i == |s| then [s] else [s[..i]] + Split(s[i + 1..], c)
  }

  /** `g_strsplit`: the empty text splits into nothing at all. */
  function GSplit(s: string, c: char): seq<string> {
    if s == "" then [] else Split(s, c)
  }

  function Join(parts: seq<string>, sep: string): string {
    if |parts| == 0 then ""
    else if |parts| == 1 then parts[0]
    else parts[0] + sep + Join(parts[1..], sep)
  }

  lemma CharIndexAt(a: string, c: char, b: string)
    requires Free(a, c)
    ensures CharIndex(a + [c] + b, c) == |a|
  {
    hide CharIndex;
    var t := a + [c] + b;
    assert t[|a|] == c;
    assert forall j | 0 <= j < |a| :: t[j] == a[j];
  }

  lemma CharIndexFree(a: string, c: char)
    requires Free(a, c)
    ensures CharIndex(a, c) == |a|
  {
  }

  lemma SplitCons(a: string, c: char, b: string)
    requires Free(a, c)
    ensures Split(a + [c] + b, c) == [a] + Split(b, c)
  {
    CharIndexAt(a, c, b);
    assert (a + [c] + b)[..|a|] == a && (a + [c] + b)[|a| + 1..] == b;
  }

  lemma SplitFree(a: string, c: char)
    requires Free(a, c)
    ensures Split(a, c) == [a]
  {
  }

  /** Splitting undoes joining, for parts without the separator. */
  lemma {:induction false} SplitJoin(parts: seq<string>, c: char)
    requires |parts| > 0 && forall p | p in parts :: Free(p, c)
    ensures Split(Join(parts, [c]), c) == parts
  {
    var p := parts[0];
    assert p in parts;
    if |parts| == 1 {
      CharIndexFree(p, c);
    } else {
      var rest := Join(parts[1..], [c]);
      CharIndexAt(p, c, rest);
      assert (p + [c] + rest)[|p| + 1..] == rest && (p + [c] + rest)[..|p|] == p;
      SplitJoin(parts[1..], c);
    }
  }

  lemma {:induction false} SplitPieces(s: string, c: char)
    ensures forall p | p in Split(s, c) :: Free(p, c)
    decreases |s|
  {
    var i := CharIndex(s, c);
    if i < |s| {
      SplitPieces(s[i + 1..], c);
    } else {
      assert s[..i] == s;
    }
  }

  /** Joining undoes splitting. */
  lemma {:induction false} JoinSplit(s: string, c: char)
    ensures Join(Split(s, c), [c]) == s
    decreases |s|
  {
    hide *;
    SplitStep(s, c);
    var i := CharIndex(s, c);
    if i < |s| {
      JoinSplit(s[i + 1..], c);
      JoinCons(s[..i], Split(s[i + 1..], c), [c]);
    } else {
      assert [s] == [s] + [];
      JoinCons(s, [], [c]);
    }
  }

  lemma SplitStep(s: string, c: char)
    ensures var i := CharIndex(s, c);
      if i < |s| then s == s[..i] + [c] + s[i + 1..] && Split(s, c) == [s[..i]] + Split(s[i + 1..], c)
      else Split(s, c) == [s]
  {
  }

  lemma JoinCons(a: string, rest: seq<string>, sep: string)
    ensures Join([a] + rest, sep) == if |rest| == 0 then a else a + sep + Join(rest, sep)
  {
  }

  lemma {:induction false} JoinSnoc(parts: seq<string>, x: string, sep: string)
    ensures Join(parts + [x], sep) == if |parts| == 0 then x else Join(parts, sep) + sep + x
  {
    hide *;
    if |parts| == 0 {
      assert [] + [x] == [x] == [x] + [];
      JoinCons(x, [], sep);
      return;
    }
    var a, rest := parts[0], parts[1..];
    assert parts == [a] + rest && [a] + rest + [x] == [a] + (rest + [x]);
    JoinCons(a, rest, sep);
    JoinCons(a, rest + [x], sep);
    JoinSnoc(rest, x, sep);
  }

  /** A separator more: the parts on its two sides follow each other. */
  lemma {:induction false} SplitConcat(a: string, c: char, b: string)
    ensures Split(a + [c] + b, c) == Split(a, c) + Split(b, c)
    decreases |a|
  {
    hide *;
    SplitStep(a, c);
    var i := CharIndex(a, c);
    if i == |a| {
      WholeFree(a, c);
      SplitCons(a, c, b);
    } else {
      var p, r := a[..i], a[i + 1..];
      PrefixFree(a, c);
      SplitConcat(r, c, b);
      SplitCons(p, c, r + [c] + b);
      assert p + [c] + (r + [c] + b) == a + [c] + b;
      assert [p] + (Split(r, c) + Split(b, c)) == [p] + Split(r, c) + Split(b, c);
    }
  }

  lemma WholeFree(a: string, c: char)
    requires CharIndex(a, c) == |a|
    ensures Free(a, c)
  {
  }

  lemma PrefixFree(a: string, c: char)
    ensures Free(a[..CharIndex(a, c)], c)
  {
  }

  predicate IsDigit(c: char) {
    '0' <= c <= '9'
  }

  predicate IsBlank(c: char) {
    c == ' ' || c == '\t'
  }

  /** `g_ascii_isspace`; unlike `isspace` it leaves out the vertical tab. */
  predicate IsGSpace(c: char) {
    c == ' ' || c == '\t' || c == '\n' || c == '\r' || c == '\U{c}'
  }

  predicate IsSpace(c: char) {
    IsGSpace(c) || c == '\U{b}'
  }

  function ToLower(c: char): char {
    if 'A' <= c <= 'Z' then c - 'A' + 'a' else c
  }

  function Lower(s: string): (r: string)
    ensures |r| == |s|
  {
    seq(|s|, i requires 0 <= i < |s| => ToLower(s[i]))
  }

  /** `strcasecmp` answering zero. */
  predicate SameIgnoringCase(a: string, b: string) {
    Lower(a) == Lower(b)
  }

  function TrimLeft(s: string): (r: string)
    ensures r == "" || !IsGSpace(r[0])
    ensures exists k | 0 <= k <= |s| :: r == s[k..]
  {
    if s != "" && IsGSpace(s[0]) then
      var r := TrimLeft(s[1..]);
      assert forall k | 0 <= k <= |s[1..]| :: s[1..][k..] == s[k + 1..];
      r
    else assert s == s[0..]; s
  }

  function TrimRight(s: string): (r: string)
    ensures r == "" || !IsGSpace(r[|r| - 1])
    ensures r <= s
  {
    if s != "" && IsGSpace(s[|s| - 1]) then TrimRight(s[..|s| - 1]) else s
  }

  /** `g_strstrip`. */
  function Trim(s: string): string {
    TrimRight(TrimLeft(s))
  }

  predicate Trimmed(s: string) {
    s == "" || (!IsGSpace(s[0]) && !IsGSpace(s[|s| - 1]))
  }

  lemma TrimIsTrimmed(s: string)
    ensures Trimmed(Trim(s))
    ensures forall c | c in Trim(s) :: c in s
  {
  }

  lemma TrimOfTrimmed(s: string)
    requires Trimmed(s)
    ensures Trim(s) == s && Trim(" " + s) == s
  {
  }

  /** Stripping takes white space off both ends, and nothing else. */
  lemma TrimMeaning(s: string) returns (a: string, b: string)
    ensures s == a + Trim(s) + b && Trimmed(Trim(s))
    ensures (forall c | c in a :: IsGSpace(c)) && forall c | c in b :: IsGSpace(c)
  {
    TrimIsTrimmed(s);
    a := TrimLeftMeaning(s);
    b := TrimRightMeaning(TrimLeft(s));
  }

  lemma {:induction false} TrimLeftMeaning(s: string) returns (a: string)
    ensures s == a + TrimLeft(s) && forall c | c in a :: IsGSpace(c)
  {
    a := "";
    if s != "" && IsGSpace(s[0]) {
      a := TrimLeftMeaning(s[1..]);
      a := [s[0]] + a;
    }
  }

  lemma {:induction false} TrimRightMeaning(s: string) returns (b: string)
    ensures s == TrimRight(s) + b && forall c | c in b :: IsGSpace(c)
  {
    b := "";
    if s != "" && IsGSpace(s[|s| - 1]) {
      b := TrimRightMeaning(s[..|s| - 1]);
      b := b + [s[|s| - 1]];
    }
  }

  /** The same letter in both cases. */
  predicate CasePair(c: char, d: char) {
    'A' <= c <= 'Z' && d as int == c as int + 32
  }

  /** Two texts are the same but for case if they are as long as each other and differ in the case of letters only. */
  lemma IgnoringCaseIff(a: string, b: string)
    ensures SameIgnoringCase(a, b) <==>
      |a| == |b| && forall i | 0 <= i < |a| :: a[i] == b[i] || CasePair(a[i], b[i]) || CasePair(b[i], a[i])
  {
    if SameIgnoringCase(a, b) {
      forall i | 0 <= i < |a| ensures a[i] == b[i] || CasePair(a[i], b[i]) || CasePair(b[i], a[i]) {
        assert Lower(a)[i] == Lower(b)[i];
      }
    }
  }
}
