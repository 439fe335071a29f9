/** The web side of task creation: `getPhpCreateTaskParam` takes a request apart and checks it, `php_create_task` sends
    what passed. What the daemon makes of that is compared with what the web side checked. */
module WebCreate {
  import opened Wrappers
  import opened Text
  import opened Numbers
  import opened TaskRecord
  import opened Escape
  import opened Tokens
  import opened TaskCreate

  // ----- the request

  /** `CUSTOM_COMM_PATTERN`, where line breaks count as characters like any other. */
  predicate IsFieldText(s: string) {
    forall c | c in s :: c !in "\\'`\""
  }

  const LABELS: seq<string> := [
    "taskname=", "&group=", "&groupname=", "&hosts=", "&schdule_type=", "&schedule_time=", "&schedule_list=", ""]

  /** Labels and quoted fields in turn. */
  function Pieces(f: seq<string>): (p: seq<string>)
    requires |f| == 7
    ensures |p| == 15
    ensures forall k | 0 <= k < 15 :: p[k] == if k % 2 == 0 then LABELS[k / 2] else f[k / 2]
  {
    [LABELS[0], f[0], LABELS[1], f[1], LABELS[2], f[2], LABELS[3], f[3], LABELS[4], f[4], LABELS[5], f[5],
     LABELS[6], f[6], LABELS[7]]
  }

  /** A request that carries the seven fields. */
  function Request(f: seq<string>): string
    requires |f| == 7
  {
    Join(Pieces(f), "\"")
  }

  /** The match of the whole request pattern: fields hold no quotes, so there is at most one. */
  function Quoted(input: string): Option<seq<string>> {
    var p := Split(input, '"');
    if |p| != 15 then None
    else
      var f := [p[1], p[3], p[5], p[7], p[9], p[11], p[13]];
      if p == Pieces(f) && forall s | s in f :: IsFieldText(s) then Some(f) else None
  }

  lemma LabelsQuoteFree()
    ensures forall k | 0 <= k < 8 :: Free(LABELS[k], '"')
  {
    assert forall k | 0 <= k < 8 :: '"' !in LABELS[k];
  }

  lemma PiecesQuoteFree(f: seq<string>)
    requires |f| == 7 && forall s | s in f :: IsFieldText(s)
    ensures forall p | p in Pieces(f) :: Free(p, '"')
  {
    LabelsQuoteFree();
    hide Pieces;
    forall k | 0 <= k < 15 ensures Free(Pieces(f)[k], '"') {
      if k % 2 == 1 {
        FieldQuoteFree(f[k / 2]);
      }
    }
  }

  lemma FieldQuoteFree(s: string)
    requires IsFieldText(s)
    ensures Free(s, '"')
  {
    forall i | 0 <= i < |s| ensures s[i] != '"' {
      assert s[i] in s;
    }
  }

  /** A request matches the pattern with these fields if and only if it is put together from them. */
  lemma QuotedIff(input: string, f: seq<string>)
    ensures Quoted(input) == Some(f) <==> |f| == 7 && (forall s | s in f :: IsFieldText(s)) && input == Request(f)
  {
    hide IsFieldText, Pieces, Join, Split;
    JoinSplit(input, '"');
    if |f| == 7 && (forall s | s in f :: IsFieldText(s)) && input == Request(f) {
      PiecesQuoteFree(f);
      SplitJoin(Pieces(f), '"');
      var p := Pieces(f);
      assert [p[1], p[3], p[5], p[7], p[9], p[11], p[13]] == f;
    }
  }

  // ----- host lists

  /** What `[,[:space:]]` matches counts as a comma. */
  function Commas(s: string): (r: string)
    ensures |r| == |s|
  {
    seq(|s|, i requires 0 <= i < |s| => if IsSpace(s[i]) then ',' else s[i])
  }

  /** `chkHostsExt`: ranges with any number of commas and white space between neighbours. */
  predicate IsHostListEx(s: string) {
    var p := Split(Commas(s), ',');
    p[0] != "" && p[|p| - 1] != "" && forall h | h in p :: h == "" || IsIpRange(h)
  }

  /** A text consists of separators and of what its parts consist of. */
  lemma {:induction false} CharsOfParts(s: string)
    requires forall p | p in Split(s, ',') :: AllHostChars(p)
    ensures forall i | 0 <= i < |s| :: s[i] == ',' || IsHostChar(s[i])
    decreases |s|
  {
    hide IsHostChar;
    var i := CharIndex(s, ',');
    var parts := Split(s, ',');
    assert parts[0] == s[..i] && parts[0] in parts;
    assert forall k | 0 <= k < i :: s[k] == parts[0][k];
    if i < |s| {
      var rest := s[i + 1..];
      assert parts == [s[..i]] + Split(rest, ',');
      forall p | p in Split(rest, ',') ensures AllHostChars(p) {
        assert p in parts;
      }
      CharsOfParts(rest);
      assert forall k | i < k < |s| :: s[k] == rest[k - i - 1];
    }
  }

  lemma CommasAreMask(s: string)
    requires forall i | 0 <= i < |s| :: Commas(s)[i] == ',' || IsHostChar(Commas(s)[i])
    ensures Mask(s) == Commas(s)
  {
    forall i | 0 <= i < |s| ensures Mask(s)[i] == Commas(s)[i] {
    }
  }

  lemma {:induction false} NonEmptyAll(parts: seq<string>)
    requires forall h | h in parts :: h == "" || IsIpRange(h)
    ensures forall h | h in NonEmpty(parts) :: IsIpRange(h)
  {
    hide IsIpRange;
    NonEmptyPieces(parts);
  }

  lemma {:induction false} NonEmptyShorter(parts: seq<string>)
    ensures |Join(NonEmpty(parts), ",")| <= |Join(parts, ",")|
  {
    if |parts| > 0 {
      var init, last := parts[..|parts| - 1], parts[|parts| - 1];
      assert parts == init + [last];
      NonEmptyShorter(init);
      hide Join, NonEmpty;
      NonEmptySnoc(init, last);
      JoinSnoc(init, last, ",");
      JoinSnoc(NonEmpty(init), last, ",");
      NoParts(init);
    }
  }

  lemma NoParts(parts: seq<string>)
    ensures |parts| == 0 ==> NonEmpty(parts) == [] && Join(parts, ",") == ""
  {
  }

  /** Host lists that the web side accepts in its lenient form are normalised to the strict form of the daemon: the same
      ranges in the same order, and no longer than before. */
  lemma NormalizedIsHostList(s: string)
    requires IsHostListEx(s)
    ensures HostTokens(s) == NonEmpty(Split(Commas(s), ',')) && HostTokens(s) != []
    ensures Split(Normalized(s), ',') == HostTokens(s) && IsHostList(Normalized(s))
    ensures |Normalized(s)| <= |s| && Free(Normalized(s), DELIM)
  {
    var c := Commas(s);
    var p := Split(c, ',');
    hide IsIpRange, Split, NonEmpty, Join, Commas, Mask;
    forall h | h in p ensures AllHostChars(h) {
      if h != "" {
        RangeIsHostChars(h);
      }
    }
    CharsOfParts(c);
    CommasAreMask(s);
    FirstStays(p);
    NonEmptyAll(p);
    var t := HostTokens(s);
    TokensAreHosts(s);
    forall h | h in t ensures Free(h, ',') {
      HostCharsFree(h);
    }
    SplitJoin(t, ',');
    NonEmptyShorter(p);
    JoinSplit(c, ',');
    JoinedHosts(t);
  }

  lemma FirstStays(p: seq<string>)
    requires |p| > 0 && p[0] != ""
    ensures NonEmpty(p) != []
  {
    hide Join;
    if |p| == 1 {
      assert p == [] + [p[0]];
      NonEmptySnoc([], p[0]);
    } else {
      FirstStays(p[..|p| - 1]);
    }
  }

  lemma HostCharsFree(h: string)
    requires AllHostChars(h)
    ensures Free(h, ',') && Free(h, DELIM)
  {
  }

  lemma {:induction false} JoinedHosts(t: seq<string>)
    requires forall h | h in t :: AllHostChars(h)
    ensures Free(Join(t, ","), DELIM)
  {
    if |t| > 0 {
      HostCharsFree(t[0]);
      hide AllHostChars;
      JoinedHosts(t[1..]);
    }
  }

  // ----- the checks

  /** The buffer sizes and the checks of `getPhpCreateTaskParam` on the fields of a request. What passes is sent with its
      hosts normalised. */
  function WebCheck(f: seq<string>): Option<seq<string>> {
    if |f| != 7 || exists i | 0 <= i < 7 :: |f[i]| >= CREATE_SIZES[i] then None
    else if !IsName(f[0]) || !ConfigInfoOk(f[1], f[2]) then None
    else if !IsHostListEx(f[3]) || HostTokens(f[3]) == [] then None
    else if !ScheduleOk(Atoi(f[4]), f[5], f[6]) then None
    else Some(f[3 := Normalized(f[3])])
  }

  /** The web side accepts what fits the buffers and the lenient pattern for hosts if and only if the daemon's own checks
      pass on it once the hosts are normalised, and this is what it sends. */
  lemma WebCheckIff(f: seq<string>)
    requires |f| == 7
    ensures WebCheck(f).Some? <==>
      && (forall i | 0 <= i < 7 :: |f[i]| < CREATE_SIZES[i])
      && IsHostListEx(f[3])
      && ParamOk(CreateParam(f[0], f[1], f[2], Normalized(f[3]), Atoi(f[4]), f[5], f[6]))
    ensures WebCheck(f).Some? ==> WebCheck(f).value == [f[0], f[1], f[2], Normalized(f[3]), f[4], f[5], f[6]]
  {
    hide IsName, ConfigInfoOk, IsHostListEx, IsHostList, ScheduleOk, Atoi, Normalized, HostTokens;
    if IsHostListEx(f[3]) {
      NormalizedIsHostList(f[3]);
    }
  }

  function WebParam(input: string): Option<seq<string>> {
    var f :- Quoted(input);
    WebCheck(f)
  }

  /** No field holds the character that separates the fields of a message. */
  predicate NoDelim(f: seq<string>) {
    forall i | 0 <= i < |f| :: Free(f[i], DELIM)
  }

  lemma CheckedFits(f: seq<string>)
    requires WebCheck(f).Some?
    ensures var g := WebCheck(f).value;
      && |g| == 7 && (Fits(g, CREATE_SIZES) <==> NoDelim(g))
      && ParamOk(ToParam(g))
  {
    NormalizedIsHostList(f[3]);
    hide IsName, ConfigInfoOk, IsHostListEx, IsHostList, ScheduleOk, Atoi, Normalized, HostTokens;
    var g := WebCheck(f).value;
    assert forall i | 0 <= i < 7 :: |g[i]| <= |f[i]|;
  }

  lemma ArrivesIff(g: seq<string>)
    requires |g| == 7 && (Fits(g, CREATE_SIZES) <==> NoDelim(g)) && ParamOk(ToParam(g))
    ensures Decode(Tokens.Encode(g), CREATE_SIZES) == Some((g, "")) <==> NoDelim(g)
    ensures NoDelim(g) ==> ParseCreate(Tokens.Encode(g)) == if StartsWithDigit(g[4]) then Some(ToParam(g)) else None
  {
    hide Decode, Tokens.Encode, Fits, NoDelim, ParamOk, ToParam, StartsWithDigit;
    RoundTripIff(g, CREATE_SIZES);
    if NoDelim(g) {
      DecodedIs(g);
    }
  }

  lemma DecodedIs(g: seq<string>)
    requires |g| == 7 && Decode(Tokens.Encode(g), CREATE_SIZES) == Some((g, ""))
    ensures ParseCreate(Tokens.Encode(g)) == if StartsWithDigit(g[4]) then Some(ToParam(g)) else None
  {
    hide Decode, Tokens.Encode, StartsWithDigit, Atoi;
  }

  /** From the request to the daemon. The fields of an accepted request arrive as they were sent if and only if none of
      them holds the delimiter; the patterns of the web side let it through in names and texts. If none does, the daemon
      accepts the request, with the same schedule type, if and only if the type starts with a digit, and it can lead to
      a task if and only if the type is also one of the five known ones. */
  lemma AcceptedArrivesIff(input: string, now: string)
    requires WebParam(input).Some?
    ensures var f := WebParam(input).value;
      var p := ParseCreate(Tokens.Encode(f));
      && |f| == 7
      && (Decode(Tokens.Encode(f), CREATE_SIZES) == Some((f, "")) <==> NoDelim(f))
      && (NoDelim(f) ==> (p.Some? && ParamOk(p.value) <==> StartsWithDigit(f[4])))
      && (NoDelim(f) && StartsWithDigit(f[4]) ==>
           p == Some(CreateParam(f[0], f[1], f[2], f[3], Atoi(f[4]), f[5], f[6])))
      && (NoDelim(f) && p.Some? ==>
           ((exists a :: BuildRecord(p.value, a, now).Some?) <==> 0 <= Atoi(f[4]) <= 4))
  {
    hide WebCheck, Quoted, Decode, Tokens.Encode, ParseCreate, ParamOk, NoDelim, StartsWithDigit, Atoi, BuildRecord, Fits;
    var f := WebParam(input).value;
    CheckedFits(Quoted(input).value);
    ArrivesIff(f);
    if NoDelim(f) && ParseCreate(Tokens.Encode(f)).Some? {
      RecordableIff(ToParam(f), now);
    }
  }

  /** For every accepted request there is one with the delimiter in its name that is accepted as well, and whose fields
      do not arrive as they were sent. */
  lemma DelimiterInName(f: seq<string>)
    requires WebCheck(f).Some?
    ensures var g := WebCheck(f[0 := "a\U{1}b"]);
      g.Some? && Decode(Tokens.Encode(g.value), CREATE_SIZES) != Some((g.value, ""))
  {
    var f' := f[0 := "a\U{1}b"];
    NameWithDelimiter();
    hide IsName, ConfigInfoOk, IsHostListEx, ScheduleOk, Atoi, Normalized, HostTokens, Decode, Tokens.Encode;
    CheckedFits(f');
    var g := WebCheck(f').value;
    assert !Free(g[0], DELIM);
    ArrivesIff(g);
  }

  lemma NameWithDelimiter()
    ensures IsName("a\U{1}b") && "a\U{1}b"[1] == DELIM
  {
  }
}
