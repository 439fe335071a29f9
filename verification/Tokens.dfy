/** The delimited messages between the web side (`task_openvas.c`) and the daemon (`openvas_business.c`), cut
    up again by the tokenizer of `comm_misc.c`. */
module Tokens {
  import opened Wrappers
  import opened Text
  import opened Numbers

  /** `OPENVAS_KB_DELIM`. */
  const DELIM := '\U{1}'

  datatype Next = End | Got(token: string, rest: string) | TooLong

  /** The token before the first `needle`, or all of the text, if it is shorter than its buffer. */
  function NextToken(text: string, needle: string, maxlen: nat): Next {
    if text == "" then End
    else match StrStr(text, needle, 0)
      case Some(i) => if i < maxlen then Got(text[..i], text[i + |needle|..]) else TooLong
      case None => if |text| < maxlen then Got(text, "") else TooLong
  }

  lemma NextTokenAt(a: string, c: char, b: string, maxlen: nat)
    requires Free(a, c)
    ensures NextToken(a + [c] + b, [c], maxlen) == if |a| < maxlen then Got(a, b) else TooLong
  {
    hide StrStr;
    StrStrChar(a, c, b);
    assert (a + [c] + b)[..|a|] == a && (a + [c] + b)[|a| + 1..] == b;
  }

  lemma NextTokenClean(text: string, c: char, maxlen: nat)
    requires NextToken(text, [c], maxlen).Got?
    ensures var n := NextToken(text, [c], maxlen);
      && Free(n.token, c) && |n.token| < maxlen
      && (text == n.token + [c] + n.rest || (text == n.token && n.rest == ""))
      && |n.rest| < |text|
  {
    hide StrStr;
    StrStrFree(text, c);
    if StrStr(text, [c], 0).Some? {
      FoundCharPrefix(text, c);
    }
  }

  /** The cursor that callers of `getNextToken` thread through `saveptr`, and its output buffer. */
  class Reader {
    var saveptr: string
    var buf: string

    constructor (text: string)
      ensures saveptr == text
    {
      saveptr, buf := text, "";
    }

    /** `getNextToken`: 0 ok, 1 at the end of the text, -1 token too long. Only a success moves the cursor. */
    method GetNextToken(needle: string, maxlen: nat) returns (ret: int)
      modifies this
      ensures NextToken(old(saveptr), needle, maxlen).Got? ==>
        ret == 0 && Got(buf, saveptr) == NextToken(old(saveptr), needle, maxlen)
      ensures NextToken(old(saveptr), needle, maxlen).End? ==> ret == 1
      ensures NextToken(old(saveptr), needle, maxlen).TooLong? ==> ret == -1
      ensures ret != 0 ==> saveptr == old(saveptr) && buf == old(buf)
    {
      if saveptr == "" {
        return 1;
      }
      var psz := StrStr(saveptr, needle, 0);
      var cnt := if psz.Some? then psz.value else if |saveptr| < maxlen then |saveptr| else maxlen;
      if cnt < maxlen {
        buf := saveptr[..cnt];
        saveptr := if psz.Some? then saveptr[psz.value + |needle|..] else saveptr[cnt..];
        return 0;
      }
      return -1;
    }

    /** `getNextTokenInt`: also -2 when the token does not start with a digit. */
    method GetNextTokenInt(needle: string) returns (ret: int, val: int)
      modifies this
      ensures NextToken(old(saveptr), needle, MAX_COMM_MIN_SIZE).Got? ==>
        && Got(buf, saveptr) == NextToken(old(saveptr), needle, MAX_COMM_MIN_SIZE)
        && (ret == 0 <==> StartsWithDigit(buf))
        && (ret == 0 ==> val == Atoi(buf))
      ensures !NextToken(old(saveptr), needle, MAX_COMM_MIN_SIZE).Got? ==> ret != 0
      ensures ret != 0 ==> val == -1
    {
      val := -1;
      ret := GetNextToken(needle, MAX_COMM_MIN_SIZE);
      if ret == 0 {
        if StartsWithDigit(buf) {
          val := Atoi(buf);
        } else {
          ret := -2;
        }
      }
    }
  }

  predicate StartsWithDigit(s: string) {
    s != "" && IsDigit(s[0])
  }

  const MAX_COMM_MIN_SIZE := 32

  // ----- messages

  /** Every field is followed by a delimiter, the last one too. */
  function Encode(fields: seq<string>): string {
    if |fields| == 0 then "" else fields[0] + [DELIM] + Encode(fields[1..])
  }

  /** Reading one field after the other into buffers of the given sizes. */
  function Decode(text: string, sizes: seq<nat>): Option<(seq<string>, string)>
    decreases |sizes|
  {
    if |sizes| == 0 then Some(([], text))
    else match NextToken(text, [DELIM], sizes[0])
      case Got(token, rest) => Prepend([token], Decode(rest, sizes[1..]))
      case _ => None
  }

  function Prepend(got: seq<string>, r: Option<(seq<string>, string)>): Option<(seq<string>, string)> {
    match r
    case Some((fields, rest)) => Some((got + fields, rest))
    case None => None
  }

  predicate Fits(fields: seq<string>, sizes: seq<nat>) {
    |fields| == |sizes| && forall i | 0 <= i < |fields| :: Free(fields[i], DELIM) && |fields[i]| < sizes[i]
  }

  lemma {:induction false} DecodeEncode(fields: seq<string>, sizes: seq<nat>)
    requires Fits(fields, sizes)
    ensures Decode(Encode(fields), sizes) == Some((fields, ""))
  {
    if |fields| > 0 {
      hide NextToken;
      NextTokenAt(fields[0], DELIM, Encode(fields[1..]), sizes[0]);
      DecodeEncode(fields[1..], sizes[1..]);
      assert [fields[0]] + fields[1..] == fields;
    }
  }

  lemma {:induction false} DecodedFits(text: string, sizes: seq<nat>)
    ensures Decode(text, sizes).Some? ==> Fits(Decode(text, sizes).value.0, sizes)
    decreases |sizes|
  {
    if |sizes| > 0 && NextToken(text, [DELIM], sizes[0]).Got? {
      hide NextToken;
      NextTokenClean(text, DELIM, sizes[0]);
      DecodedFits(NextToken(text, [DELIM], sizes[0]).rest, sizes[1..]);
    }
  }

  /** A message comes back field by field, empty fields included, exactly when no field holds the delimiter
      or fills its buffer. */
  lemma RoundTripIff(fields: seq<string>, sizes: seq<nat>)
    requires |fields| == |sizes|
    ensures Decode(Encode(fields), sizes) == Some((fields, "")) <==> Fits(fields, sizes)
  {
    if Fits(fields, sizes) {
      DecodeEncode(fields, sizes);
    }
    DecodedFits(Encode(fields), sizes);
  }

  datatype CreateParam = CreateParam(name: string, groupId: string, groupName: string, hosts: string,
                                     scheduleType: int, scheduleTime: string, scheduleList: string)

  /** The buffers of `processMsg` (request id, command) and of `getCreateTaskParam`. */
  const HEADER_SIZES: seq<nat> := [64, 256]
  const CREATE_SIZES: seq<nat> := [64, 4096, 4096, 4096, MAX_COMM_MIN_SIZE, 32, 256]

  function ToParam(f: seq<string>): CreateParam
    requires |f| == 7
  {
    CreateParam(f[0], f[1], f[2], f[3], Atoi(f[4]), f[5], f[6])
  }

  lemma DecodedLength(text: string, sizes: seq<nat>)
    ensures Decode(text, sizes).Some? ==> |Decode(text, sizes).value.0| == |sizes|
  {
  }

  /** What the daemon makes of the fields of a create message. */
  function ParseCreate(text: string): Option<CreateParam> {
    DecodedLength(text, CREATE_SIZES);
    match Decode(text, CREATE_SIZES)
    case Some((f, _)) => if StartsWithDigit(f[4]) then Some(ToParam(f)) else None
    case None => None
  }

  /** Part way through reading `sizes`: the fields in `got` are read and `rest` is ahead. */
  ghost predicate Reading(text: string, sizes: seq<nat>, got: seq<string>, rest: string) {
    |got| <= |sizes| && Decode(text, sizes) == Prepend(got, Decode(rest, sizes[|got|..]))
  }

  lemma ReadingStep(text: string, sizes: seq<nat>, got: seq<string>, rest: string)
    requires Reading(text, sizes, got, rest) && |got| < |sizes|
    ensures var n := NextToken(rest, [DELIM], sizes[|got|]);
      if n.Got? then Reading(text, sizes, got + [n.token], n.rest) else Decode(text, sizes) == None
  {
    hide NextToken;
    var n := NextToken(rest, [DELIM], sizes[|got|]);
    assert sizes[|got|..][1..] == sizes[|got| + 1..];
    if n.Got? {
      var d := Decode(n.rest, sizes[|got| + 1..]);
      if d.Some? {
        assert got + ([n.token] + d.value.0) == got + [n.token] + d.value.0;
      }
    }
  }

  lemma ReadingPrefix(text: string, sizes: seq<nat>, got: seq<string>, rest: string)
    requires Reading(text, sizes, got, rest)
    ensures Decode(text, sizes).Some? ==> got <= Decode(text, sizes).value.0
  {
  }

  lemma ReadingAll(text: string, sizes: seq<nat>, got: seq<string>, rest: string)
    requires Reading(text, sizes, got, rest) && |got| == |sizes|
    ensures Decode(text, sizes) == Some((got, rest))
  {
    assert got + [] == got;
  }

  method NextField(reader: Reader, maxlen: nat, ghost text: string, ghost sizes: seq<nat>, ghost got: seq<string>)
    returns (ret: int)
    requires Reading(text, sizes, got, reader.saveptr) && |got| < |sizes| && maxlen == sizes[|got|]
    modifies reader
    ensures ret == 0 ==> Reading(text, sizes, got + [reader.buf], reader.saveptr)
    ensures ret != 0 ==> Decode(text, sizes) == None
  {
    hide Reading, Decode;
    ReadingStep(text, sizes, got, reader.saveptr);
    ret := reader.GetNextToken([DELIM], maxlen);
  }

  /** The token reading of `getCreateTaskParam`, which stops at the first field that does not fit. */
  method GetCreateTaskParam(reader: Reader) returns (ret: int, p: CreateParam)
    modifies reader
    ensures ret == 0 <==> ParseCreate(old(reader.saveptr)).Some?
    ensures ret == 0 ==> ParseCreate(old(reader.saveptr)) == Some(p)
  {
    hide Decode, Reading, NextToken, Atoi, StartsWithDigit, Encode;
    ghost var text, sizes, got := reader.saveptr, CREATE_SIZES, [];
    p := CreateParam("", "", "", "", -1, "", "");
    ReadingStart(text, sizes);
    ret := NextField(reader, 64, text, sizes, got);
    if ret != 0 { return; }
    p, got := p.(name := reader.buf), got + [reader.buf];
    ret := NextField(reader, 4096, text, sizes, got);
    if ret != 0 { return; }
    p, got := p.(groupId := reader.buf), got + [reader.buf];
    ret := NextField(reader, 4096, text, sizes, got);
    if ret != 0 { return; }
    p, got := p.(groupName := reader.buf), got + [reader.buf];
    ret := NextField(reader, 4096, text, sizes, got);
    if ret != 0 { return; }
    p, got := p.(hosts := reader.buf), got + [reader.buf];
    ReadingStep(text, sizes, got, reader.saveptr);
    ghost var here := reader.saveptr;
    var val;
    ret, val := reader.GetNextTokenInt([DELIM]);
    if ret != 0 {
      if NextToken(here, [DELIM], MAX_COMM_MIN_SIZE).Got? {
        ReadingPrefix(text, sizes, got + [reader.buf], reader.saveptr);
      }
      return;
    }
    p, got := p.(scheduleType := val), got + [reader.buf];
    ret := NextField(reader, 32, text, sizes, got);
    if ret != 0 { return; }
    p, got := p.(scheduleTime := reader.buf), got + [reader.buf];
    ret := NextField(reader, 256, text, sizes, got);
    if ret != 0 { return; }
    p, got := p.(scheduleList := reader.buf), got + [reader.buf];
    ReadingAll(text, sizes, got, reader.saveptr);
  }

  lemma ReadingStart(text: string, sizes: seq<nat>)
    ensures Reading(text, sizes, [], text)
  {
    assert sizes[0..] == sizes;
    var d := Decode(text, sizes);
    assert d.Some? ==> [] + d.value.0 == d.value.0;
  }

  /** The message of `php_create_task`. */
  function CreateMessage(uuid: string, f: seq<string>): string
    requires |f| == 7
  {
    Encode([uuid, "create_task"] + f)
  }

  lemma {:induction false} EncodeConcat(a: seq<string>, b: seq<string>)
    ensures Encode(a + b) == Encode(a) + Encode(b)
  {
    if |a| == 0 {
      assert a + b == b;
    } else {
      assert (a + b)[1..] == a[1..] + b;
      EncodeConcat(a[1..], b);
    }
  }

  lemma {:induction false} DecodeBehind(fields: seq<string>, sizes: seq<nat>, rest: string)
    requires Fits(fields, sizes)
    ensures Decode(Encode(fields) + rest, sizes) == Some((fields, rest))
  {
    if |fields| == 0 {
      assert Encode(fields) + rest == rest;
    } else {
      hide NextToken;
      var tail := Encode(fields[1..]) + rest;
      assert Encode(fields) + rest == fields[0] + [DELIM] + tail;
      NextTokenAt(fields[0], DELIM, tail, sizes[0]);
      DecodeBehind(fields[1..], sizes[1..], rest);
      assert [fields[0]] + fields[1..] == fields;
    }
  }

  /** From the web side to the daemon: `processMsg` gets the request id and the command, and `getCreateTaskParam` gets
      the seven fields that were sent, if they fit their buffers. A schedule type that does not start with a digit, such
      as an empty one, is refused. */
  lemma CreateMessageArrives(uuid: string, f: seq<string>)
    requires |f| == 7
    requires Free(uuid, DELIM) && |uuid| < HEADER_SIZES[0] && Fits(f, CREATE_SIZES)
    ensures Decode(CreateMessage(uuid, f), HEADER_SIZES) == Some(([uuid, "create_task"], Encode(f)))
    ensures ParseCreate(Encode(f)) ==
      if StartsWithDigit(f[4]) then Some(CreateParam(f[0], f[1], f[2], f[3], Atoi(f[4]), f[5], f[6])) else None
  {
    hide Decode;
    EncodeConcat([uuid, "create_task"], f);
    DecodeBehind([uuid, "create_task"], HEADER_SIZES, Encode(f));
    DecodeEncode(f, CREATE_SIZES);
  }

  // ----- service lists

  const SERVICES: seq<string> := ["ftp", "ssh", "telnet", "rtsp", "mysql", "rdp", "onvif", "http-get"]

  predicate AllServices(parts: seq<string>) {
    forall s | s in parts :: s in SERVICES
  }

  predicate ServiceParts(parts: seq<string>) {
    AllServices(parts) || (|parts| > 1 && parts[|parts| - 1] == "" && AllServices(parts[..|parts| - 1]))
  }

  /** A comma separated list of known services; one trailing comma is tolerated. */
  predicate ServiceList(text: string) {
    ServiceParts(Split(text, ','))
  }

  lemma AllServicesCons(a: string, q: seq<string>)
    ensures AllServices([a] + q) <==> a in SERVICES && AllServices(q)
  {
  }

  lemma ServicePartsCons(a: string, q: seq<string>)
    requires |q| > 0
    ensures ServiceParts([a] + q) <==> a in SERVICES && (q == [""] || ServiceParts(q))
  {
    hide AllServices;
    var p := [a] + q;
    AllServicesCons(a, q);
    AllServicesCons(a, q[..|q| - 1]);
    assert p[..|p| - 1] == [a] + q[..|q| - 1] && p[|p| - 1] == q[|q| - 1];
    if |q| == 1 {
      assert q == [q[0]] + [] && q[..0] == [];
      AllServicesCons(q[0], []);
      NoEmptyService();
    }
  }

  lemma NoEmptyService()
    ensures "" !in SERVICES && AllServices([])
    ensures forall s | s in SERVICES :: |s| < 64
  {
  }

  lemma ServiceListStep(text: string)
    requires text != ""
    ensures StrStr(text, ",", 0).None? ==> (ServiceList(text) <==> text in SERVICES)
    ensures StrStr(text, ",", 0).Some? ==>
      var i := StrStr(text, ",", 0).value;
      ServiceList(text) <==> text[..i] in SERVICES && (text[i + 1..] == "" || ServiceList(text[i + 1..]))
  {
    hide StrStr, ServiceParts;
    StrStrFree(text, ',');
    NoEmptyService();
    if StrStr(text, ",", 0).None? {
      CharIndexFree(text, ',');
      assert Split(text, ',') == [text];
      SingleService(text);
    } else {
      FoundCharPrefix(text, ',');
      var i := StrStr(text, ",", 0).value;
      var a, b := text[..i], text[i + 1..];
      CharIndexAt(a, ',', b);
      assert Split(text, ',') == [a] + Split(b, ',');
      JoinSplit(b, ',');
      assert b == "" ==> Split(b, ',') == [""];
      ServicePartsCons(a, Split(b, ','));
    }
  }

  lemma SingleService(s: string)
    ensures ServiceParts([s]) <==> s in SERVICES
  {
  }

  /** A list without a comma is one of the known services. */
  lemma OneService(text: string)
    requires Free(text, ',')
    ensures ServiceList(text) <==> text in {"ftp", "ssh", "telnet", "rtsp", "mysql", "rdp", "onvif", "http-get"}
  {
    SplitFree(text, ',');
    SingleService(text);
  }

  /** `chkServices`. */
  method ChkServices(text: string) returns (ret: int)
    ensures ret == 0 || ret == -1
    ensures ret == 0 <==> ServiceList(text)
  {
    hide ServiceList;
    var reader := new Reader(text);
    var hasService := false;
    NothingIsNoList();
    while true
      invariant fresh(reader)
      invariant ServiceList(text) <==> if reader.saveptr == "" then hasService else ServiceList(reader.saveptr)
      decreases |reader.saveptr|
    {
      if reader.saveptr != "" {
        ServiceListStep(reader.saveptr);
        LongIsNoService(reader.saveptr, 64);
      }
      ret := reader.GetNextToken(",", 64);
      if ret == 0 {
        ret := -1;
        for n := 0 to |SERVICES|
          invariant forall k | 0 <= k < n :: SERVICES[k] != reader.buf
        {
          if SERVICES[n] == reader.buf {
            hasService := true;
            ret := 0;
            break;
          }
        }
        if ret != 0 {
          return;
        }
      } else if ret == 1 {
        ret := if hasService then 0 else -1;
        return;
      } else {
        ret := -1;
        return;
      }
    }
  }

  lemma NothingIsNoList()
    ensures !ServiceList("")
  {
    assert Split("", ',') == [""];
    SingleService("");
    NoEmptyService();
  }

  lemma LongIsNoService(text: string, maxlen: nat)
    requires maxlen >= 64 && text != ""
    ensures NextToken(text, ",", maxlen).TooLong? ==>
      match StrStr(text, ",", 0)
      case None => text !in SERVICES
      case Some(i) => text[..i] !in SERVICES
  {
  }
}
