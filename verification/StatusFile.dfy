/** The status file of a task: the printer `writeTaskStatusFile`, the parser `parseTaskStatusRecord`, and which statuses
    survive the way through the file. */
module StatusFile {
  import opened Wrappers
  import opened Text
  import opened Numbers
  import opened TaskRecord

  /** `GVM_TASK_STATUS`. */
  datatype Status = Created | Ready | Waiting | Running | Finished | Stopped | Interrupted | Failed

  /** `GVM_TASK_CHK_TYPE`. */
  datatype ChkType = ChkTask | ChkReport | ChkResult | ChkDeleted

  /** What a status file keeps of a task. */
  datatype Saved = Saved(startTime: string, stopTime: string, status: Status, chkType: ChkType, progress: int,
                         curReport: string, lastReport: string)

  function StatusCode(s: Status): (n: nat)
    ensures n <= 7
  {
    match s
    case Created => 0
    case Ready => 1
    case Waiting => 2
    case Running => 3
    case Finished => 4
    case Stopped => 5
    case Interrupted => 6
    case Failed => 7
  }

  /** The codes below `GVM_TASK_ERROR`. */
  function StatusOf(n: int): (s: Option<Status>)
    ensures s.Some? <==> 0 <= n < 7
    ensures s.Some? ==> StatusCode(s.value) == n
  {
    match n
    case 0 => Some(Created)
    case 1 => Some(Ready)
    case 2 => Some(Waiting)
    case 3 => Some(Running)
    case 4 => Some(Finished)
    case 5 => Some(Stopped)
    case 6 => Some(Interrupted)
    case _ => None
  }

  function ChkCode(t: ChkType): (n: nat)
    ensures n < 4
  {
    match t
    case ChkTask => 0
    case ChkReport => 1
    case ChkResult => 2
    case ChkDeleted => 3
  }

  function ChkOf(n: int): (t: Option<ChkType>)
    ensures t.Some? <==> 0 <= n < 4
    ensures t.Some? ==> ChkCode(t.value) == n
  {
    match n
    case 0 => Some(ChkTask)
    case 1 => Some(ChkReport)
    case 2 => Some(ChkResult)
    case 3 => Some(ChkDeleted)
    case _ => None
  }

  // ----- printing

  /** `%d`. */
  function Decimal(n: int): string {
    if n < 0 then "-" + Itoa(-n) else Itoa(n)
  }

  /** The fields of `TASK_STATUS_FILE_FORMAT` in front of the report ids. */
  function HeadFields(id: string, v: Saved): seq<Field> {
    [Field("task_id", id), Field("start_time", v.startTime), Field("stop_time", v.stopTime),
     Field("status", Itoa(StatusCode(v.status))), Field("chk_type", Itoa(ChkCode(v.chkType))),
     Field("progress", Decimal(v.progress))]
  }

  function ReportFields(v: Saved): seq<Field> {
    [Field("report_id", v.curReport), Field("last_report_id", v.lastReport), Field("results", "")]
  }

  function StatusFields(id: string, v: Saved): seq<Field> {
    HeadFields(id, v) + ReportFields(v)
  }

  function EncodeStatus(id: string, v: Saved): string {
    BEGIN_MARK + Body(StatusFields(id, v)) + END_MARK
  }

  // ----- parsing

  /** `CUSTOM_DIGIT_NUM_PATTERN`. */
  predicate IsSmallNumber(s: string) {
    IsDigits(s, 3)
  }

  /** `getPatternKeyInt`. */
  function LookupInt(text: string, key: string): Option<int> {
    match Lookup(text, key, IsSmallNumber, MAX_INT_SIZE)
    case Some(v) => Some(Atoi(v))
    case None => None
  }

  /** The fields between the two marks, as far as they belong to the task `id`. */
  function ParseFields(text: string, id: string): Option<Saved> {
    var uuid :- Lookup(text, "task_id", IsUuid, MAX_UUID_SIZE);
    if uuid != id then None
    else
      var startTime :- Lookup(text, "start_time", IsTimestampOrEmpty, MAX_TIMESTAMP_SIZE);
      var stopTime :- Lookup(text, "stop_time", IsTimestampOrEmpty, MAX_TIMESTAMP_SIZE);
      var n :- LookupInt(text, "status");
      var status :- StatusOf(n);
      var m :- LookupInt(text, "chk_type");
      var chkType :- ChkOf(m);
      var progress :- LookupInt(text, "progress");
      if !(0 <= progress <= 100) then None
      else
        var curReport :- Lookup(text, "report_id", IsUuid, MAX_UUID_SIZE);
        var lastReport :- Lookup(text, "last_report_id", IsUuidOrEmpty, MAX_UUID_SIZE);
        Some(Saved(startTime, stopTime, status, chkType, progress, curReport, lastReport))
  }

  /** What stands between the two marks. */
  function Marked(text: string): Option<string> {
    match StrStr(text, BEGIN_MARK, 0)
    case None => None
    case Some(b) =>
      var start := text[b + |BEGIN_MARK|..];
      match StrStr(start, END_MARK, 0)
      case None => None
      case Some(e) => Some(start[..e])
  }

  /** `parseTaskStatusRecord`: a failure, or nothing to take over where a mark is missing, or a status. */
  function ParseStatus(text: string, id: string): Option<Option<Saved>> {
    match Marked(text)
    case None => Some(None)
    case Some(body) =>
      match ParseFields(body, id)
      case Some(v) => Some(Some(v))
      case None => None
  }

  /** What the parser accepts. */
  predicate Readable(v: Saved) {
    && IsTimestampOrEmpty(v.startTime) && IsTimestampOrEmpty(v.stopTime)
    && v.status != Failed && 0 <= v.progress <= 100
    && IsUuid(v.curReport) && IsUuidOrEmpty(v.lastReport)
  }

  lemma FieldsReadable(text: string, id: string)
    ensures ParseFields(text, id).Some? ==> IsUuid(id) && Readable(ParseFields(text, id).value)
  {
    hide Lookup, LookupInt, IsUuid, IsTimestamp;
    LookupSound(text, "task_id", IsUuid, MAX_UUID_SIZE);
    LookupSound(text, "start_time", IsTimestampOrEmpty, MAX_TIMESTAMP_SIZE);
    LookupSound(text, "stop_time", IsTimestampOrEmpty, MAX_TIMESTAMP_SIZE);
    LookupSound(text, "report_id", IsUuid, MAX_UUID_SIZE);
    LookupSound(text, "last_report_id", IsUuidOrEmpty, MAX_UUID_SIZE);
  }

  // ----- numbers

  lemma {:induction false} ItoaDigits(n: nat)
    ensures |Itoa(n)| > 0 && forall i | 0 <= i < |Itoa(n)| :: IsDigit(Itoa(n)[i])
    ensures |Itoa(n)| <= 3 <==> n < 1000
    ensures |Itoa(n)| <= 2 <==> n < 100
    ensures |Itoa(n)| <= 1 <==> n < 10
    ensures DecValue(Itoa(n)) == n
  {
    if n >= 10 {
      ItoaDigits(n / 10);
      var s, d := Itoa(n / 10), Digit(n % 10);
      assert Itoa(n)[..|Itoa(n)| - 1] == s && IsDigit(d);
    } else {
      assert Itoa(n)[..0] == "";
    }
  }

  lemma AtoiItoa(n: nat)
    requires n < 1000
    ensures Atoi(Itoa(n)) == n && IsSmallNumber(Itoa(n)) && |Itoa(n)| < MAX_INT_SIZE && Free(Itoa(n), '\n')
  {
    ItoaDigits(n);
    var s := Itoa(n);
    hide Itoa, DecValue;
    SpaceCountUnique(s, 0);
    DigitCountUnique(s, |s|);
    assert s[0..] == s && s[..|s|] == s;
  }

  /** Only small numbers are printed as small numbers. */
  lemma DecimalSmall(n: int)
    ensures IsSmallNumber(Decimal(n)) <==> 0 <= n < 1000
    ensures Free(Decimal(n), '\n')
  {
    ItoaDigits(if n < 0 then -n else n);
    hide Itoa;
    if n < 0 {
      assert Decimal(n)[0] == '-';
    }
  }

  // ----- keys and lines

  const STATUS_KEYS: seq<string> := [
    "task_id", "start_time", "stop_time", "status", "chk_type", "progress", "report_id", "last_report_id", "results"]

  lemma StatusKeyFree(i: nat)
    requires i < |STATUS_KEYS|
    ensures STATUS_KEYS[i] != "" && Free(STATUS_KEYS[i], '=') && Free(STATUS_KEYS[i], '\n') && STATUS_KEYS[i][0] != '='
  {
  }

  lemma StatusKeysDiffer(i: nat, j: nat)
    requires i < j < |STATUS_KEYS|
    ensures STATUS_KEYS[i] != STATUS_KEYS[j]
  {
  }

  lemma StatusWellKeyed(id: string, v: Saved)
    ensures |StatusFields(id, v)| == |STATUS_KEYS| && |HeadFields(id, v)| == 6
    ensures forall i | 0 <= i < |STATUS_KEYS| :: StatusFields(id, v)[i].key == STATUS_KEYS[i]
    ensures WellKeyed(StatusFields(id, v)) && WellKeyed(HeadFields(id, v))
    ensures forall i | 0 <= i < |STATUS_KEYS| :: STATUS_KEYS[i][0] != '='
  {
    forall i | 0 <= i < |STATUS_KEYS|
      ensures Free(STATUS_KEYS[i], '=') && Free(STATUS_KEYS[i], '\n') && STATUS_KEYS[i] != "" && STATUS_KEYS[i][0] != '='
    {
      StatusKeyFree(i);
    }
    forall i, j | 0 <= i < j < |STATUS_KEYS| ensures STATUS_KEYS[i] != STATUS_KEYS[j] {
      StatusKeysDiffer(i, j);
    }
    hide Itoa, Decimal;
    assert HeadFields(id, v) == StatusFields(id, v)[..6];
  }

  lemma {:induction false} BodyConcat(a: seq<Field>, b: seq<Field>)
    ensures Body(a + b) == Body(a) + Body(b)
  {
    if |a| == 0 {
      assert a + b == b;
    } else {
      assert (a + b)[1..] == a[1..] + b;
      BodyConcat(a[1..], b);
    }
  }

  function LineSeq(fs: seq<Field>): seq<string> {
    if |fs| == 0 then [] else [Line(fs[0])] + LineSeq(fs[1..])
  }

  /** Lines that are printed in front of any text are lines of the whole. */
  lemma {:induction false} LinesInFront(fs: seq<Field>, rest: string)
    requires WellKeyed(fs) && OneLine(fs)
    ensures Split(Body(fs) + rest, '\n') == LineSeq(fs) + Split(rest, '\n')
  {
    hide Split, Line;
    if |fs| == 0 {
      assert Body(fs) + rest == rest;
    } else {
      LineHasNoNewline(fs[0]);
      var more := Body(fs[1..]) + rest;
      assert Body(fs) + rest == Line(fs[0]) + ['\n'] + more;
      SplitCons(Line(fs[0]), '\n', more);
      LinesInFront(fs[1..], rest);
    }
  }

  lemma {:induction false} MatchInFront(fs: seq<Field>, more: seq<string>, i: nat, pattern: string -> bool)
    requires WellKeyed(fs) && i < |fs| && pattern(fs[i].val)
    ensures FirstMatch(LineSeq(fs) + more, fs[i].key, pattern) == Some(fs[i].val)
  {
    ValueOfLine(fs[0], fs[i].key);
    assert (LineSeq(fs) + more)[1..] == LineSeq(fs[1..]) + more;
    if i > 0 {
      MatchInFront(fs[1..], more, i - 1, pattern);
    }
  }

  /** A value that matches is found, whatever follows the printed lines. */
  lemma LookupInFront(fs: seq<Field>, rest: string, i: nat, pattern: string -> bool, maxlen: nat)
    requires WellKeyed(fs) && OneLine(fs) && i < |fs| && pattern(fs[i].val) && |fs[i].val| < maxlen
    ensures Lookup(Body(fs) + rest, fs[i].key, pattern, maxlen) == Some(fs[i].val)
  {
    LinesInFront(fs, rest);
    MatchInFront(fs, Split(rest, '\n'), i, pattern);
  }

  // ----- through the file and back

  /** The printed fields lie between the marks that are found, up to an end mark within the report ids. */
  lemma StatusMarks(id: string, v: Saved)
    requires OneLine(HeadFields(id, v))
    ensures var body := Body(StatusFields(id, v));
      var text, start := EncodeStatus(id, v), body + END_MARK;
      && StrStr(text, BEGIN_MARK, 0) == Some(0) && text[|BEGIN_MARK|..] == start
      && StrStr(start, END_MARK, 0).Some?
      && |Body(HeadFields(id, v))| <= StrStr(start, END_MARK, 0).value <= |body|
  {
    var body := Body(StatusFields(id, v));
    assert EncodeStatus(id, v) == "" + (BEGIN_MARK + (body + END_MARK));
    hide *;
    MarkShape();
    FoundAfter("", BEGIN_MARK, body + END_MARK);
    EndMarkThere(body);
    EndMarkBehindHead(id, v);
  }

  lemma ParsedBetween(text: string, start: string, e: nat, id: string)
    requires StrStr(text, BEGIN_MARK, 0) == Some(0) && text[|BEGIN_MARK|..] == start
    requires StrStr(start, END_MARK, 0) == Some(e)
    ensures e <= |start|
    ensures var v := ParseFields(start[..e], id);
      ParseStatus(text, id) == if v.Some? then Some(v) else None
  {
    hide StrStr, ParseFields;
  }

  lemma EndMarkThere(body: string)
    ensures StrStr(body + END_MARK, END_MARK, 0).Some? && StrStr(body + END_MARK, END_MARK, 0).value <= |body|
  {
    hide *;
    FoundBehind(body, END_MARK);
  }

  lemma FoundBehind(body: string, m: string)
    ensures StrStr(body + m, m, 0).Some? && StrStr(body + m, m, 0).value <= |body|
  {
    hide StrStr;
    assert (body + m)[|body|..|body| + |m|] == m;
    assert Occurs(body + m, m, |body|);
  }

  lemma EndMarkBehindHead(id: string, v: Saved)
    requires OneLine(HeadFields(id, v))
    ensures forall j | 0 <= j < |Body(HeadFields(id, v))| :: !Occurs(Body(StatusFields(id, v)) + END_MARK, END_MARK, j)
    ensures |Body(HeadFields(id, v))| <= |Body(StatusFields(id, v))|
  {
    var head, reports := HeadFields(id, v), ReportFields(v);
    StatusWellKeyed(id, v);
    BodyConcat(head, reports);
    ReportsStart(v);
    forall i | 0 <= i < |head| ensures head[i].key[0] != '=' {
      assert head[i] == StatusFields(id, v)[i];
    }
    hide HeadFields, ReportFields, StatusFields, Body, WellKeyed, OneLine, Occurs;
    assert Body(head + reports) + END_MARK == Body(head) + (Body(reports) + END_MARK);
    NoMarkWithin(head, Body(reports) + END_MARK);
    assert StatusFields(id, v) == head + reports by {
      SplitFields(id, v);
    }
  }

  lemma SplitFields(id: string, v: Saved)
    ensures StatusFields(id, v) == HeadFields(id, v) + ReportFields(v)
  {
  }

  lemma ReportsStart(v: Saved)
    ensures |Body(ReportFields(v))| > 1 && Body(ReportFields(v))[0] == 'r'
  {
  }

  /** Fields of one line each are found exactly: the status comes back, or reading it fails. */
  lemma StatusExact(id: string, v: Saved)
    requires IsUuid(id) && OneLine(StatusFields(id, v))
    ensures ParseStatus(EncodeStatus(id, v), id) == if Readable(v) then Some(Some(v)) else None
  {
    var fs := StatusFields(id, v);
    StatusWellKeyed(id, v);
    forall i | 0 <= i < |fs| ensures fs[i].key[0] != '=' {
    }
    hide *;
    HeadOneLine(id, v);
    StatusMarks(id, v);
    WholeBody(fs);
    ParsedBetween(EncodeStatus(id, v), Body(fs) + END_MARK, |Body(fs)|, id);
    StatusFound(id, v);
  }

  lemma HeadOneLine(id: string, v: Saved)
    requires OneLine(StatusFields(id, v))
    ensures OneLine(HeadFields(id, v))
  {
    forall i | 0 <= i < 6 ensures HeadFields(id, v)[i] == StatusFields(id, v)[i] {
    }
  }

  lemma WholeBody(fs: seq<Field>)
    requires WellKeyed(fs) && OneLine(fs) && forall i | 0 <= i < |fs| :: fs[i].key[0] != '='
    ensures StrStr(Body(fs) + END_MARK, END_MARK, 0) == Some(|Body(fs)|)
    ensures (Body(fs) + END_MARK)[..|Body(fs)|] == Body(fs)
  {
    MarkShape();
    hide Body, WellKeyed, OneLine, StrStr;
    assert Body(fs) + END_MARK == Body(fs) + (END_MARK + "");
    NoEndMarkIn(fs);
    FoundAfter(Body(fs), END_MARK, "");
  }

  /** The printed end mark itself is the first one behind one-line fields. */
  lemma NoEndMarkIn(fs: seq<Field>)
    requires WellKeyed(fs) && OneLine(fs) && forall i | 0 <= i < |fs| :: fs[i].key[0] != '='
    ensures forall j | 0 <= j < |Body(fs)| :: !Occurs(Body(fs) + END_MARK, END_MARK, j)
  {
    MarkShape();
    hide Body, WellKeyed, OneLine;
    NoMarkWithin(fs, END_MARK);
  }

  lemma IntFound(text: string, key: string, n: nat)
    requires n < 1000 && Lookup(text, key, IsSmallNumber, MAX_INT_SIZE) == Some(Itoa(n))
    ensures LookupInt(text, key) == Some(n)
  {
    hide *;
    AtoiItoa(n);
    LookupIntIs(text, key);
  }

  lemma LookupIntIs(text: string, key: string)
    ensures var v := Lookup(text, key, IsSmallNumber, MAX_INT_SIZE);
      LookupInt(text, key) == if v.Some? then Some(Atoi(v.value)) else None
  {
    hide Lookup, Atoi;
  }

  /** The texts of a status under their keys. */
  lemma TextsFound(id: string, v: Saved)
    requires OneLine(StatusFields(id, v))
    ensures var text := Body(StatusFields(id, v));
      && Lookup(text, "task_id", IsUuid, MAX_UUID_SIZE) == (if IsUuid(id) then Some(id) else None)
      && Lookup(text, "start_time", IsTimestampOrEmpty, MAX_TIMESTAMP_SIZE)
         == (if IsTimestampOrEmpty(v.startTime) then Some(v.startTime) else None)
      && Lookup(text, "stop_time", IsTimestampOrEmpty, MAX_TIMESTAMP_SIZE)
         == (if IsTimestampOrEmpty(v.stopTime) then Some(v.stopTime) else None)
      && Lookup(text, "report_id", IsUuid, MAX_UUID_SIZE)
         == (if IsUuid(v.curReport) then Some(v.curReport) else None)
      && Lookup(text, "last_report_id", IsUuidOrEmpty, MAX_UUID_SIZE)
         == (if IsUuidOrEmpty(v.lastReport) then Some(v.lastReport) else None)
  {
    ShortTexts(v.startTime);
    ShortTexts(v.stopTime);
    ShortTexts(v.curReport);
    ShortTexts(v.lastReport);
    ShortTexts(id);
    FieldTexts(id, v);
    hide Body, Itoa, IsUuid, IsUuidOrEmpty, IsTimestampOrEmpty, Lookup, OneLine, StatusFields;
    StatusLookup(id, v, 0, IsUuid, MAX_UUID_SIZE);
    StatusLookup(id, v, 1, IsTimestampOrEmpty, MAX_TIMESTAMP_SIZE);
    StatusLookup(id, v, 2, IsTimestampOrEmpty, MAX_TIMESTAMP_SIZE);
    StatusLookup(id, v, 6, IsUuid, MAX_UUID_SIZE);
    StatusLookup(id, v, 7, IsUuidOrEmpty, MAX_UUID_SIZE);
  }

  lemma FieldTexts(id: string, v: Saved)
    ensures var fs := StatusFields(id, v);
      && |fs| == 9 && fs[0].val == id && fs[1].val == v.startTime && fs[2].val == v.stopTime
      && fs[3].val == Itoa(StatusCode(v.status)) && fs[4].val == Itoa(ChkCode(v.chkType))
      && fs[5].val == Decimal(v.progress) && fs[6].val == v.curReport && fs[7].val == v.lastReport
    ensures var fs := HeadFields(id, v);
      && |fs| == 6 && fs[3] == Field("status", Itoa(StatusCode(v.status)))
      && fs[4] == Field("chk_type", Itoa(ChkCode(v.chkType))) && fs[5] == Field("progress", Decimal(v.progress))
  {
    hide Itoa, Decimal;
  }

  /** The order in which the header declares them. */
  const STATUSES: seq<Status> := [Created, Ready, Waiting, Running, Finished, Stopped, Interrupted, Failed]
  const CHK_TYPES: seq<ChkType> := [ChkTask, ChkReport, ChkResult, ChkDeleted]

  lemma CodesInOrder(status: Status, chkType: ChkType)
    ensures STATUSES[StatusCode(status)] == status && CHK_TYPES[ChkCode(chkType)] == chkType
  {
  }

  /** The numbers of a status under their keys, counted from 0; a progress of more than three digits or below zero is not
      found. */
  lemma NumbersFound(id: string, v: Saved)
    requires OneLine(StatusFields(id, v))
    ensures var text := Body(StatusFields(id, v));
      && LookupInt(text, "status") == Some(StatusCode(v.status)) && STATUSES[StatusCode(v.status)] == v.status
      && LookupInt(text, "chk_type") == Some(ChkCode(v.chkType)) && CHK_TYPES[ChkCode(v.chkType)] == v.chkType
      && LookupInt(text, "progress") == if 0 <= v.progress < 1000 then Some(v.progress) else None
  {
    CodesInOrder(v.status, v.chkType);
    var text := Body(StatusFields(id, v));
    AtoiItoa(StatusCode(v.status));
    AtoiItoa(ChkCode(v.chkType));
    DecimalSmall(v.progress);
    FieldTexts(id, v);
    hide Body, Itoa, IsSmallNumber, Lookup, LookupInt, OneLine, StatusFields, Atoi, StatusCode, ChkCode;
    StatusLookup(id, v, 3, IsSmallNumber, MAX_INT_SIZE);
    StatusLookup(id, v, 4, IsSmallNumber, MAX_INT_SIZE);
    StatusLookup(id, v, 5, IsSmallNumber, MAX_INT_SIZE);
    IntFound(text, "status", StatusCode(v.status));
    IntFound(text, "chk_type", ChkCode(v.chkType));
    if 0 <= v.progress < 1000 {
      AtoiItoa(v.progress);
      IntFound(text, "progress", v.progress);
    } else {
      LookupIntIs(text, "progress");
    }
  }

  lemma CodesBack(v: Saved)
    ensures StatusOf(StatusCode(v.status)) == if v.status != Failed then Some(v.status) else None
    ensures ChkOf(ChkCode(v.chkType)) == Some(v.chkType)
  {
  }

  lemma StatusFound(id: string, v: Saved)
    requires IsUuid(id) && OneLine(StatusFields(id, v))
    ensures ParseFields(Body(StatusFields(id, v)), id) == if Readable(v) then Some(v) else None
  {
    CodesBack(v);
    hide Body, StatusFields, IsUuid, IsUuidOrEmpty, IsTimestampOrEmpty, Lookup, LookupInt, OneLine, StatusOf, ChkOf,
         StatusCode, ChkCode;
    TextsFound(id, v);
    NumbersFound(id, v);
  }

  lemma ShortTexts(s: string)
    ensures IsUuid(s) || IsUuidOrEmpty(s) ==> |s| < MAX_UUID_SIZE
    ensures IsTimestampOrEmpty(s) ==> |s| < MAX_TIMESTAMP_SIZE
  {
  }

  lemma StatusLookup(id: string, v: Saved, i: nat, pattern: string -> bool, maxlen: nat)
    requires i < |STATUS_KEYS| && OneLine(StatusFields(id, v))
    ensures |StatusFields(id, v)| == |STATUS_KEYS|
    ensures var val := StatusFields(id, v)[i].val;
      Lookup(Body(StatusFields(id, v)), STATUS_KEYS[i], pattern, maxlen)
      == if pattern(val) && |val| < maxlen then Some(val) else None
  {
    StatusWellKeyed(id, v);
    hide *;
    LookupAt(StatusFields(id, v), i, pattern, maxlen);
  }

  /** The output of `strftime` for the time formats in use. */
  predicate IsTimeText(s: string) {
    forall i | 0 <= i < |s| :: IsDigit(s[i]) || s[i] == '-' || s[i] == ':' || s[i] == ' '
  }

  lemma IdsOneLine(id: string, v: Saved)
    requires IsUuid(id) && IsTimeText(v.startTime) && IsTimeText(v.stopTime)
    ensures OneLine(HeadFields(id, v))
    ensures Free(v.curReport, '\n') && Free(v.lastReport, '\n') ==> OneLine(StatusFields(id, v))
  {
    PatternsOneLine(id);
    AtoiItoa(StatusCode(v.status));
    AtoiItoa(ChkCode(v.chkType));
    DecimalSmall(v.progress);
    hide Itoa, Decimal, IsUuid;
  }

  /** Printing a status and reading it back gives the same status if and only if it is one that the parser accepts. */
  lemma StatusRoundTripIff(id: string, v: Saved)
    ensures ParseStatus(EncodeStatus(id, v), id) == Some(Some(v)) <==> IsUuid(id) && Readable(v)
  {
    hide ParseFields, Readable, IsUuid, EncodeStatus;
    var text := EncodeStatus(id, v);
    if ParseStatus(text, id) == Some(Some(v)) {
      FieldsReadable(Marked(text).value, id);
    }
    if IsUuid(id) && Readable(v) {
      ReadableTexts(v);
      IdsOneLine(id, v);
      StatusExact(id, v);
    }
  }

  lemma ReadableTexts(v: Saved)
    requires Readable(v)
    ensures IsTimeText(v.startTime) && IsTimeText(v.stopTime) && Free(v.curReport, '\n') && Free(v.lastReport, '\n')
  {
    PatternsOneLine(v.curReport);
    PatternsOneLine(v.lastReport);
  }

  /** Without a line break in the report ids, whatever the server sent as ids, reading a status that was written fails
      exactly when the parser does not accept it. */
  lemma UnreadableFails(id: string, v: Saved)
    requires IsUuid(id) && IsTimeText(v.startTime) && IsTimeText(v.stopTime)
    requires Free(v.curReport, '\n') && Free(v.lastReport, '\n')
    ensures ParseStatus(EncodeStatus(id, v), id).None? <==> !Readable(v)
  {
    hide ParseStatus, EncodeStatus, Readable, IsUuid;
    IdsOneLine(id, v);
    StatusExact(id, v);
  }

  /** Whatever the report ids are, a status that was written is either refused or read with its own status, phase and
      progress, and with report ids that match the id pattern. */
  lemma WrittenKeepsPhase(id: string, v: Saved)
    requires IsUuid(id) && IsTimeText(v.startTime) && IsTimeText(v.stopTime)
    requires v.status != Failed && 0 <= v.progress <= 100
    ensures match ParseStatus(EncodeStatus(id, v), id)
            case Some(Some(w)) => Readable(w) && w.status == v.status && w.chkType == v.chkType && w.progress == v.progress
            case Some(None) => false
            case None => true
  {
    hide *;
    var head := HeadFields(id, v);
    IdsOneLine(id, v);
    StatusMarks(id, v);
    SplitFields(id, v);
    BodyConcat(head, ReportFields(v));
    var start := Body(StatusFields(id, v)) + END_MARK;
    var e := StrStr(start, END_MARK, 0).value;
    ParsedBetween(EncodeStatus(id, v), start, e, id);
    var rest := start[|Body(head)|..e];
    assert start[..e] == Body(head) + rest;
    FieldsReadable(start[..e], id);
    HeadFound(id, v, rest);
  }

  lemma HeadFound(id: string, v: Saved, rest: string)
    requires OneLine(HeadFields(id, v)) && v.status != Failed && 0 <= v.progress <= 100
    ensures var w := ParseFields(Body(HeadFields(id, v)) + rest, id);
      w.Some? ==> w.value.status == v.status && w.value.chkType == v.chkType && w.value.progress == v.progress
  {
    CodesBack(v);
    hide Body, HeadFields, IsUuid, IsUuidOrEmpty, IsTimestampOrEmpty, Lookup, LookupInt, OneLine, StatusOf, ChkOf,
         StatusCode, ChkCode;
    HeadNumbers(id, v, rest);
  }

  lemma HeadNumbers(id: string, v: Saved, rest: string)
    requires OneLine(HeadFields(id, v)) && 0 <= v.progress <= 100
    ensures var text := Body(HeadFields(id, v)) + rest;
      && LookupInt(text, "status") == Some(StatusCode(v.status))
      && LookupInt(text, "chk_type") == Some(ChkCode(v.chkType))
      && LookupInt(text, "progress") == Some(v.progress)
  {
    var fs := HeadFields(id, v);
    var text := Body(fs) + rest;
    StatusWellKeyed(id, v);
    FieldTexts(id, v);
    AtoiItoa(StatusCode(v.status));
    AtoiItoa(ChkCode(v.chkType));
    AtoiItoa(v.progress);
    hide Body, Itoa, Atoi, IsSmallNumber, Lookup, LookupInt, OneLine, WellKeyed, HeadFields, StatusFields, StatusCode,
         ChkCode;
    LookupInFront(fs, rest, 3, IsSmallNumber, MAX_INT_SIZE);
    LookupInFront(fs, rest, 4, IsSmallNumber, MAX_INT_SIZE);
    LookupInFront(fs, rest, 5, IsSmallNumber, MAX_INT_SIZE);
    IntFound(text, "status", StatusCode(v.status));
    IntFound(text, "chk_type", ChkCode(v.chkType));
    IntFound(text, "progress", v.progress);
  }
}
