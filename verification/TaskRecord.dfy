/** The task file of `openvas_business.c`: the printer `writeTaskRecord`, the parser `parseTaskRecord`, and what
    one makes of the output of the other. */
module TaskRecord {
  import opened Wrappers
  import opened Text

  /** The persisted fields of a task. `parseTaskRecord` copies the target name and the modify time from the task
      name and the create time, so they are left out here. */
  datatype Record = Record(
    taskId: string, taskName: string, groupId: string, groupName: string, configId: string, configCreated: nat,
    targetId: string, portlistId: string, hosts: string,
    scheduleType: nat, scheduleId: string, scheduleCreated: nat, scheduleTime: string, scheduleList: string,
    createTime: string)

  const BEGIN_MARK := "\n==========begin========\n"
  const END_MARK := "\n==========end==========\n"

  const MAX_NAME_SIZE := 64
  const MAX_UUID_SIZE := 64
  const MAX_LIST_SIZE := 4096
  const MAX_TIMESTAMP_SIZE := 32
  const MAX_SCHEDULE_LIST_SIZE := 256
  const MAX_INT_SIZE := 32

  // ----- the patterns of base_openvas.h, matched within one line

  predicate IsHex(c: char) {
    '0' <= c <= '9' || 'a' <= c <= 'f' || 'A' <= c <= 'F'
  }

  /** `UUID_REG_PATTERN`. */
  predicate IsUuid(s: string) {
    |s| == 36 && forall i | 0 <= i < 36 :: if i == 8 || i == 13 || i == 18 || i == 23 then s[i] == '-' else IsHex(s[i])
  }

  /** `GVM_NAME_PATTERN`. */
  predicate IsName(s: string) {
    1 <= |s| <= 128 && forall c | c in s :: c !in "\\/#|'~`!^$,:;?\"&*%<>" && !IsSpace(c)
  }

  /** `CUSTOM_COMM_PATTERN`. */
  predicate IsComm(s: string) {
    forall c | c in s :: c !in "\\'`\"\n"
  }

  /** `CUSTOM_ON_OFF_PATTERN`. */
  predicate IsOnOff(s: string) {
    s == "0" || s == "1"
  }

  /** `CUSTOM_SCHEDULE_TYPE_PATTERN`. */
  predicate IsOneDigit(s: string) {
    |s| == 1 && IsDigit(s[0])
  }

  /** `CUSTOM_TIME_STAMP_PATTERN`. */
  predicate IsTimestamp(s: string) {
    |s| == 19 && forall i | 0 <= i < 19 ::
      if i == 4 || i == 7 then s[i] == '-' else if i == 10 then s[i] == ' '
      else if i == 13 || i == 16 then s[i] == ':' else IsDigit(s[i])
  }

  predicate IsUuidOrEmpty(s: string) {
    s == "" || IsUuid(s)
  }

  predicate IsTimestampOrEmpty(s: string) {
    s == "" || IsTimestamp(s)
  }

  /** `CUSTOM_IP_NUM`: 0 to 255 without leading zeros. */
  predicate IsIpNum(s: string) {
    && 1 <= |s| <= 3
    && (forall i | 0 <= i < |s| :: IsDigit(s[i]))
    && (|s| > 1 ==> s[0] != '0')
    && (|s| == 3 ==> s[0] == '1' || (s[0] == '2' && (s[1] < '5' || (s[1] == '5' && s[2] <= '5'))))
  }

  /** `CUSTOM_IP_PATTERN`. */
  predicate IsIp(s: string) {
    var parts := Split(s, '.');
    |parts| == 4 && forall p | p in parts :: IsIpNum(p)
  }

  predicate IsDigits(s: string, max: nat) {
    1 <= |s| <= max && forall i | 0 <= i < |s| :: IsDigit(s[i])
  }

  /** `CUSTOM_IP_RANGE_PATTERN`. */
  predicate IsIpRange(s: string) {
    var slash, dash := CharIndex(s, '/'), CharIndex(s, '-');
    || IsIp(s)
    || (slash < |s| && IsIp(s[..slash]) && IsDigits(s[slash + 1..], 2))
    || (dash < |s| && IsIp(s[..dash]) && (IsIp(s[dash + 1..]) || IsDigits(s[dash + 1..], 3)))
  }

  /** `chkHosts`. */
  predicate IsHostList(s: string) {
    forall p | p in Split(s, ',') :: IsIpRange(p)
  }

  predicate IsWeekDay(s: string) {
    s in ["MO", "TU", "WE", "TH", "FR", "SA", "SU"]
  }

  predicate IsMonthDay(s: string) {
    || (|s| == 1 && '1' <= s[0] <= '9')
    || (|s| == 2 && ('1' <= s[0] <= '2') && IsDigit(s[1]))
    || s in ["30", "31", "-1"]
  }

  /** `chkScheduleParam`; a type beyond the known ones needs nothing but a time stamp. */
  predicate ScheduleOk(kind: int, time: string, list: string) {
    if kind == 0 then time == "" && list == ""
    else
      && IsTimestamp(time)
      && (kind == 1 || kind == 2 ==> list == "")
      && (kind == 3 ==> (forall d | d in Split(list, ',') :: IsWeekDay(d)))
      && (kind == 4 ==> (forall d | d in Split(list, ',') :: IsMonthDay(d)))
  }

  // ----- printing

  function Digit(n: nat): char
    requires n < 10
  {
    '0' + n as char
  }

  /** `%d` of a non-negative number. */
  function Itoa(n: nat): string {
    if n < 10 then [Digit(n)] else Itoa(n / 10) + [Digit(n % 10)]
  }

  datatype Field = Field(key: string, val: string)

  function Line(f: Field): string {
    f.key + "=\"" + f.val + "\""
  }

  function Body(fs: seq<Field>): string {
    if |fs| == 0 then "" else Line(fs[0]) + "\n" + Body(fs[1..])
  }

  /** `TASK_FILE_FORMAT` between the two marks. */
  function Fields(r: Record): seq<Field> {
    [Field("task_id", r.taskId), Field("task_name", r.taskName), Field("group_id", r.groupId),
     Field("group_name", r.groupName), Field("config_id", r.configId),
     Field("config_created", Itoa(r.configCreated)), Field("target_id", r.targetId),
     Field("portlist_id", r.portlistId), Field("hosts", r.hosts), Field("schedule_type", Itoa(r.scheduleType)),
     Field("schedule_id", r.scheduleId), Field("schedule_created", Itoa(r.scheduleCreated)),
     Field("schedule_time", r.scheduleTime), Field("schedule_list", r.scheduleList),
     Field("create_time", r.createTime)]
  }

  function Encode(r: Record): string {
    BEGIN_MARK + Body(Fields(r)) + END_MARK
  }

  function EncodeAll(rs: seq<Record>): string {
    if |rs| == 0 then "" else Encode(rs[0]) + EncodeAll(rs[1..])
  }

  // ----- parsing

  /** What stands between the quotes if the line is `key="..."`. */
  function LineValue(line: string, key: string): Option<string> {
    if |line| >= |key| + 3 && line[..|key| + 2] == key + "=\"" && line[|line| - 1] == '"'
    then Some(line[|key| + 2..|line| - 1]) else None
  }

  /** The leftmost match of `^key="(pattern)"$`. */
  function FirstMatch(lines: seq<string>, key: string, pattern: string -> bool): Option<string> {
    if |lines| == 0 then None
    else match LineValue(lines[0], key)
      case Some(v) => if pattern(v) then Some(v) else FirstMatch(lines[1..], key, pattern)
      case None => FirstMatch(lines[1..], key, pattern)
  }

  /** `getPatternKey`: a match that does not fit its buffer is an error, not a reason to look further. */
  function Lookup(text: string, key: string, pattern: string -> bool, maxlen: nat): Option<string> {
    match FirstMatch(Split(text, '\n'), key, pattern)
    case Some(v) => if |v| < maxlen then Some(v) else None
    case None => None
  }

  /** `getPatternKeyInt`, for the one-digit patterns it is used with here. */
  function LookupDigit(text: string, key: string, pattern: string -> bool): Option<nat> {
    match Lookup(text, key, pattern, MAX_INT_SIZE)
    case Some(v) => if |v| == 1 && IsDigit(v[0]) then Some((v[0] - '0') as nat) else None
    case None => None
  }

  /** The body of the loop of `parseTaskRecord`, on the text between two marks. */
  function ParseRecord(text: string): Option<Record> {
    var taskId :- Lookup(text, "task_id", IsUuid, MAX_UUID_SIZE);
    var taskName :- Lookup(text, "task_name", IsName, MAX_NAME_SIZE);
    var groupId :- Lookup(text, "group_id", IsComm, MAX_LIST_SIZE);
    var groupName :- Lookup(text, "group_name", IsComm, MAX_LIST_SIZE);
    var configId :- Lookup(text, "config_id", IsUuid, MAX_UUID_SIZE);
    var configCreated :- LookupDigit(text, "config_created", IsOnOff);
    var targetId :- Lookup(text, "target_id", IsUuid, MAX_UUID_SIZE);
    var portlistId :- Lookup(text, "portlist_id", IsUuid, MAX_UUID_SIZE);
    var hosts :- Lookup(text, "hosts", IsComm, MAX_LIST_SIZE);
    var scheduleType :- LookupDigit(text, "schedule_type", IsOneDigit);
    var scheduleId :- Lookup(text, "schedule_id", IsUuidOrEmpty, MAX_UUID_SIZE);
    var scheduleCreated :- LookupDigit(text, "schedule_created", IsOnOff);
    var scheduleTime :- Lookup(text, "schedule_time", IsTimestampOrEmpty, MAX_TIMESTAMP_SIZE);
    var scheduleList :- Lookup(text, "schedule_list", IsComm, MAX_SCHEDULE_LIST_SIZE);
    var createTime :- Lookup(text, "create_time", IsTimestamp, MAX_TIMESTAMP_SIZE);
    if IsHostList(hosts) && ScheduleOk(scheduleType, scheduleTime, scheduleList) then
      Some(Record(taskId, taskName, groupId, groupName, configId, configCreated, targetId, portlistId, hosts,
                  scheduleType, scheduleId, scheduleCreated, scheduleTime, scheduleList, createTime))
    else None
  }

  /** All records of a file; the first bad one fails the whole file, and an unfinished one ends it. */
  function ParseFile(text: string): Option<seq<Record>>
    decreases |text|
  {
    match StrStr(text, BEGIN_MARK, 0)
    case None => Some([])
    case Some(b) =>
      var start := text[b + |BEGIN_MARK|..];
      match StrStr(start, END_MARK, 0)
      case None => Some([])
      case Some(e) =>
        var r :- ParseRecord(start[..e]);
        var rs :- ParseFile(start[e + |END_MARK|..]);
        Some([r] + rs)
  }

  // ----- what the format can carry

  /** The fields are such that the parser accepts them: patterns, buffer sizes and the semantic checks. */
  predicate Valid(r: Record) {
    && IsUuid(r.taskId)
    && IsName(r.taskName) && |r.taskName| < MAX_NAME_SIZE
    && IsComm(r.groupId) && |r.groupId| < MAX_LIST_SIZE
    && IsComm(r.groupName) && |r.groupName| < MAX_LIST_SIZE
    && IsUuid(r.configId) && r.configCreated <= 1
    && IsUuid(r.targetId) && IsUuid(r.portlistId)
    && IsComm(r.hosts) && |r.hosts| < MAX_LIST_SIZE && IsHostList(r.hosts)
    && r.scheduleType <= 9
    && IsUuidOrEmpty(r.scheduleId) && r.scheduleCreated <= 1
    && IsTimestampOrEmpty(r.scheduleTime)
    && IsComm(r.scheduleList) && |r.scheduleList| < MAX_SCHEDULE_LIST_SIZE
    && ScheduleOk(r.scheduleType, r.scheduleTime, r.scheduleList)
    && IsTimestamp(r.createTime)
  }

  lemma {:induction false} FirstMatchSound(lines: seq<string>, key: string, pattern: string -> bool)
    ensures FirstMatch(lines, key, pattern).Some? ==> pattern(FirstMatch(lines, key, pattern).value)
  {
    if |lines| > 0 {
      FirstMatchSound(lines[1..], key, pattern);
    }
  }

  lemma LookupSound(text: string, key: string, pattern: string -> bool, maxlen: nat)
    ensures var v := Lookup(text, key, pattern, maxlen);
      v.Some? ==> pattern(v.value) && |v.value| < maxlen
  {
    FirstMatchSound(Split(text, '\n'), key, pattern);
  }

  lemma ParsedValid(text: string)
    ensures ParseRecord(text).Some? ==> Valid(ParseRecord(text).value)
  {
    hide Lookup, IsUuid, IsName, IsComm, IsTimestamp;
    LookupSound(text, "task_id", IsUuid, MAX_UUID_SIZE);
    LookupSound(text, "task_name", IsName, MAX_NAME_SIZE);
    LookupSound(text, "group_id", IsComm, MAX_LIST_SIZE);
    LookupSound(text, "group_name", IsComm, MAX_LIST_SIZE);
    LookupSound(text, "config_id", IsUuid, MAX_UUID_SIZE);
    LookupSound(text, "config_created", IsOnOff, MAX_INT_SIZE);
    LookupSound(text, "target_id", IsUuid, MAX_UUID_SIZE);
    LookupSound(text, "portlist_id", IsUuid, MAX_UUID_SIZE);
    LookupSound(text, "hosts", IsComm, MAX_LIST_SIZE);
    LookupSound(text, "schedule_type", IsOneDigit, MAX_INT_SIZE);
    LookupSound(text, "schedule_id", IsUuidOrEmpty, MAX_UUID_SIZE);
    LookupSound(text, "schedule_created", IsOnOff, MAX_INT_SIZE);
    LookupSound(text, "schedule_time", IsTimestampOrEmpty, MAX_TIMESTAMP_SIZE);
    LookupSound(text, "schedule_list", IsComm, MAX_SCHEDULE_LIST_SIZE);
    LookupSound(text, "create_time", IsTimestamp, MAX_TIMESTAMP_SIZE);
  }

  /** Whatever a file holds, the records read from it are valid. */
  lemma {:induction false} FileValid(text: string)
    ensures ParseFile(text).Some? ==> forall r | r in ParseFile(text).value :: Valid(r)
    decreases |text|
  {
    hide ParseRecord, Valid;
    var b := StrStr(text, BEGIN_MARK, 0);
    if b.Some? {
      var start := text[b.value + |BEGIN_MARK|..];
      var e := StrStr(start, END_MARK, 0);
      if e.Some? {
        ParsedValid(start[..e.value]);
        FileValid(start[e.value + |END_MARK|..]);
      }
    }
  }

  // ----- reading back what was printed

  predicate WellKeyed(fs: seq<Field>) {
    && (forall i | 0 <= i < |fs| :: Free(fs[i].key, '=') && Free(fs[i].key, '\n') && fs[i].key != "")
    && (forall i, j | 0 <= i < j < |fs| :: fs[i].key != fs[j].key)
  }

  predicate OneLine(fs: seq<Field>) {
    forall i | 0 <= i < |fs| :: Free(fs[i].val, '\n')
  }

  function Lines(fs: seq<Field>): seq<string> {
    if |fs| == 0 then [""] else [Line(fs[0])] + Lines(fs[1..])
  }

  lemma {:induction false} BodyLines(fs: seq<Field>)
    requires WellKeyed(fs) && OneLine(fs)
    ensures Split(Body(fs), '\n') == Lines(fs)
  {
    if |fs| == 0 {
      CharIndexFree("", '\n');
    } else {
      SplitCons(Line(fs[0]), '\n', Body(fs[1..]));
      BodyLines(fs[1..]);
    }
  }

  lemma ValueOfLine(f: Field, key: string)
    requires Free(f.key, '=') && Free(key, '=')
    ensures LineValue(Line(f), key) == if key == f.key then Some(f.val) else None
  {
    var line := Line(f);
    if key == f.key {
      assert line[..|key| + 2] == key + "=\"";
      assert line[|key| + 2..|line| - 1] == f.val;
    } else if |line| >= |key| + 3 && line[..|key| + 2] == key + "=\"" {
      KeysAgree(f, key);
    }
  }

  lemma KeysAgree(f: Field, key: string)
    requires Free(f.key, '=') && Free(key, '=')
    requires |Line(f)| >= |key| + 3 && Line(f)[..|key| + 2] == key + "=\""
    ensures key == f.key
  {
    var line := Line(f);
    assert line[|f.key|] == '=';
    assert (key + "=\"")[|key|] == '=' && line[..|key| + 2][|key|] == line[|key|];
    assert forall i | 0 <= i < |f.key| :: line[i] == f.key[i];
    assert forall i | 0 <= i < |key| :: line[i] == line[..|key| + 2][i] == key[i];
    assert |key| == |f.key|;
  }

  lemma {:induction false} MatchAt(fs: seq<Field>, i: nat, pattern: string -> bool)
    requires WellKeyed(fs) && i < |fs|
    ensures FirstMatch(Lines(fs), fs[i].key, pattern) == if pattern(fs[i].val) then Some(fs[i].val) else None
  {
    ValueOfLine(fs[0], fs[i].key);
    assert Lines(fs)[1..] == Lines(fs[1..]);
    if i > 0 {
      MatchAt(fs[1..], i - 1, pattern);
    } else {
      NoMatch(fs[1..], fs[0].key, pattern);
    }
  }

  lemma {:induction false} NoMatch(fs: seq<Field>, key: string, pattern: string -> bool)
    requires forall i | 0 <= i < |fs| :: Free(fs[i].key, '=') && fs[i].key != key
    requires Free(key, '=')
    ensures FirstMatch(Lines(fs), key, pattern) == None
  {
    if |fs| > 0 {
      ValueOfLine(fs[0], key);
      assert Lines(fs)[1..] == Lines(fs[1..]);
      NoMatch(fs[1..], key, pattern);
    } else {
      assert Lines(fs)[1..] == [];
    }
  }

  /** Looking a key up in a printed body finds the value printed under that key. */
  lemma LookupAt(fs: seq<Field>, i: nat, pattern: string -> bool, maxlen: nat)
    requires WellKeyed(fs) && OneLine(fs) && i < |fs|
    ensures Lookup(Body(fs), fs[i].key, pattern, maxlen)
         == if pattern(fs[i].val) && |fs[i].val| < maxlen then Some(fs[i].val) else None
  {
    BodyLines(fs);
    MatchAt(fs, i, pattern);
  }

  const KEYS: seq<string> := [
    "task_id", "task_name", "group_id", "group_name", "config_id", "config_created", "target_id", "portlist_id",
    "hosts", "schedule_type", "schedule_id", "schedule_created", "schedule_time", "schedule_list", "create_time"]

  lemma KeysFree(i: nat)
    requires i < |KEYS|
    ensures KEYS[i] != "" && Free(KEYS[i], '=') && Free(KEYS[i], '\n') && KEYS[i][0] != '='
  {
  }

  lemma KeysDistinct(i: nat, j: nat)
    requires i < j < |KEYS|
    ensures KEYS[i] != KEYS[j]
  {
  }

  lemma FieldsWellKeyed(r: Record)
    ensures |Fields(r)| == |KEYS| && forall i | 0 <= i < |KEYS| :: Fields(r)[i].key == KEYS[i]
    ensures WellKeyed(Fields(r))
  {
    forall i | 0 <= i < |KEYS| ensures Free(KEYS[i], '=') && Free(KEYS[i], '\n') && KEYS[i] != "" {
      KeysFree(i);
    }
    forall i, j | 0 <= i < j < |KEYS| ensures KEYS[i] != KEYS[j] {
      KeysDistinct(i, j);
    }
  }

  // the patterns keep values on one line

  lemma PatternsOneLine(s: string)
    ensures IsUuidOrEmpty(s) || IsName(s) || IsComm(s) || IsTimestampOrEmpty(s) ==> Free(s, '\n')
  {
    forall i | 0 <= i < |s| && s[i] == '\n'
      ensures !(IsUuidOrEmpty(s) || IsName(s) || IsComm(s) || IsTimestampOrEmpty(s))
    {
      assert s[i] in s;
    }
  }

  lemma SmallItoa(n: nat)
    requires n < 10
    ensures Itoa(n) == [Digit(n)] && IsOneDigit(Itoa(n)) && Free(Itoa(n), '\n')
    ensures (Digit(n) - '0') as nat == n
    ensures n <= 1 ==> IsOnOff(Itoa(n))
  {
  }

  lemma FieldsOneLine(r: Record)
    requires Valid(r)
    ensures OneLine(Fields(r))
  {
    hide IsUuid, IsName, IsComm, IsTimestamp, Itoa;
    PatternsOneLine(r.taskId);
    PatternsOneLine(r.taskName);
    PatternsOneLine(r.groupId);
    PatternsOneLine(r.groupName);
    PatternsOneLine(r.configId);
    SmallItoa(r.configCreated);
    PatternsOneLine(r.targetId);
    PatternsOneLine(r.portlistId);
    PatternsOneLine(r.hosts);
    SmallItoa(r.scheduleType);
    PatternsOneLine(r.scheduleId);
    SmallItoa(r.scheduleCreated);
    PatternsOneLine(r.scheduleTime);
    PatternsOneLine(r.scheduleList);
    PatternsOneLine(r.createTime);
  }

  lemma LookupField(r: Record, i: nat, pattern: string -> bool, maxlen: nat)
    requires i < |KEYS| && OneLine(Fields(r))
    ensures |Fields(r)| == |KEYS|
    ensures var v := Fields(r)[i].val;
      Lookup(Body(Fields(r)), KEYS[i], pattern, maxlen) == if pattern(v) && |v| < maxlen then Some(v) else None
  {
    FieldsWellKeyed(r);
    hide *;
    LookupAt(Fields(r), i, pattern, maxlen);
  }

  /** Under which key each field of a printed valid record is found again. */
  lemma FieldsFound(r: Record)
    requires Valid(r)
    ensures var text := Body(Fields(r));
      && Lookup(text, "task_id", IsUuid, MAX_UUID_SIZE) == Some(r.taskId)
      && Lookup(text, "task_name", IsName, MAX_NAME_SIZE) == Some(r.taskName)
      && Lookup(text, "group_id", IsComm, MAX_LIST_SIZE) == Some(r.groupId)
      && Lookup(text, "group_name", IsComm, MAX_LIST_SIZE) == Some(r.groupName)
      && Lookup(text, "config_id", IsUuid, MAX_UUID_SIZE) == Some(r.configId)
      && LookupDigit(text, "config_created", IsOnOff) == Some(r.configCreated)
      && Lookup(text, "target_id", IsUuid, MAX_UUID_SIZE) == Some(r.targetId)
      && Lookup(text, "portlist_id", IsUuid, MAX_UUID_SIZE) == Some(r.portlistId)
      && Lookup(text, "hosts", IsComm, MAX_LIST_SIZE) == Some(r.hosts)
      && LookupDigit(text, "schedule_type", IsOneDigit) == Some(r.scheduleType)
      && Lookup(text, "schedule_id", IsUuidOrEmpty, MAX_UUID_SIZE) == Some(r.scheduleId)
      && LookupDigit(text, "schedule_created", IsOnOff) == Some(r.scheduleCreated)
      && Lookup(text, "schedule_time", IsTimestampOrEmpty, MAX_TIMESTAMP_SIZE) == Some(r.scheduleTime)
      && Lookup(text, "schedule_list", IsComm, MAX_SCHEDULE_LIST_SIZE) == Some(r.scheduleList)
      && Lookup(text, "create_time", IsTimestamp, MAX_TIMESTAMP_SIZE) == Some(r.createTime)
  {
    hide Lookup, Body, Itoa, IsUuid, IsName, IsComm, IsTimestamp, OneLine, Digit;
    FieldsOneLine(r);
    SmallItoa(r.configCreated);
    SmallItoa(r.scheduleType);
    SmallItoa(r.scheduleCreated);
    ShortPatterns(r);
    LookupField(r, 0, IsUuid, MAX_UUID_SIZE);
    LookupField(r, 1, IsName, MAX_NAME_SIZE);
    LookupField(r, 2, IsComm, MAX_LIST_SIZE);
    LookupField(r, 3, IsComm, MAX_LIST_SIZE);
    LookupField(r, 4, IsUuid, MAX_UUID_SIZE);
    LookupField(r, 5, IsOnOff, MAX_INT_SIZE);
    LookupField(r, 6, IsUuid, MAX_UUID_SIZE);
    LookupField(r, 7, IsUuid, MAX_UUID_SIZE);
    LookupField(r, 8, IsComm, MAX_LIST_SIZE);
    LookupField(r, 9, IsOneDigit, MAX_INT_SIZE);
    LookupField(r, 10, IsUuidOrEmpty, MAX_UUID_SIZE);
    LookupField(r, 11, IsOnOff, MAX_INT_SIZE);
    LookupField(r, 12, IsTimestampOrEmpty, MAX_TIMESTAMP_SIZE);
    LookupField(r, 13, IsComm, MAX_SCHEDULE_LIST_SIZE);
    LookupField(r, 14, IsTimestamp, MAX_TIMESTAMP_SIZE);
  }

  /** A printed record parses back to itself exactly when its fields are valid. */
  lemma RecordRoundTripIff(r: Record)
    ensures ParseRecord(Body(Fields(r))) == Some(r) <==> Valid(r)
  {
    hide Lookup, LookupDigit, Body, Fields, IsUuid, IsName, IsComm, IsTimestamp, ScheduleOk;
    ParsedValid(Body(Fields(r)));
    if Valid(r) {
      FieldsFound(r);
    }
  }

  lemma ShortPatterns(r: Record)
    ensures IsUuid(r.taskId) ==> |r.taskId| == 36
    ensures IsUuid(r.configId) ==> |r.configId| == 36
    ensures IsUuid(r.targetId) ==> |r.targetId| == 36
    ensures IsUuid(r.portlistId) ==> |r.portlistId| == 36
    ensures IsUuidOrEmpty(r.scheduleId) ==> |r.scheduleId| <= 36
    ensures IsTimestampOrEmpty(r.scheduleTime) ==> |r.scheduleTime| <= 19
    ensures IsTimestamp(r.createTime) ==> |r.createTime| == 19
  {
  }

  // ----- whole files

  /** No line of a body can be taken for a mark: a new line always starts with a key. */
  lemma {:induction false} NewlineThenKey(fs: seq<Field>, tail: string, j: nat)
    requires WellKeyed(fs) && OneLine(fs)
    requires forall i | 0 <= i < |fs| :: fs[i].key[0] != '='
    requires |tail| > 1 && tail[0] != '=' && j < |Body(fs)| && (Body(fs) + tail)[j] == '\n'
    ensures (Body(fs) + tail)[j + 1] != '='
  {
    var line, rest := Line(fs[0]), Body(fs[1..]);
    assert Body(fs) + tail == line + "\n" + (rest + tail);
    if j < |line| {
      LineHasNoNewline(fs[0]);
    } else if j == |line| {
      assert (Body(fs) + tail)[j + 1] == (rest + tail)[0];
      if |fs| > 1 {
        assert rest[0] == fs[1].key[0];
      }
    } else {
      assert (Body(fs) + tail)[j] == (rest + tail)[j - |line| - 1];
      NewlineThenKey(fs[1..], tail, j - |line| - 1);
    }
  }

  lemma LineHasNoNewline(f: Field)
    requires Free(f.key, '\n') && Free(f.val, '\n')
    ensures Free(Line(f), '\n')
  {
  }

  lemma MarkShape()
    ensures |BEGIN_MARK| == 25 && |END_MARK| == 25
    ensures BEGIN_MARK[0] == '\n' && END_MARK[0] == '\n' && END_MARK[1] == '='
    ensures END_MARK[24] == '\n' && forall i | 1 <= i < 24 :: END_MARK[i] != '\n'
  {
  }

  /** No end mark begins within lines whose keys and values are printed on one line each. */
  lemma NoMarkWithin(fs: seq<Field>, tail: string)
    requires WellKeyed(fs) && OneLine(fs) && forall i | 0 <= i < |fs| :: fs[i].key[0] != '='
    requires |tail| > 1 && tail[0] != '='
    ensures forall j | 0 <= j < |Body(fs)| :: !Occurs(Body(fs) + tail, END_MARK, j)
  {
    var text := Body(fs) + tail;
    MarkShape();
    hide Body, WellKeyed, OneLine;
    forall j | 0 <= j < |Body(fs)| ensures !Occurs(text, END_MARK, j) {
      if Occurs(text, END_MARK, j) {
        assert text[j] == text[j..j + 25][0] == '\n' && text[j + 1] == text[j..j + 25][1] == '=';
        NewlineThenKey(fs, tail, j);
      }
    }
  }

  /** The first end mark behind a record is the one that was printed there. */
  lemma FirstEndMark(r: Record, tail: string)
    requires OneLine(Fields(r))
    requires |tail| > 1 && tail[0] == '\n'
    ensures forall j | 0 <= j < |Body(Fields(r))| :: !Occurs(Body(Fields(r)) + tail, END_MARK, j)
  {
    FieldsWellKeyed(r);
    forall i | 0 <= i < |KEYS| ensures Fields(r)[i].key[0] != '=' {
      KeysFree(i);
    }
    hide Fields, Body, WellKeyed, OneLine;
    NoMarkWithin(Fields(r), tail);
  }

  lemma FoundAfter(a: string, needle: string, b: string)
    requires forall j | 0 <= j < |a| :: !Occurs(a + (needle + b), needle, j)
    ensures StrStr(a + (needle + b), needle, 0) == Some(|a|)
    ensures (a + (needle + b))[..|a|] == a && (a + (needle + b))[|a| + |needle|..] == b
  {
    var text := a + (needle + b);
    assert text[|a|..|a| + |needle|] == needle;
    StrStrFirst(text, needle, |a|);
  }

  /** The two marks around a printed record are found where they were printed. */
  lemma MarksFound(r: Record, rest: string)
    requires OneLine(Fields(r))
    ensures var body := Body(Fields(r));
      var text, start := Encode(r) + rest, body + (END_MARK + rest);
      && StrStr(text, BEGIN_MARK, 0) == Some(0) && text[|BEGIN_MARK|..] == start
      && StrStr(start, END_MARK, 0) == Some(|body|)
      && start[..|body|] == body && start[|body| + |END_MARK|..] == rest
  {
    var body := Body(Fields(r));
    MarkShape();
    FirstEndMark(r, END_MARK + rest);
    assert Encode(r) + rest == "" + (BEGIN_MARK + (body + (END_MARK + rest)));
    hide *;
    FoundAfter("", BEGIN_MARK, body + (END_MARK + rest));
    FoundAfter(body, END_MARK, rest);
  }

  /** One printed record in front of anything. */
  lemma ParseOneMore(r: Record, rest: string)
    requires Valid(r)
    ensures ParseFile(Encode(r) + rest) ==
      match ParseFile(rest) case Some(rs) => Some([r] + rs) case None => None
  {
    hide Encode, ParseRecord, Valid, OneLine, StrStr, Fields, Body;
    FieldsOneLine(r);
    RecordRoundTripIff(r);
    MarksFound(r, rest);
  }

  lemma {:induction false} ParseBehind(rs: seq<Record>, rest: string)
    requires forall r | r in rs :: Valid(r)
    ensures ParseFile(EncodeAll(rs) + rest) ==
      match ParseFile(rest) case Some(more) => Some(rs + more) case None => None
  {
    hide ParseFile, Encode, Valid;
    if |rs| == 0 {
      assert EncodeAll(rs) + rest == rest;
      assert forall more: seq<Record> :: [] + more == more;
    } else {
      assert EncodeAll(rs) + rest == Encode(rs[0]) + (EncodeAll(rs[1..]) + rest);
      assert rs[0] in rs;
      ParseOneMore(rs[0], EncodeAll(rs[1..]) + rest);
      ParseBehind(rs[1..], rest);
      assert forall more: seq<Record> :: [rs[0]] + (rs[1..] + more) == rs + more;
    }
  }

  lemma ParseNothing()
    ensures ParseFile("") == Some([])
  {
  }

  /** The task file: printing any list of tasks and parsing the result gives the same tasks in the same order
      exactly when every one of them is valid. */
  lemma FileRoundTripIff(rs: seq<Record>)
    ensures ParseFile(EncodeAll(rs)) == Some(rs) <==> forall r | r in rs :: Valid(r)
  {
    hide ParseFile, EncodeAll, Valid;
    FileValid(EncodeAll(rs));
    if forall r | r in rs :: Valid(r) {
      ParseBehind(rs, "");
      ParseNothing();
      assert EncodeAll(rs) + "" == EncodeAll(rs) && rs + [] == rs;
    }
  }

  // ----- the write buffer

  const NUL := '\0'

  /** A text whose last character was overwritten by the terminating NUL. */
  function Cut(s: string): string
    requires s != ""
  {
    s[..|s| - 1] + [NUL]
  }

  /** What `writeTaskFile` leaves in a buffer of `capacity` characters, if it does not give up: `snprintf` needs
      room for its NUL, but a record that fills the buffer to the last character is let through. */
  function FileText(rs: seq<Record>, capacity: nat): Option<string> {
    var text := EncodeAll(rs);
    if |text| > capacity then None
    else if |text| < capacity || text == "" then Some(text)
    else Some(Cut(text))
  }

  /** `kb_buf`: `text` is the first `m_size` characters of `m_buf`. */
  class Buffer {
    const capacity: nat
    var text: string

    constructor (capacity: nat)
      ensures this.capacity == capacity && text == ""
    {
      this.capacity := capacity;
      text := "";
    }

    /** `writeTaskRecord`. */
    method WriteTaskRecord(r: Record) returns (ret: int)
      requires |text| <= capacity
      modifies this
      ensures |text| <= capacity
      ensures |old(text)| + |Encode(r)| < capacity ==> ret == 0 && text == old(text) + Encode(r)
      ensures |old(text)| + |Encode(r)| == capacity ==> ret == 0 && text == Cut(old(text) + Encode(r))
      ensures |old(text)| + |Encode(r)| > capacity ==> ret == -1 && text == old(text)
    {
      hide Encode;
      EncodeNotEmpty(r);
      var left := capacity - |text|;
      var cnt := |Encode(r)|;
      if 0 < cnt && cnt <= left {
        text := text + if cnt < left then Encode(r) else Encode(r)[..left - 1] + [NUL];
        ret := 0;
      } else {
        ret := -1;
      }
    }

    lemma EncodeNotEmpty(r: Record)
      ensures |Encode(r)| > 0
    {
    }

    /** The `for_each` of `writeTaskFile` over the creation queue. */
    method WriteTaskRecords(rs: seq<Record>) returns (ret: int)
      modifies this
      ensures ret == if FileText(rs, capacity).Some? then 0 else -1
      ensures FileText(rs, capacity).Some? ==> Some(text) == FileText(rs, capacity)
    {
      hide Encode, EncodeAll;
      text, ret := "", 0;
      var i := 0;
      EncodeAllPrefix(rs, 0);
      while i < |rs|
        invariant 0 <= i <= |rs| && ret == 0
        invariant FileText(rs[..i], capacity) == Some(text) && |text| == |EncodeAll(rs[..i])|
        invariant |text| <= |EncodeAll(rs)|
      {
        EncodeAllPrefix(rs, i);
        EncodeAllPrefix(rs, i + 1);
        EncodeNotEmpty(rs[i]);
        ret := WriteTaskRecord(rs[i]);
        i := i + 1;
        if ret != 0 {
          break;
        }
      }
      assert i == |rs| ==> rs[..i] == rs;
    }

    lemma EncodeAllPrefix(rs: seq<Record>, i: nat)
      requires i <= |rs|
      ensures EncodeAll(rs[..0]) == ""
      ensures |EncodeAll(rs[..i])| <= |EncodeAll(rs)|
      ensures i < |rs| ==> EncodeAll(rs[..i + 1]) == EncodeAll(rs[..i]) + Encode(rs[i])
    {
      hide Encode;
      assert rs == rs[..i] + rs[i..];
      EncodeAllConcat(rs[..i], rs[i..]);
      if i < |rs| {
        assert rs[..i + 1] == rs[..i] + [rs[i]];
        EncodeAllConcat(rs[..i], [rs[i]]);
        assert EncodeAll([rs[i]]) == Encode(rs[i]) + EncodeAll([]);
      }
    }
  }

  lemma {:induction false} EncodeAllConcat(a: seq<Record>, b: seq<Record>)
    ensures EncodeAll(a + b) == EncodeAll(a) + EncodeAll(b)
  {
    hide Encode;
    if |a| == 0 {
      assert a + b == b;
    } else {
      assert (a + b)[1..] == a[1..] + b;
      EncodeAllConcat(a[1..], b);
    }
  }

  /** The loop of `parseTaskRecord`; `recs` are the tasks it adds, also when it fails further on. */
  method ParseTaskRecords(cache: string) returns (ret: int, recs: seq<Record>)
    ensures ret == 0 <==> ParseFile(cache).Some?
    ensures ret == 0 ==> ParseFile(cache) == Some(recs)
    ensures ret == 0 || ret == -1
  {
    hide ParseRecord, StrStr;
    ret, recs := 0, [];
    var psz := 0;
    assert cache[0..] == cache;
    ParseNothing();
    PrependNone(ParseFile(cache));
    while psz < |cache| && ret == 0
      invariant psz <= |cache|
      invariant ret == 0 ==> ParseFile(cache) == Prepended(recs, ParseFile(cache[psz..]))
      invariant ret != 0 ==> ret == -1 && ParseFile(cache) == None
      decreases |cache| - psz, if ret == 0 then 1 else 0
    {
      var start := StrStr(cache[psz..], BEGIN_MARK, 0);
      if start.None? {
        break;
      }
      var from := psz + start.value + |BEGIN_MARK|;
      assert cache[psz..][start.value + |BEGIN_MARK|..] == cache[from..];
      var stop := StrStr(cache[from..], END_MARK, 0);
      if stop.None? {
        break;
      }
      var task := ParseRecord(cache[from..][..stop.value]);
      assert cache[from..][stop.value + |END_MARK|..] == cache[from + stop.value + |END_MARK|..];
      if task.Some? {
        PrependedTwice(recs, task.value, ParseFile(cache[from + stop.value + |END_MARK|..]));
        recs := recs + [task.value];
      } else {
        ret := -1;
      }
      psz := from + stop.value + |END_MARK|;
    }
    assert recs + [] == recs;
  }

  function Prepended(rs: seq<Record>, more: Option<seq<Record>>): Option<seq<Record>> {
    match more
    case Some(m) => Some(rs + m)
    case None => None
  }

  lemma PrependNone(more: Option<seq<Record>>)
    ensures Prepended([], more) == more
  {
    if more.Some? {
      assert [] + more.value == more.value;
    }
  }

  lemma PrependedTwice(rs: seq<Record>, r: Record, more: Option<seq<Record>>)
    ensures Prepended(rs, Prepended([r], more)) == Prepended(rs + [r], more)
  {
    if more.Some? {
      assert rs + ([r] + more.value) == rs + [r] + more.value;
    }
  }

  /** A record that was cut at its end is not seen at all. */
  lemma CutRecordLost(r: Record)
    requires Valid(r)
    ensures Encode(r) != "" && ParseFile(Cut(Encode(r))) == Some([])
  {
    var body, tail := Body(Fields(r)), END_MARK[..24] + [NUL];
    MarkShape();
    FieldsOneLine(r);
    var start := body + tail;
    assert Encode(r) == BEGIN_MARK + body + END_MARK;
    assert Cut(Encode(r)) == "" + (BEGIN_MARK + start);
    FirstEndMark(r, tail);
    forall j ensures !Occurs(start, END_MARK, j) {
      if j == |body| {
        assert start[j..j + 25][24] == start[j + 24] == NUL;
      }
    }
    FoundAfter("", BEGIN_MARK, start);
    assert StrStr(start, END_MARK, 0) == None;
    hide Body, Fields, Encode, ParseRecord, Occurs;
    assert ("" + (BEGIN_MARK + start))[0 + |BEGIN_MARK|..] == start;
  }

  /** When the records fill the write buffer exactly, the write succeeds but the last task is missing from what
      the file decodes to. */
  lemma ExactFitLosesLast(rs: seq<Record>, capacity: nat)
    requires |rs| > 0 && |EncodeAll(rs)| == capacity
    requires forall r | r in rs :: Valid(r)
    ensures EncodeAll(rs) != "" && FileText(rs, capacity) == Some(Cut(EncodeAll(rs)))
    ensures ParseFile(Cut(EncodeAll(rs))) == Some(rs[..|rs| - 1])
  {
    hide Encode, ParseFile, Valid;
    var init, last := rs[..|rs| - 1], rs[|rs| - 1];
    assert rs == init + [last] && last in rs;
    EncodeAllConcat(init, [last]);
    assert EncodeAll([last]) == Encode(last) + EncodeAll([]) == Encode(last);
    CutRecordLost(last);
    hide EncodeAll;
    assert Cut(EncodeAll(init) + Encode(last)) == EncodeAll(init) + Cut(Encode(last));
    ParseBehind(init, Cut(Encode(last)));
    assert init + [] == init;
  }
}
