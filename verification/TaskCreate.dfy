/** What `daemon_create_task` checks and collects before a task is recorded, and why the record it arrives at can
    be read back from the task file. */
module TaskCreate {
  import opened Wrappers
  import opened Text
  import opened Tokens
  import opened Escape
  import opened TaskRecord

  /** `DEF_OPENVAS_PORT_LIST_ID`. */
  const PORT_LIST_ID := "00000001-0000-0000-0000-000000000000"

  /** `chkConfigInfo`. */
  predicate ConfigInfoOk(ids: string, names: string) {
    && (forall u | u in Split(ids, ',') :: IsUuid(u))
    && (forall n | n in Split(names, ',') :: IsName(n))
  }

  /** The checks at the end of `getCreateTaskParam`. */
  predicate ParamOk(p: CreateParam) {
    && IsName(p.name)
    && ConfigInfoOk(p.groupId, p.groupName)
    && IsHostList(p.hosts)
    && ScheduleOk(p.scheduleType, p.scheduleTime, p.scheduleList)
  }

  /** The answers of the scan server to the four create requests, if it gives any. */
  datatype Answers = Answers(target: Option<string>, schedule: Option<string>, config: Option<string>,
                             task: Option<string>)

  /** `extractAttrUuid`: an answer without an id in it is a failure. */
  function Extract(answer: Option<string>): Option<string> {
    if answer.Some? && IsUuid(answer.value) then answer else None
  }

  /** `gvm_option_create_schedule`: the schedule id, and whether it has to be deleted with the task. */
  function ScheduleFor(kind: int, answer: Option<string>): Option<(string, nat)> {
    if kind == 0 then Some(("", 0))
    else if 1 <= kind <= 4 then
      var id :- Extract(answer);
      Some((id, 1))
    else None
  }

  /** `gvm_option_create_config`: a single configuration is used as it is, several are merged into a new one. */
  function ConfigFor(groupId: string, answer: Option<string>): Option<(string, nat)> {
    if |Split(groupId, ',')| == 1 then Some((groupId, 0))
    else
      var id :- Extract(answer);
      Some((id, 1))
  }

  /** The steps of `daemon_create_task` up to the point where the record is complete. */
  function BuildRecord(p: CreateParam, a: Answers, now: string): Option<Record> {
    if !ParamOk(p) || p.scheduleType < 0 then None
    else
      var target :- Extract(a.target);
      var schedule :- ScheduleFor(p.scheduleType, a.schedule);
      var config :- ConfigFor(p.groupId, a.config);
      var task :- Extract(a.task);
      Some(Record(task, p.name, p.groupId, p.groupName, config.0, config.1, target, PORT_LIST_ID, p.hosts,
                  p.scheduleType, schedule.0, schedule.1, p.scheduleTime, p.scheduleList, now))
  }

  /** The parameters fit the buffers they were read into. */
  predicate InBuffers(p: CreateParam) {
    && |p.name| < MAX_NAME_SIZE && |p.groupId| < MAX_LIST_SIZE && |p.groupName| < MAX_LIST_SIZE
    && |p.hosts| < MAX_LIST_SIZE && |p.scheduleTime| < MAX_TIMESTAMP_SIZE
    && |p.scheduleList| < MAX_SCHEDULE_LIST_SIZE
  }

  lemma ParsedInBuffers(text: string)
    ensures ParseCreate(text).Some? ==> InBuffers(ParseCreate(text).value)
  {
    hide Decode;
    DecodedFits(text, CREATE_SIZES);
    DecodedLength(text, CREATE_SIZES);
  }

  // ----- the two sets of patterns agree

  lemma {:induction false} CommOfParts(s: string)
    requires forall p | p in Split(s, ',') :: IsComm(p)
    ensures IsComm(s)
    decreases |s|
  {
    var i := CharIndex(s, ',');
    var parts := Split(s, ',');
    assert parts[0] == s[..i] && parts[0] in parts;
    if i < |s| {
      var rest := s[i + 1..];
      assert parts == [s[..i]] + Split(rest, ',');
      forall p | p in Split(rest, ',') ensures IsComm(p) {
        assert p in parts;
      }
      CommOfParts(rest);
      assert s == s[..i] + [','] + rest;
    } else {
      assert s[..i] == s;
    }
  }

  lemma HostCharsAreComm(s: string)
    requires AllHostChars(s)
    ensures IsComm(s)
  {
  }

  lemma HostCharsGlue(s: string, i: nat)
    requires i < |s| && AllHostChars(s[..i]) && AllHostChars(s[i + 1..])
    requires s[i] == '.' || s[i] == '/' || s[i] == '-'
    ensures AllHostChars(s)
  {
  }

  lemma {:induction false} IpChars(s: string)
    requires forall p | p in Split(s, '.') :: IsIpNum(p)
    ensures AllHostChars(s)
    decreases |s|
  {
    var i := CharIndex(s, '.');
    var parts := Split(s, '.');
    assert parts[0] == s[..i] && parts[0] in parts;
    if i < |s| {
      var rest := s[i + 1..];
      assert parts == [s[..i]] + Split(rest, '.');
      forall p | p in Split(rest, '.') ensures IsIpNum(p) {
        assert p in parts;
      }
      IpChars(rest);
      HostCharsGlue(s, i);
    } else {
      assert s[..i] == s;
    }
  }

  lemma IpIsHostChars(s: string)
    ensures IsIp(s) ==> AllHostChars(s)
    ensures IsDigits(s, 2) || IsDigits(s, 3) ==> AllHostChars(s)
  {
    if IsIp(s) {
      IpChars(s);
    }
  }

  lemma RangeIsHostChars(s: string)
    requires IsIpRange(s)
    ensures AllHostChars(s)
  {
    hide AllHostChars, IsIp, IsDigits;
    var slash, dash := CharIndex(s, '/'), CharIndex(s, '-');
    IpIsHostChars(s);
    if slash < |s| {
      IpIsHostChars(s[..slash]);
      IpIsHostChars(s[slash + 1..]);
      if AllHostChars(s[..slash]) && AllHostChars(s[slash + 1..]) {
        HostCharsGlue(s, slash);
      }
    }
    if dash < |s| {
      IpIsHostChars(s[..dash]);
      IpIsHostChars(s[dash + 1..]);
      if AllHostChars(s[..dash]) && AllHostChars(s[dash + 1..]) {
        HostCharsGlue(s, dash);
      }
    }
  }

  lemma RangeIsComm(s: string)
    requires IsIpRange(s)
    ensures IsComm(s)
  {
    hide IsComm, IsIpRange, AllHostChars;
    RangeIsHostChars(s);
    HostCharsAreComm(s);
  }

  lemma ListsAreComm(p: CreateParam)
    requires ParamOk(p)
    ensures IsComm(p.groupId) && IsComm(p.groupName) && IsComm(p.hosts)
    ensures 0 <= p.scheduleType <= 4 ==> IsComm(p.scheduleList)
  {
    hide IsUuid, IsName, IsComm, IsIpRange, IsWeekDay, IsMonthDay, Split, IsTimestamp;
    ShortIsComm();
    forall u | u in Split(p.groupId, ',') ensures IsComm(u) {
      UuidIsComm(u);
    }
    CommOfParts(p.groupId);
    forall n | n in Split(p.groupName, ',') ensures IsComm(n) {
      NameIsComm(n);
    }
    CommOfParts(p.groupName);
    forall h | h in Split(p.hosts, ',') ensures IsComm(h) {
      RangeIsComm(h);
    }
    CommOfParts(p.hosts);
    if p.scheduleType == 3 {
      forall d | d in Split(p.scheduleList, ',') ensures IsComm(d) {
        WeekDayIsComm(d);
      }
      CommOfParts(p.scheduleList);
    } else if p.scheduleType == 4 {
      forall d | d in Split(p.scheduleList, ',') ensures IsComm(d) {
        MonthDayIsComm(d);
      }
      CommOfParts(p.scheduleList);
    }
  }

  lemma ShortIsComm()
    ensures IsComm("")
  {
  }

  lemma MonthDayIsComm(s: string)
    requires IsMonthDay(s)
    ensures IsComm(s)
  {
  }

  lemma UuidIsComm(s: string)
    requires IsUuid(s)
    ensures IsComm(s)
  {
  }

  lemma NameIsComm(s: string)
    requires IsName(s)
    ensures IsComm(s)
  {
  }

  lemma WeekDayIsComm(s: string)
    requires IsWeekDay(s)
    ensures IsComm(s)
  {
  }

  /** Every record that task creation arrives at is one that the task file can carry: the checks on the message
      and the ids from the server imply the patterns of the file parser. */
  lemma CreatedIsValid(p: CreateParam, a: Answers, now: string)
    requires InBuffers(p) && IsTimestamp(now)
    ensures BuildRecord(p, a, now).Some? ==> Valid(BuildRecord(p, a, now).value)
    ensures BuildRecord(p, a, now).Some? ==> BuildRecord(p, a, now).value.taskName == p.name
  {
    hide IsUuid, IsName, IsComm, IsTimestamp, IsHostList, Split;
    if BuildRecord(p, a, now).Some? {
      ListsAreComm(p);
      PortListIsUuid();
      SingleConfig(p.groupId);
    }
  }

  lemma PortListIsUuid()
    ensures IsUuid(PORT_LIST_ID)
  {
  }

  lemma SingleConfig(ids: string)
    requires forall u | u in Split(ids, ',') :: IsUuid(u)
    ensures |Split(ids, ',')| == 1 ==> IsUuid(ids)
  {
  }

  /** Parameters that pass the daemon's own checks can lead to a task if and only if their schedule type is one of the
      five known ones. The checks ask any other type for no more than a time stamp; it is the request to the scan
      server that stops it, whatever the server would answer. */
  lemma RecordableIff(p: CreateParam, now: string)
    requires ParamOk(p)
    ensures (exists a :: BuildRecord(p, a, now).Some?) <==> 0 <= p.scheduleType <= 4
  {
    hide ParamOk, IsUuid, Split;
    PortListIsUuid();
    var id := Some(PORT_LIST_ID);
    if 0 <= p.scheduleType <= 4 {
      assert BuildRecord(p, Answers(id, id, id, id), now).Some?;
    }
  }
}
