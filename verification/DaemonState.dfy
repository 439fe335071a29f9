/** The daemon as a state machine: the registry, the run queue, the files and what each operation of
    `openvas_business.c` and `openvas_opts.c` does to them. `P` stands for task pointers. */
module DaemonState {
  import opened Wrappers
  import opened Numbers
  import opened Ordering
  import opened StrOrder
  import opened ListSet
  import opened TaskRecord
  import opened TaskCreate
  import opened Tokens
  import opened Results
  import opened ResultText
  import opened StatusFile

  /** `DEF_TASK_CHK_TIME_INTERVAL`. */
  function Interval(t: ChkType): nat {
    match t
    case ChkTask => 300
    case ChkReport => 120
    case ChkResult => 5
    case ChkDeleted => 300
  }

  /** `convRunStatusName`. */
  function ConvRunStatusName(name: string): Status {
    if name == "Running" then Running
    else if name == "Queued" || name == "Requested" || name == "Delete Requested"
            || name == "Ultimate Delete Requested" then Waiting
    else if name == "New" then Ready
    else if name == "Done" then Finished
    else if name == "Stopped" || name == "Stop Requested" then Stopped
    else Interrupted
  }

  /** `ListGvmTask`. */
  datatype Task = Task(rec: Record, status: Status, progress: int, reportCnt: int, finishCnt: int,
                       startTime: string, stopTime: string, curReport: string, lastReport: string, result: Info,
                       chkType: ChkType, chkTime: int)

  const NO_RECORD := Record("", "", "", "", "", 0, "", "", "", 0, "", 0, "", "", "")

  /** `newGvmTask`, with its record filled in. */
  function NewTask(rec: Record): Task {
    Task(rec, Created, 0, 0, 0, "", "", "", "", RESET, ChkTask, 0)
  }

  /** `heap` holds the allocated tasks that the registry knows, `capacity` the size of the name array, `file` the
      task file, `saved` the texts of the status files by task id. */
  datatype State<P> = State(heap: map<P, Task>, createque: seq<P>, runque: seq<P>, nameset: seq<P>, capacity: nat,
                            file: string, saved: map<string, string>, connOk: bool, lastPingOk: bool)

  // ----- the outside world of one operation

  /** What `parseTask` finds; nothing, when the query fails or the reply cannot be parsed. */
  datatype TaskReply = NoTaskReply | TaskReports(reportCnt: int, finishCnt: int, cur: string, last: string)

  /** The times have been converted to local time. */
  datatype ReportReply = NoReportReply | ReportStatus(name: string, progress: int, startTime: string, stopTime: string)

  /** Clock, server and file system, as one operation meets them. `now` is the clock when expiry is tested, `later`
      when the next check time is set. */
  datatype Env = Env(
    now: int, later: int, stamp: string,
    memory: bool, paths: bool, dir: bool, taskFileIo: bool, statusIo: bool,
    answers: Answers, startOk: bool, stopOk: bool, deleteOk: bool, deleteScheduleOk: bool, deleteConfigOk: bool,
    taskReply: TaskReply, reportReply: ReportReply, resultReply: Option<Page>)

  datatype Code = Ok | ParamInvalid | InternalFail | TaskNotFound | TaskIsBusy | TaskIsNotRunning
                | AlreadyExists | GvmdConn | ProcFail

  // ----- keys

  const BLANK := NewTask(NO_RECORD)

  function TaskOf<P(==)>(heap: map<P, Task>, p: P): Task {
    if p in heap then heap[p] else BLANK
  }

  function Names<P(==)>(heap: map<P, Task>, q: seq<P>): (r: seq<string>)
    ensures |r| == |q| && forall i | 0 <= i < |q| :: r[i] == TaskOf(heap, q[i]).rec.taskName
  {
    seq(|q|, i requires 0 <= i < |q| => TaskOf(heap, q[i]).rec.taskName)
  }

  function CreateTimes<P(==)>(heap: map<P, Task>, q: seq<P>): (r: seq<string>)
    ensures |r| == |q| && forall i | 0 <= i < |q| :: r[i] == TaskOf(heap, q[i]).rec.createTime
  {
    seq(|q|, i requires 0 <= i < |q| => TaskOf(heap, q[i]).rec.createTime)
  }

  function ChkTimes<P(==)>(heap: map<P, Task>, q: seq<P>): (r: seq<int>)
    ensures |r| == |q| && forall i | 0 <= i < |q| :: r[i] == TaskOf(heap, q[i]).chkTime
  {
    seq(|q|, i requires 0 <= i < |q| => TaskOf(heap, q[i]).chkTime)
  }

  function Records<P(==)>(heap: map<P, Task>, q: seq<P>): (r: seq<Record>)
    ensures |r| == |q| && forall i | 0 <= i < |q| :: r[i] == TaskOf(heap, q[i]).rec
  {
    seq(|q|, i requires 0 <= i < |q| => TaskOf(heap, q[i]).rec)
  }

  /** `cmpGvmRunChkTime`. */
  function CmpChkTime(a: int, b: int): int {
    Trunc32(a - b)
  }

  // ----- registry

  function Without<P(==)>(q: seq<P>, p: P): seq<P> {
    if |q| == 0 then [] else if q[0] == p then q[1..] else [q[0]] + Without(q[1..], p)
  }

  /** `push_back` on `m_createque`. */
  function QueueByCreate<P(==)>(heap: map<P, Task>, q: seq<P>, p: P): seq<P> {
    InsertAt(q, InsertIndex(CreateTimes(heap, q), TaskOf(heap, p).rec.createTime, StrCmp), p)
  }

  /** `push_back` on `m_runque`. */
  function QueueByCheck<P(==)>(heap: map<P, Task>, q: seq<P>, p: P): seq<P> {
    InsertAt(q, InsertIndex(ChkTimes(heap, q), TaskOf(heap, p).chkTime, CmpChkTime), p)
  }

  /** `addGvmTask`: only the name array can refuse. */
  function AddTask<P(==)>(s: State<P>, p: P, memory: bool): Option<State<P>> {
    if |s.nameset| >= s.capacity && !memory then None
    else
      Some(s.(
        nameset := InsertAt(s.nameset, InsertIndex(Names(s.heap, s.nameset), TaskOf(s.heap, p).rec.taskName, StrCmp), p),
        capacity := if |s.nameset| >= s.capacity then s.capacity + GROWTH_STEP else s.capacity,
        createque := QueueByCreate(s.heap, s.createque, p)))
  }

  /** `delGvmTask`: the task leaves by name, whatever pointer the caller holds. */
  function DelTask<P(==)>(s: State<P>, name: string): Option<State<P>> {
    if !Found(Names(s.heap, s.nameset), name, StrCmp) then None
    else
      var i := ScanIndex(Names(s.heap, s.nameset), name, StrCmp);
      Some(s.(nameset := RemoveAt(s.nameset, i), createque := Without(s.createque, s.nameset[i])))
  }

  /** `findGvmTask`. */
  function FindTask<P(==)>(s: State<P>, name: string): Option<P> {
    match BinarySearch(Names(s.heap, s.nameset), 0, |s.nameset|, name, StrCmp)
    case Some(i) => Some(s.nameset[i])
    case None => None
  }

  /** `addGvmRunTask`. */
  function AddRun<P(==)>(s: State<P>, p: P): State<P> {
    if p in s.runque then s else s.(runque := QueueByCheck(s.heap, s.runque, p))
  }

  /** `delGvmRunTask`. */
  function DelRun<P(==)>(s: State<P>, p: P): State<P> {
    s.(runque := Without(s.runque, p))
  }

  /** `queGvmRunTask`. */
  function Requeue<P(==)>(s: State<P>, p: P): State<P> {
    if p in s.runque then s.(runque := QueueByCheck(s.heap, Without(s.runque, p), p)) else s
  }

  /** `setTaskNextChkTime`. */
  function NextChkTime(clock: int, interval: int): int {
    if 0 < interval then clock + interval else 0
  }

  // ----- files

  /** `MAX_CACHE_SIZE`, the size of the write buffer, and `MAX_TASK_FILE_SIZE`, the limit when reading. */
  const WRITE_LIMIT := 0x1000000
  const READ_LIMIT := 0xA00000

  /** `writeTaskFile`: the whole registry, in creation order, replaces the file, or nothing happens. */
  function WriteTaskFile<P(==)>(s: State<P>, io: bool): Option<State<P>> {
    match FileText(Records(s.heap, s.createque), WRITE_LIMIT)
    case Some(text) => if io then Some(s.(file := text)) else None
    case None => None
  }

  function SavedOf(t: Task): Saved {
    Saved(t.startTime, t.stopTime, t.status, t.chkType, t.progress, t.curReport, t.lastReport)
  }

  /** What is printed into the status file of a task. */
  function StatusText(t: Task): string {
    EncodeStatus(t.rec.taskId, SavedOf(t))
  }

  /** `writeTaskStatusFile`; its callers go on as if it had worked. */
  function WriteStatus<P(==)>(s: State<P>, p: P, e: Env): State<P> {
    if e.paths && e.statusIo then
      s.(saved := s.saved[TaskOf(s.heap, p).rec.taskId := StatusText(TaskOf(s.heap, p))])
    else s
  }

  /** `deleteDir` on the directory of a task. */
  function DropDir<P(==)>(s: State<P>, p: P): State<P> {
    s.(saved := s.saved - {TaskOf(s.heap, p).rec.taskId})
  }

  /** `createTaskRelationFiles`. */
  function CreateFiles<P(==)>(s: State<P>, p: P, e: Env): (bool, State<P>) {
    if !e.paths || !e.dir then (false, s)
    else match AddTask(s, p, e.memory)
      case None => (false, DropDir(s, p))
      case Some(added) =>
        match WriteTaskFile(added, e.taskFileIo)
        case Some(written) => (true, AddRun(written, p))
        case None => (false, DropDir(DelTask(added, TaskOf(s.heap, p).rec.taskName).GetOr(added), p))
  }

  /** `delTaskRelationFiles`. */
  function DeleteFiles<P(==)>(s: State<P>, p: P, e: Env): (bool, State<P>) {
    if !e.paths then (false, s)
    else match DelTask(s, TaskOf(s.heap, p).rec.taskName)
      case None => (false, s)
      case Some(removed) =>
        match WriteTaskFile(removed, e.taskFileIo)
        case Some(written) => (true, DropDir(DelRun(written, p), p))
        case None => (false, AddTask(removed, p, e.memory).GetOr(removed))
  }

  function RestoredTimes(t: Task, text: string, id: string): (bool, Task) {
    if Lookup(text, "task_id", IsUuid, MAX_UUID_SIZE) != Some(id) then (false, t)
    else
      var start := Lookup(text, "start_time", IsTimestampOrEmpty, MAX_TIMESTAMP_SIZE);
      var t1 := t.(startTime := start.GetOr(""));
      if start.None? then (false, t1)
      else
        var stop := Lookup(text, "stop_time", IsTimestampOrEmpty, MAX_TIMESTAMP_SIZE);
        (stop.Some?, t1.(stopTime := stop.GetOr("")))
  }

  function RestoredNumbers(t: Task, text: string): (bool, Task) {
    var status := StatusOf(LookupInt(text, "status").GetOr(-1));
    if status.None? then (false, t)
    else
      var t1 := t.(status := status.value);
      var chkType := ChkOf(LookupInt(text, "chk_type").GetOr(-1));
      if chkType.None? then (false, t1)
      else
        var t2 := t1.(chkType := chkType.value);
        var progress := LookupInt(text, "progress").GetOr(-1);
        if 0 <= progress <= 100 then (true, t2.(progress := progress)) else (false, t2)
  }

  function RestoredIds(t: Task, text: string): (bool, Task) {
    var cur := Lookup(text, "report_id", IsUuid, MAX_UUID_SIZE);
    var t1 := t.(curReport := cur.GetOr(""));
    if cur.None? then (false, t1)
    else
      var last := Lookup(text, "last_report_id", IsUuidOrEmpty, MAX_UUID_SIZE);
      (last.Some?, t1.(lastReport := last.GetOr("")))
  }

  /** What `parseTaskStatusRecord` makes of a task: it overwrites one field after the other, until one is refused. */
  function Restored(t: Task, text: string, id: string): (bool, Task) {
    var (ok, t1) := RestoredTimes(t, text, id);
    if !ok then (false, t1)
    else
      var (ok, t2) := RestoredNumbers(t1, text);
      if ok then RestoredIds(t2, text) else (false, t2)
  }

  /** Nothing is refused exactly when the parser accepts the text, and then all fields are those of the text. */
  lemma RestoredIff(t: Task, text: string, id: string)
    ensures Restored(t, text, id).0 <==> ParseFields(text, id).Some?
    ensures Restored(t, text, id).0 ==>
      var v := ParseFields(text, id).value;
      Restored(t, text, id).1 == t.(startTime := v.startTime, stopTime := v.stopTime, status := v.status,
        chkType := v.chkType, progress := v.progress, curReport := v.curReport, lastReport := v.lastReport)
  {
    hide Lookup, LookupInt;
  }

  // ----- task state

  function IsRunning(t: Task): bool {
    t.status == Waiting || t.status == Running
  }

  function IsDone(t: Task): bool {
    t.status == Finished || t.status == Stopped || t.status == Interrupted
  }

  /** `chkTaskBusy`. */
  function IsBusy(t: Task): bool {
    IsRunning(t) || t.chkType != ChkTask
  }

  function SetTask<P(==)>(s: State<P>, p: P, t: Task): State<P> {
    s.(heap := s.heap[p := t])
  }

  function Free<P(==)>(s: State<P>, p: P): State<P> {
    s.(heap := s.heap - {p})
  }

  /** `setTaskNextChkTime` and `reque_run_task`, as they end every operation on a queued task. */
  function Reschedule<P(==)>(s: State<P>, p: P, clock: int, interval: int): State<P> {
    Requeue(SetTask(s, p, TaskOf(s.heap, p).(chkTime := NextChkTime(clock, interval))), p)
  }

  // ----- commands

  datatype Key = Key(name: string, taskId: string, targetId: string)

  /** The checks of `getKeyTaskParam`. */
  predicate KeyOk(k: Key) {
    IsName(k.name) && IsUuid(k.taskId) && IsUuid(k.targetId)
  }

  /** `daemon_create_task`; `p` is what the allocator returns. */
  function CreateTask<P(==)>(s: State<P>, p: P, param: CreateParam, e: Env): (Code, State<P>) {
    if !ParamOk(param) then (ParamInvalid, s)
    else if !s.connOk then (GvmdConn, s)
    else if FindTask(s, param.name).Some? then (AlreadyExists, s)
    else match BuildRecord(param, e.answers, e.stamp)
      case None => (ProcFail, s)
      case Some(rec) =>
        var t := NewTask(rec).(chkTime := NextChkTime(e.later, Interval(ChkTask)));
        var (ok, s') := CreateFiles(SetTask(s, p, t), p, e);
        if ok then (Ok, s') else (InternalFail, Free(s', p))
  }

  /** `daemon_start_task`. */
  function StartTask<P(==)>(s: State<P>, key: Key, e: Env): (Code, State<P>) {
    if !KeyOk(key) then (ParamInvalid, s)
    else if !s.connOk then (GvmdConn, s)
    else match FindTask(s, key.name)
      case None => (TaskNotFound, s)
      case Some(p) =>
        if IsBusy(TaskOf(s.heap, p)) then (TaskIsBusy, s)
        else if !e.startOk then (ProcFail, s)
        else (Ok, Reschedule(s, p, e.later, 0))
  }

  /** `daemon_stop_task`. */
  function StopTask<P(==)>(s: State<P>, key: Key, e: Env): (Code, State<P>) {
    if !KeyOk(key) then (ParamInvalid, s)
    else if !s.connOk then (GvmdConn, s)
    else match FindTask(s, key.name)
      case None => (TaskNotFound, s)
      case Some(p) =>
        if !IsRunning(TaskOf(s.heap, p)) then (TaskIsNotRunning, s)
        else if !e.stopOk then (ProcFail, s)
        else (Ok, Reschedule(s, p, e.later, 0))
  }

  /** `gvm_option_delete_schedule` and `gvm_option_delete_config` clear their marks when the server complied. */
  function ClearMarks(r: Record, e: Env): Record {
    r.(scheduleCreated := if e.deleteScheduleOk then 0 else r.scheduleCreated,
       configCreated := if e.deleteConfigOk then 0 else r.configCreated)
  }

  /** `daemon_delete_task`: when the files cannot be updated, the task is left for the background. */
  function DeleteTask<P(==)>(s: State<P>, key: Key, e: Env): (Code, State<P>) {
    if !KeyOk(key) then (ParamInvalid, s)
    else if !s.connOk then (GvmdConn, s)
    else match FindTask(s, key.name)
      case None => (TaskNotFound, s)
      case Some(p) =>
        var t := TaskOf(s.heap, p);
        if IsBusy(t) then (TaskIsBusy, s)
        else if !e.deleteOk then (ProcFail, s)
        else
          var (ok, s') := DeleteFiles(SetTask(s, p, t.(rec := ClearMarks(t.rec, e))), p, e);
          if ok then (Ok, Free(s', p)) else (Ok, SetTask(s', p, TaskOf(s'.heap, p).(chkType := ChkDeleted)))
  }

  // ----- the scheduler

  /** `updateTaskReport`: a report that the task does not know yet, if the server names one. */
  function NewReport(t: Task, cur: string, last: string): Option<string> {
    if cur != "" then (if t.curReport != cur then Some(cur) else None)
    else if last != "" then (if t.curReport != last then Some(last) else None)
    else None
  }

  // the server is only asked with ids that match the id pattern (`chkUuid`)

  function TaskAnswer(t: Task, r: TaskReply): TaskReply {
    if IsUuid(t.rec.taskId) then r else NoTaskReply
  }

  function ReportAnswer(t: Task, r: ReportReply): ReportReply {
    if IsUuid(t.curReport) then r else NoReportReply
  }

  function ResultAnswer(t: Task, r: Option<Page>): Option<Page> {
    if IsUuid(t.rec.taskId) && IsUuid(t.curReport) then r else None
  }

  /** `setTaskStartTime` and `setTaskStopTime`. */
  function TimeBuffer(time: string): string {
    if |time| < MAX_TIMESTAMP_SIZE then time else ""
  }

  /** A task for which a new report was found. Its id is taken over as it is. */
  function Started(t: Task, reportCnt: int, finishCnt: int, report: string): Task {
    t.(lastReport := t.curReport, curReport := report, reportCnt := reportCnt, finishCnt := finishCnt,
       startTime := "", stopTime := "", status := Ready, progress := 0, chkType := ChkReport)
  }

  /** `backend_query_task`. */
  function QueryTask<P(==)>(s: State<P>, p: P, e: Env): State<P> {
    var t := TaskOf(s.heap, p);
    var r := TaskAnswer(t, e.taskReply);
    var news := if r.TaskReports? then NewReport(t, r.cur, r.last) else None;
    match news
    case None => Reschedule(s, p, e.later, Interval(ChkTask))
    case Some(report) =>
      Reschedule(WriteStatus(SetTask(s, p, Started(t, r.reportCnt, r.finishCnt, report)), p, e), p, e.later, 0)
  }

  /** The check type that a report status leads to, from `backend_query_report`. */
  function AfterReport(t: Task): ChkType {
    if IsRunning(t) then t.chkType else if IsDone(t) then ChkResult else ChkTask
  }

  function ReportInterval(t: Task): nat {
    if IsRunning(t) then Interval(ChkReport) else if IsDone(t) then 0 else Interval(ChkTask)
  }

  function Clamp(progress: int): int {
    if 0 <= progress <= 100 then progress else 0
  }

  /** A task with what a report says about it. */
  function Reported(t: Task, status: Status, progress: int, startTime: string, stopTime: string): Task {
    t.(status := status, progress := progress, startTime := TimeBuffer(startTime), stopTime := TimeBuffer(stopTime))
  }

  /** `backend_query_report`. */
  function QueryReport<P(==)>(s: State<P>, p: P, e: Env): State<P> {
    var t := TaskOf(s.heap, p);
    match ReportAnswer(t, e.reportReply)
    case NoReportReply => Reschedule(s, p, e.later, Interval(ChkReport))
    case ReportStatus(name, progress, startTime, stopTime) =>
      if ConvRunStatusName(name) == t.status && Clamp(progress) == t.progress then
        Reschedule(s, p, e.later, Interval(ChkReport))
      else
        var t1 := Reported(t, ConvRunStatusName(name), Clamp(progress), startTime, stopTime);
        var t2 := t1.(chkType := AfterReport(t1));
        Reschedule(WriteStatus(SetTask(s, p, t2), p, e), p, e.later, ReportInterval(t1))
  }

  /** One page of results, unless all is there. */
  function Fetched(t: Task, e: Env): (int, Info) {
    if t.result.done then (0, t.result)
    else match ResultAnswer(t, e.resultReply)
      case Some(page) => Absorb(t.result, page)
      case None => (-1, t.result)
  }

  /** All results are there, and they can be printed. */
  predicate Finishes(t: Task, e: Env) {
    Fetched(t, e).0 == 0 && Fetched(t, e).1.done && Printable(Fetched(t, e).1.results, WRITE_LIMIT)
  }

  /** What `writeTaskResult` puts into the result file; its failure is ignored. */
  function ResultFile(t: Task, e: Env): Option<string> {
    if Finishes(t, e) && e.paths then Some(NvtText(Fetched(t, e).1.results)) else None
  }

  /** `backend_query_result`: fetch a page unless all is there, then write the result file and start over. */
  function QueryResult<P(==)>(s: State<P>, p: P, e: Env): State<P> {
    var t := TaskOf(s.heap, p);
    var info := Fetched(t, e).1;
    if Finishes(t, e) then
      var s1 := WriteStatus(SetTask(s, p, t.(result := info, chkType := ChkTask)), p, e);
      Reschedule(SetTask(s1, p, t.(result := RESET, chkType := ChkTask)), p, e.later, Interval(ChkTask))
    else Reschedule(SetTask(s, p, t.(result := info)), p, e.later, Interval(ChkResult))
  }

  /** `isTaskChkTimeExpired`. */
  predicate Expired(t: Task, now: int) {
    now >= t.chkTime
  }

  /** `runGvmChecks`: at most the head of the run queue is looked at; the result is whether it was due. */
  function RunChecks<P(==)>(s: State<P>, e: Env): (bool, State<P>) {
    if !s.connOk || |s.runque| == 0 then (false, s)
    else
      var p := s.runque[0];
      var t := TaskOf(s.heap, p);
      if !Expired(t, e.now) then (false, s)
      else
        (true, match t.chkType
               case ChkTask => QueryTask(s, p, e)
               case ChkReport => QueryReport(s, p, e)
               case ChkResult => QueryResult(s, p, e)
               case ChkDeleted =>
                 var (ok, s') := DeleteFiles(s, p, e);
                 if ok then Free(s', p) else Reschedule(s', p, e.later, Interval(ChkDeleted)))
  }

  /** `validateGvmConn`: the connection counts as lost after two failures in a row. */
  function Ping<P>(s: State<P>, ok: bool): State<P> {
    s.(lastPingOk := ok, connOk := ok || (s.lastPingOk && s.connOk))
  }
}
