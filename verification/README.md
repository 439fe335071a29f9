# Verification model of the OpenVAS task daemon and the host, port and route code it builds on

The repository holds a daemon that keeps a registry of scan tasks for a GVM scan server: web requests create, start,
stop and delete tasks, a background scheduler follows each task through its phases, and the registry survives in a
text file. Around it stand text protocols, an intrusive ring and a sorted array set, and, from the GVM libraries, host
collections with address arithmetic, port lists, route choice and reference lists. This project models that behaviour
in Dafny and proves what it promises, for all inputs and all runs.

## How the model is laid out

| module | what it covers |
|---|---|
| `Ordering`, `StrOrder` | comparators, the tail scan that inserts, the forward scan that deletes, stable sorting; `strcmp` |
| `ListQueue`, `ListSet` | the intrusive ring with its `prev`/`next` links, and the growing sorted array, as classes (`llist.c`) |
| `Text`, `Numbers` | `strstr`, `strchr`, `g_strsplit`, `g_strstrip`, `strtol` |
| `Tokens`, `Escape`, `NvtRefs` | messages of delimited fields, in-place normalisation, bounded escaping, reference lists |
| `TaskRecord`, `StatusFile` | the task file and the status files: printers, parsers, write buffer |
| `TaskCreate`, `WebCreate` | the checks on a creation in the daemon and on the web side, and what passes both |
| `Results`, `ResultText` | fetching scan results page by page, and printing them into a buffer |
| `DaemonState` | the daemon as a state machine over a heap of tasks: one function per operation |
| `Registry` | what adding, finding, deleting and rolling back keep |
| `DaemonInv`, `DaemonSteps`, `DaemonFiles`, `DaemonCommands`, `DaemonBoot`, `DaemonRun` | the invariant, each operation, restarts, whole runs |
| `DaemonEffects`, `DaemonAnswers`, `DaemonEvents` | what each operation does to a task, in the words of the request and the replies; when commands succeed; what commands, connection tests and restarts bring about in a run |
| `DaemonProgress` | why a task that is due is reached, and what a clock beyond 31 bits does to the run queue |
| `DaemonBusy`, `DaemonReportIds`, `DaemonResults` | tasks that only their own checks can change: report ids of the wrong form, results that do not fit the buffer |
| `OwnedLists` | rings and array used for links that lie inside the objects they queue |
| `GvmTasks`, `GvmData`, `GvmDaemon`, `GvmBoot` | task objects, the shared data on such rings, commands, checks and start as methods on them, each proved to be the step of `DaemonState` |
| `Bits`, `Address`, `HostLists`, `Hosts`, `Vhosts`, `HostRange` | bit masks, network blocks, host collections (`hosts.c`) |
| `Ports`, `Routes` | port lists and route choice (`networking.c`) |

The daemon is treated in two layers. `GvmTasks` to `GvmBoot` hold the program's form: task objects whose fields and
links are changed in place, two rings of `ListQueue` that run through them, and a growing array of `ListSet`. Their
contracts equate the new state with a function of the old one, so what is proved about pointers reaches the daemon.
`DaemonInv` to `DaemonResults` prove the properties about those functions, over every sequence of commands,
background checks, connection tests and restarts. `DaemonEffects`, `DaemonAnswers` and `DaemonEvents` say field by
field what the steps do, without the helpers that the steps are made of. The scan server, the clock and the file system are parameters
(`Env`); what is asked of them is listed at `DaemonRun.Legal`. A run belongs to a `World`, which holds the results of the
server and says whether the clock may get beyond the range of the comparator (`late`) and whether the server may name
report ids of any form and times that are not time stamps (`wild`).

The invariant `DaemonInv.Inv` says, at once: the name array, the creation queue and the run queue hold exactly the
allocated tasks, each once; names are pairwise different and in order, creation times are in order, and so are check
times unless the world is late; every status goes with its phase; results under way are a stable sort of a prefix of the
server's list; every status file is read as a status that a task can have, or is refused, but that only in a wild world;
and the task file decodes to the registered tasks, or to all but one of them if it fills the write buffer.

## What the code does differently from what one would expect

These are facts about the code as it is. Each is proved, with the exact condition where there is one.

* **A report id of the wrong form brings a task to a stop, and later the daemon.** `parseTask` copies the ids that the
  server names and tests their length only. `updateTaskReport` takes them over, the status file is written with them,
  and only then does `chkUuid` refuse to ask for the report. From then on the task is in the report phase without
  running: it cannot be started, stopped or deleted, and no check changes anything about it but its next check time,
  as long as the daemon runs (`DaemonReportIds.StuckRefused`, `DaemonReportIds.StuckForever`). A status file is read
  back exactly when the new id and the one before it match the pattern (`DaemonSteps.QueryTaskSavedIff`). If they do
  not, no later start succeeds, because one refused status file fails the whole start
  (`DaemonReportIds.BadIdStopsRestart`, `DaemonReportIds.DownForever`; a concrete case is
  `DaemonReportIds.SampleBadId`). As long as all ids match or are empty and all times are time stamps, no status file is
  ever refused, in any run (`DaemonReportIds.TameRunsRestart`).
* **A report with too many results is never finished.** Its results are printed into a buffer of 16 MiB; when they do
  not fit, the task stays in the result phase, prints again at every check, and cannot be started, stopped or deleted as
  long as the daemon runs. It is finished exactly when all results are there and the list, ordered by host, fits
  (`DaemonResults.LeavesIff`, `DaemonResults.OverfullForever`). The exact room is `ResultText.PrintableIff`.
* **The writer allows 16 MiB, the reader 10 MiB.** With memory enough, a restart succeeds exactly when the task file is
  not larger than the reader's limit and no task in it has a status file that is refused (`DaemonBoot.BootRestores`).
* **A deletion that cannot be written down leaves file and registry apart.** `daemon_delete_task` clears the marks
  "schedule created" and "config created" in memory before it updates the file. When the update fails, the file keeps
  the marks. They agree exactly when no mark was cleared (`DaemonRun.PendingDeletionOnFileIff`, with a concrete case
  in `DaemonRun.PendingDeletionDiverges`).
* **A restart forgets pending deletions**: that phase is never written to a status file
  (`DaemonBoot.BootRestores`).
* **A task file of exactly the size of the buffer loses its last task**, because the last byte is overwritten by the
  terminating NUL and the write still counts as a success (`TaskRecord.ExactFitLosesLast`). Without pending deletions
  file and registry are equal exactly when the file is smaller than the buffer
  (`DaemonRun.FileIsRegistryUnlessPending`). A restart is not affected: the reader refuses a file of that size.
* **Rolling a deletion back may reorder tasks that were created in the same second**: the creation queue is restored
  exactly when the next task has another creation time (`Registry.DeleteThenAdd`). The name array is always restored.
* **The comparator of the run queue cuts the difference of two check times to 32 bits.** It gives the right sign exactly
  when the difference is zero or bit 31 of it agrees with its sign and its lower 32 bits are not all zero
  (`DaemonInv.CmpChkTimeIff`). This is always so for times below 2^31. Beyond that a task that is due at once can be
  queued behind one that is not, and the scheduler takes no notice of it (`DaemonProgress.AtOnceIsFirstIff`,
  `DaemonProgress.LateClockHidesDue`).
* **The web side lets requests through that the daemon refuses or reads differently.** A schedule type without a leading
  digit is refused. A name or a text may hold the character that separates the fields of a message, and then the fields
  do not arrive as they were sent. Without that character, the daemon accepts exactly the requests whose schedule type
  starts with a digit (`WebCreate.AcceptedArrivesIff`, `WebCreate.DelimiterInName`).
* **A schedule type beyond the five known ones passes the checks of both sides**, and only the request to the scan
  server stops it: a task can come of a creation exactly for the known types (`TaskCreate.RecordableIff`).
* **An address range up to the greatest address is never left**: the counter wraps. With a maximum the call answers
  `NULL`, without one it does not return (`HostRange.EndlessIff`, `HostRange.EndlessIff6`, `HostRange.NewWithMax`).
  IPv4 blocks are not affected (`HostRange.BlocksEnd`); of the IPv6 blocks only the last one of two addresses and the
  last one of a single address are (`HostRange.Blocks6EndIff`).

## Model

| member | source | states |
|---|---|---|
| ListQueue.Queue.AddPrev | llist.c:28-35 | linking a node before another one inserts it at that gap of the ring, and all links stay consistent |
| ListQueue.Queue.Unlink | llist.c:20-25 | unlinking closes the gap, leaves the node pointing at itself, and keeps all other links |
| ListQueue.Queue.FindPlace | llist.c:124-143 | the walk from the tail stops behind the last node that is not greater |
| ListQueue.Queue.PushBack | llist.c:124-143 | the ring becomes the sequence with the node inserted behind the last node that is not greater, and the count is its length |
| ListQueue.PlaceKeepsSorted | llist.c:124-143 | a sorted ring stays sorted when a node is pushed |
| ListQueue.Queue.DelItem | llist.c:169-181 | a linked node leaves the ring, which keeps all others in order; a detached node answers -1 and nothing changes |
| ListQueue.Queue.PopHead | llist.c:146-157 | the first node is taken out and detached; an empty ring answers null |
| ListQueue.Queue.GetHead | llist.c:159-167 | the first node, or null exactly for an empty ring |
| ListQueue.Queue.RequeList | llist.c:183-190 | a linked node moves to where its present key belongs; a detached one stays out |
| ListQueue.MoveRestoresOrder | llist.c:183-190 | when one key was overwritten and the others are in order, requeueing that node puts the whole ring in order again |
| ListQueue.Queue.ForEach | llist.c:192-209 | every node is visited once, in order, up to the first nonzero answer, also when callbacks unlink the node they are given; the ring keeps exactly the nodes that were not unlinked |
| ListSet.Set.Grow | llist.c:244-263 | growing keeps the contents and fails exactly when the array is full and there is no memory |
| ListSet.Set.AddToSet | llist.c:266-291 | insertion with growth puts the element in its place, keeps all others, and is refused only when the array cannot grow |
| ListSet.Set.DelFromSet | llist.c:293-321 | the first element equal to the key leaves, all others keep their order; without one nothing changes |
| ListSet.Set.Search | llist.c:234-242 | the answer is the element at which binary search on the contents ends, if there is one |
| ListSet.BinarySearchComplete | llist.c:212-231 | on a sorted array binary search answers if and only if some element compares equal |
| ListSet.BinarySearchIsScan | llist.c:212-231 | binary search finds a key exactly when the linear scan does, and with different keys at the same position |
| Ordering.FoundIffMember | llist.c:293-321 | the early exit of the linear scan misses nothing on a sorted array |
| Ordering.InsertIndexUnique | llist.c:124-143 | the tail scan stops in exactly one place |
| Ordering.InsertStable | llist.c:124-143 | insertion goes behind every element it ties with and moves no tie |
| Ordering.StableSortUnique | llist.c:124-143 | a stable sort is determined by what it sorts |
| Ordering.RequeueSorted | llist.c:183-190 | taking an element out and inserting it with a new key keeps the order and all other elements |
| StrOrder.StrCmpLawful | openvas_business.c:795-813 | the comparators by name and by creation time are total preorders |
| Tokens.Reader.GetNextToken | comm_misc.c:381-418 | the token in front of the needle is delivered and the cursor moves past it; at the end of the text or for a token that does not fit nothing moves |
| Tokens.Reader.GetNextTokenInt | comm_misc.c:420-438 | additionally, only tokens that start with a digit give a number |
| Tokens.RoundTripIff | comm_misc.c:381-418 | a message comes back field by field, empty fields included, if and only if no field holds the delimiter or fills its buffer |
| Tokens.DecodedFits | comm_misc.c:381-418 | whatever is decoded fits its buffers and is free of the delimiter |
| Tokens.CreateMessageArrives | task_openvas.c:230-241 | the seven fields of a create message arrive at the daemon each in its own parameter, the schedule type as a number, unless the schedule type does not start with a digit, in which case they are refused |
| Tokens.GetCreateTaskParam | openvas_business.c:1188-1255 | reading the tokens one by one gives the decoded parameters, and fails exactly when decoding does |
| Tokens.ChkServices | task_openvas.c:1276-1332 | a text passes exactly when it is a list of known services |
| Tokens.OneService | task_openvas.c:1276-1332 | a list without a comma passes exactly if it is one of the eight services |
| Tokens.ServiceListStep | task_openvas.c:1276-1332 | a list of services is a known service, followed by nothing or by a comma and a list that may be empty |
| Escape.EscapeHosts | task_openvas.c:574-607 | the buffer is overwritten in place by the normalised host list, never beyond the read cursor; 0 exactly when there was a host |
| Escape.NormalizedKeepsHosts | task_openvas.c:574-607 | normalising keeps the hosts and their order, and doing it twice is doing it once |
| Escape.TokensAreHosts | task_openvas.c:574-607 | every host of the result is a non-empty run of digits, dots, slashes and hyphens |
| Escape.OthersSeparate | task_openvas.c:574-607 | every other character separates: the hosts on its two sides are read on their own |
| Escape.EscapeXml | task_openvas.c:546-572 | the whole escaped text is written or nothing, and it fails exactly for the empty text and when the escaped length exceeds the room minus one |
| Escape.UnescapeEscape | task_openvas.c:546-572 | escaped text can be decoded to the original |
| NvtRefs.Nvti.AddRefs | gvm_install/gvm-libs/base/nvti.c:1864-1905 | each non-blank piece adds one reference, with the given type or with the type in front of its first colon; untyped pieces without a type are dropped |
| NvtRefs.AddedWithKind | gvm_install/gvm-libs/base/nvti.c:1864-1905 | with a type, the added references are one for each piece that is not blank, in order: that type, the stripped piece as the id, the text that was given |
| NvtRefs.AddedWithoutKind | gvm_install/gvm-libs/base/nvti.c:1864-1905 | without a type, they are one for each piece with a colon, in order: the type in front of it, the id behind it, and an empty text |
| NvtRefs.Nvti.Refs | gvm_install/gvm-libs/base/nvti.c:819-884 | the printed list holds the selected references in order, and null stands for none |
| NvtRefs.RoundTripIff | gvm_install/gvm-libs/base/nvti.c:1864-1905 | reading a printed typed list gives the same types and ids in order if and only if types hold no colon or comma, ids no comma, and the outer ends are trimmed |
| NvtRefs.PrintThenAdd | gvm_install/gvm-libs/base/nvti.c:819-884 | adding the typed output of the printer restores exactly the printed references under the same condition, whatever was selected |
| NvtRefs.KindRoundTrip | gvm_install/gvm-libs/base/nvti.c:1864-1905 | printing what was added with a type, selected by it and without types, gives the stripped pieces joined by a comma and a space, or null if all are blank, and adding that again gives the same references |
| NvtRefs.SelectOrExclude | gvm_install/gvm-libs/base/nvti.c:840-881 | selecting a type and excluding it divide the references: each is printed with exactly one of the two |
| Text.IgnoringCaseIff | gvm_install/gvm-libs/base/nvti.c:843-857 | two texts count as the same type exactly when they have the same length and differ in the case of letters only |
| Text.TrimMeaning | gvm_install/gvm-libs/base/nvti.c:1881-1884 | stripping takes white space off both ends and nothing else |
| NvtRefs.AllParsedClean | gvm_install/gvm-libs/base/nvti.c:1864-1905 | whatever the parser reads is of the form that the printer can carry |
| TaskRecord.RecordRoundTripIff | openvas_business.c:1655-1849 | a printed record parses back to itself if and only if its fields pass the parser's patterns, sizes and checks |
| TaskRecord.FieldsFound | openvas_business.c:1655-1849 | under which key each field of a printed record is found again |
| TaskRecord.FirstEndMark | openvas_business.c:1663-1680 | the end mark never occurs inside the body of a record |
| TaskRecord.FileRoundTripIff | openvas_business.c:1876-1934 | printing a list of records and parsing the file gives the same list in order if and only if every record is valid |
| TaskRecord.FileValid | openvas_business.c:1655-1849 | every record read from any file is valid |
| TaskRecord.ParseTaskRecords | openvas_business.c:1655-1849 | the parse loop gives exactly the records between the marks, and fails when one of them is bad |
| TaskRecord.Buffer.WriteTaskRecord | openvas_business.c:1876-1914 | a record with room to spare is appended, one that fits exactly loses its last byte, a longer one is refused |
| TaskRecord.Buffer.WriteTaskRecords | openvas_business.c:1916-1934 | writing all records leaves in the buffer what the limit allows, or fails |
| TaskRecord.ExactFitLosesLast | openvas_business.c:1906-1912 | when the records fill the buffer exactly, the write succeeds and the last record cannot be read back |
| TaskCreate.CreatedIsValid | openvas_business.c:1311-1473 | every record that task creation arrives at can be carried by the task file |
| TaskCreate.RecordableIff | openvas_opts.c:359-464 | parameters that pass the daemon's own checks can lead to a task if and only if the schedule type is one of the five known ones: the checks let every other type pass with a time stamp, and only the request to the server stops it |
| WebCreate.QuotedIff | task_openvas.c:673-790 | a request matches the pattern with given fields if and only if it is the labels and these fields in quotes, and no field holds a quote or a backslash |
| WebCreate.NormalizedIsHostList | task_openvas.c:378-390 | every host list that the lenient pattern of the web side accepts is normalised to one that the strict pattern of the daemon accepts, with the same ranges in the same order, and no longer |
| WebCreate.WebCheckIff | task_openvas.c:673-832 | of the requests that fit the buffers and the lenient pattern for hosts, the web side accepts exactly those on which the checks of the daemon pass once the hosts are normalised, and that is what it sends |
| WebCreate.AcceptedArrivesIff | task_openvas.c:204-247 | the fields of an accepted request arrive as sent if and only if none holds the delimiter; then the daemon accepts them if and only if the schedule type starts with a digit, and they can lead to a task if and only if it is also a known one |
| WebCreate.DelimiterInName | task_openvas.c:795-800 | every accepted request has a variant with the delimiter in its name that is accepted too and does not arrive as sent |
| TaskCreate.ParsedInBuffers | openvas_business.c:1188-1255 | parameters read from a message fit the buffers they are read into |
| Results.ResultInfo.PushNodes | openvas_opts.c:730-836 | the results in front of the first damaged element are queued by host, and the answer says whether there was one |
| Results.ResultInfo.ParseResult | openvas_opts.c:673-874 | the books after a page: total, queue, next position, done |
| Results.ResultInfo.Reset | openvas_opts.c:627-636 | all books are back at the start |
| Results.AbsorbPaged | openvas_opts.c:673-874 | any reply, damaged as it may be, keeps the queue a stable sort by host of the first results, the next query right behind them, and done exactly when all are there |
| Results.RunPaged | openvas_opts.c:1157-1205 | the same after any mix of full pages, failed queries and pages that break off, with nothing lost and nothing twice |
| Results.FetchCompletes | openvas_opts.c:1157-1205 | once enough pages came through undamaged, done is set and the queue is the stable sort of the whole list, with the hosts in the order of `strcmp` |
| ResultText.PrintNvts | openvas_opts.c:1091-1127 | printing succeeds exactly when every result meets enough room, and then the buffer holds all lines in order |
| ResultText.LineFields | openvas_opts.c:1101-1127 | between the bars of a printed line stand host, name, threat, severity, port, score and time, in this order |
| ResultText.TextConcat | openvas_opts.c:1119-1127 | the lines stand in the order of the results |
| ResultText.PrintableIff | openvas_opts.c:1101-1127 | a list can be printed if and only if it is empty, or all of it fits and more than the margin is left before the last result |
| ResultText.ByHostSorts | openvas_opts.c:636-646 | putting the results of a list in one by one gives its stable sort by host |
| ResultText.ManyAreOversized | openvas_opts.c:1101-1127 | however short its results are, a report with at least a ninth as many as the buffer has bytes cannot be printed |
| Registry.AddInOrder | openvas_business.c:1501-1512 | adding under a new name keeps array and queue in order with the same tasks, and cannot fail while there is a free slot |
| Registry.DeleteInOrder | openvas_business.c:1542-1561 | deleting by the name of a task takes out that very task and nothing else |
| Registry.FindIsLookup | openvas_business.c:1563-1573 | finding gives the one task of that name, and null exactly when there is none |
| Registry.OneTaskPerName | openvas_business.c:1501-1512 | no two slots of the name array hold tasks of the same name |
| Registry.AddThenDelete | openvas_business.c:2146-2181 | rolling a failed creation back restores name array and creation queue as they were |
| Registry.DeleteThenAdd | openvas_business.c:2192-2206 | rolling a failed deletion back cannot fail, restores the name array, and restores the creation queue exactly when the next task has another creation time |
| DaemonInv.CmpChkTimeIff | openvas_business.c:815-822 | for all times: the comparator gives the right sign if and only if they are equal or the lower 32 bits of the difference, read as a signed number, have its sign; within 32 bits it gives the difference itself |
| DaemonInv.RequeueRestores | openvas_business.c:1534-1540 | requeueing a task whose check time was changed in place restores the order of the run queue, with every task in it once |
| DaemonInv.TouchKeeps | openvas_opts.c:1346-1352 | changing a task within the rules of its phase, saving statuses and requeueing it keeps the invariant |
| DaemonSteps.QueryTaskKeeps | openvas_opts.c:1261-1310 | looking for a new report keeps the invariant, whatever ids the server names |
| DaemonSteps.QueryReportKeeps | openvas_opts.c:1207-1259 | looking at the status of a report keeps the invariant: whatever status, progress and times the server reports |
| DaemonSteps.QueryResultKeeps | openvas_opts.c:1157-1205 | fetching a page of results keeps the invariant |
| DaemonSteps.QueryTaskSavedIff | openvas_opts.c:1055-1066 | the status file that a new report leads to gives the status of the task back if and only if the new report id and the one before it match the id pattern; with ids on one line it is refused otherwise |
| DaemonSteps.WrittenStatusOk | openvas_business.c:2121-2144 | whatever ids a task has, its status file is either refused or read as a status that goes with its phase, and it is not refused if ids and times are well formed |
| DaemonEffects.TaskEffect | openvas_opts.c:1261-1344 | with an answer of the server, a check of an idle task takes over the report that runs or, without one, the last one, exactly if one is named and the task does not know it yet: the old id becomes the last one, the counts are those of the answer, status and times start over, and the next check is due at once; otherwise only the check time changes |
| DaemonEffects.WordsOf | openvas_opts.c:320-341 | the status that a word of the server stands for |
| DaemonEffects.ReportEffect | openvas_opts.c:1207-1259 | a check of a report takes over status, times and a progress within 0 to 100: one that runs or waits is looked at again after 120 seconds, a new one makes the task idle for 300, one that is done, stopped or interrupted has its results fetched at once; if neither status nor progress have changed, only the check time does |
| DaemonEffects.NoReplyEffect | openvas_opts.c:1207-1310 | without a usable answer only the check time changes |
| DaemonEffects.ResultEffect | openvas_opts.c:1157-1205 | a check that completes a report writes the results, makes the task idle, forgets them and writes the status file; any other one keeps the books of the fetch and comes again after five seconds |
| StatusFile.StatusRoundTripIff | openvas_business.c:72-82 | printing a status and parsing the text gives it back if and only if its fields pass the parser's patterns and ranges and the task id is one |
| StatusFile.StatusExact | openvas_business.c:1936-2075 | for fields of one line each the parser gives the whole status back or fails, nothing in between |
| StatusFile.TextsFound | openvas_business.c:1936-2075 | under which key each text of a status is found again, if it matches the pattern of that key |
| StatusFile.NumbersFound | openvas_business.c:1936-2075 | under which key each number of a status is found again, with statuses and phases counted in the order of their declaration |
| StatusFile.UnreadableFails | openvas_business.c:1936-2075 | reading fails exactly for a status that the parser does not accept, whatever the report ids are |
| StatusFile.WrittenKeepsPhase | openvas_business.c:1936-2075 | even report ids with line breaks or marks in them cannot make the parser read another status, phase or progress than the printed one |
| DaemonFiles.WrittenMirrors | openvas_business.c:1916-1934 | after a successful write the file decodes to the registered tasks in creation order, or to all but the last one if it fills the buffer |
| DaemonFiles.CreateFilesStep | openvas_business.c:2146-2181 | either the task is registered, written and queued, or the registry is exactly as before |
| DaemonFiles.DeleteFilesStep | openvas_business.c:2183-2209 | either the task leaves registry, file and run queue, or nothing changes but the order of ties in the creation queue |
| DaemonCommands.CreateTaskKeeps | openvas_business.c:1311-1473 | creation keeps the invariant; when it does not succeed, registry and file are as before |
| DaemonCommands.CreatedIsFound | openvas_business.c:1311-1473 | a created task is found under its name, and all other names lead where they led before |
| DaemonCommands.CreatedIsIdle | openvas_business.c:1433-1443 | a created task can be started and deleted at once but not stopped, and is due exactly from the longest interval on |
| DaemonEffects.CreateEffect | openvas_business.c:1311-1473 | field by field, what a created task is made of: the request, the answers of the server, the default port list and the clock |
| DaemonAnswers.CreateAnswer | openvas_business.c:1311-1473 | the code that creating answers, down to the exact room that the new record needs in the buffer behind the others |
| DaemonAnswers.CreateUndone | openvas_business.c:2146-2181 | a creation whose files do not come through takes the directory back, if it was made, and leaves nothing else but possibly a larger name array |
| DaemonCommands.StartStopKeeps | openvas_business.c:825-977 | starting and stopping keep the invariant |
| DaemonEffects.StartStopEffect | openvas_business.c:825-977 | a start or stop that succeeds makes the next check of that task due at once and changes nothing else; one that does not changes nothing |
| DaemonAnswers.AnswersOf | openvas_business.c:825-1186 | the code that starting, stopping and deleting answer, from the key, the connection, what is known under the name, its phase and the server |
| DaemonCommands.CommandsRespectPhases | openvas_business.c:2262-2289 | in every reachable state starting and deleting succeed exactly for a known task in the idle phase, stopping exactly for one that runs, which is only so while its report is followed |
| DaemonCommands.DeleteTaskKeeps | openvas_business.c:1044-1186 | deletion keeps the invariant, whether it comes through or is left to the background |
| DaemonAnswers.DeleteEffect | openvas_business.c:1044-1186 | a deletion that succeeds removes task, queue entries and status file exactly if the file can be written and the other records fit; otherwise it marks the task for the background and clears the marks of what the server has deleted; one that fails changes nothing |
| DaemonAnswers.BackgroundDelete | openvas_opts.c:1425-1436 | the background completes a deletion under the same condition, or tries again after the longest interval |
| DaemonEvents.CommandsTakeEffect | openvas_business.c:825-1186 | a running daemon that answers Ok to a start or stop has the next check of the task due at once, after a deletion it has forgotten or marked the task, and after any other answer it is as before |
| DaemonEvents.CreationTakesEffect | openvas_business.c:1311-1473 | a running daemon that answers Ok to a creation has the new task next to all others, and otherwise no other tasks and the same file |
| DaemonCommands.RunChecksKeeps | openvas_opts.c:1389-1443 | a background check keeps the invariant, in every phase, whatever ids the server names |
| DaemonCommands.IdleMeansNothingDue | openvas_opts.c:1395-1414 | an idle answer with a good connection means that no task is due |
| DaemonCommands.ResultsComplete | openvas_opts.c:1174-1197 | when a task leaves the result phase, all results of its report have been fetched, once each, with the hosts in the order of `strcmp` |
| DaemonBoot.AddAllInOrder | openvas_business.c:1655-1849 | loading records in file order registers exactly them, in that order |
| DaemonBoot.ScheduleAllQueues | openvas_opts.c:1364-1387 | the first scheduling queues every task once, in order, and changes nothing else |
| DaemonBoot.BootRestores | openvas_business.c:2601-2661 | with memory enough a restart fails if and only if the file is larger than the reader's limit or the status file of a recorded task is refused; if it succeeds, the invariant and exactly the records of the file are restored, with no deletion pending |
| DaemonEvents.RestartEffect | openvas_business.c:2601-2661 | after a start each task has a record of the file and, if there is a status file with a status, that status, phase, progress, times and report ids, and otherwise those of a new task; its first check is due after the longest interval, and there is no connection yet |
| DaemonEvents.RestartRemembers | openvas_business.c:2103-2144 | a task whose status has been written is after a restart where it was before, but for counts, fetched results and check time |
| DaemonEvents.RestartOrDown | openvas_business.c:2601-2661 | a restart never goes on with what was in memory: it starts from the files, or no daemon runs, exactly under the conditions of a failed start; the files stay |
| DaemonEvents.TestsEffect | openvas_opts.c:1603-1628 | after two tests or more the connection counts as good exactly if one of the last two succeeded, and nothing else has changed |
| DaemonRun.StepKeeps | openvas_opts.c:1389-1443 | every command, check, connection test and restart, failed restarts included, keeps the invariant of the daemon or of its files, in every world |
| DaemonRun.EveryRunIsSafe | openvas_business.c:2601-2661 | from a first start without files the invariant holds in every state of every run, over any number of restarts, with any clock, any report ids and any size of the task file; the order of check times is part of it while the clock stays below 2^31 |
| DaemonRun.FileIsRegistryUnlessPending | openvas_business.c:2183-2209 | while no deletion is pending, the file decodes to exactly the records of the registry if and only if it is smaller than the write buffer |
| DaemonRun.PendingDeletionOnFileIff | openvas_business.c:1124-1180 | after a deletion that could not be written down, file and registry agree if and only if no created mark was cleared |
| DaemonRun.PendingDeletionDiverges | openvas_business.c:1124-1180 | a concrete deletion after which the file still says that there is a schedule to delete and the registry does not |
| DaemonRun.PendingStays | openvas_opts.c:1425-1436 | except for a restart, a pending deletion ends only with the removal of the task |
| DaemonRun.DeletedIsGone | openvas_business.c:1044-1186 | after a deletion that came through the name is free, and all other names lead where they led before |
| DaemonRun.ChecksTouchHead | openvas_opts.c:1389-1443 | a check changes no task but the head of the run queue |
| DaemonProgress.CheckAhead | openvas_opts.c:1389-1443 | a check that looks at another task brings a due task closer to its own check: the head is put behind it, moves on in its phases or is deleted |
| DaemonProgress.EveryDueTaskIsReached | openvas_opts.c:1389-1443 | while the connection holds, a task that is due is looked at within three checks for each task of the registry, whatever the checks find |
| DaemonProgress.AtOnceIsFirstIff | openvas_business.c:815-822 | a task to be checked at once is queued in front of another one if and only if the lower 32 bits of the other's check time are a positive signed number |
| DaemonProgress.LateClockHidesDue | openvas_opts.c:1395-1414 | with a check time beyond the range in front, a due task is overlooked and the scheduler answers idle |
| DaemonBusy.CommandsWait | openvas_business.c:825-1186 | nothing but its own checks changes a busy task, except for its next check time |
| DaemonResults.FinishesIff | openvas_opts.c:1157-1205 | a check finishes a report if and only if all its results are there and the whole list of the server, ordered by host, fits the buffer; that list is what the result file gets |
| DaemonResults.LeavesIff | openvas_opts.c:1174-1197 | the task leaves the result phase under exactly the same condition |
| DaemonResults.OverfullForever | openvas_opts.c:1091-1127 | a task whose results do not fit never leaves the result phase as long as the daemon runs, and all commands refuse it |
| DaemonReportIds.TameRunsRestart | openvas_business.c:1936-2075 | in every run in which all ids and times are of the right form no status file is ever refused, and with memory enough the daemon can be started again if and only if its file is within the reader's limit |
| DaemonReportIds.RestartFailsIff | openvas_business.c:2103-2119 | a daemon that stops now cannot be started again if and only if its file is too large or some registered task has a status file that is refused |
| DaemonReportIds.BadIdStopsRestart | openvas_opts.c:1312-1344 | once a report id of one line and of the wrong form is written down, no start succeeds |
| DaemonReportIds.DownForever | openvas_business.c:2601-2661 | when a start fails over a status file or the size of the task file, so does every later one |
| DaemonReportIds.StuckRefused | openvas_business.c:2262-2289 | a task with a report id of the wrong form is neither started nor stopped nor deleted by any command |
| DaemonReportIds.StuckForever | openvas_business.c:420-451 | nor does anything else that happens while the daemon runs change it, but for its next check time |
| DaemonReportIds.SampleBadId | openvas_opts.c:1055-1066 | the report id "x" is such a case: the task is stuck and the daemon cannot be started again |
| OwnedLists.Push | llist.c:124-143 | pushing the link of an object inserts the object into the sequence of queued objects by the value that its link shows; all other links stay as they are |
| OwnedLists.Remove | llist.c:169-181 | unlinking takes the object out of that sequence, and only a queued one |
| OwnedLists.Requeue | llist.c:183-190 | a queued object moves to where its present value belongs, another one stays out |
| OwnedLists.QueuedIff | llist.c:16-18 | the test for an empty link tells exactly whether the object is queued |
| OwnedLists.AddOwner | llist.c:266-291 | an object is inserted into the array by its value, or nothing changes |
| OwnedLists.DelOwner | llist.c:293-321 | the first object of that value is taken out, if there is one |
| OwnedLists.FindOwner | llist.c:234-242 | searching the array for a value ends where binary search on the values ends |
| GvmTasks.GvmTask.UpdateReport | openvas_opts.c:1312-1344 | the current report moves to the last one exactly when the server names another |
| GvmData.GvmData.AddToNameset | llist.c:266-291 | the task goes to its place in the name array, which may move to a larger one, or nothing changes |
| GvmData.GvmData.PushCreated | llist.c:124-143 | the link of the task goes behind all tasks that were not created later, and no other part of the data is touched |
| GvmData.GvmData.AddTask | openvas_business.c:1501-1512 | both together, as one step of the state machine |
| GvmData.GvmData.DelTask | openvas_business.c:1542-1561 | the task of that name leaves array and queue, or nothing changes |
| GvmData.GvmData.FindTask | openvas_business.c:1563-1573 | the task of a name, from those that are allocated |
| GvmData.GvmData.AddRunTask | openvas_business.c:1514-1522 | a task that is not queued is queued by its check time |
| GvmData.GvmData.DelRunTask | openvas_business.c:1524-1532 | a queued task leaves the run queue |
| GvmData.GvmData.QueRunTask | openvas_business.c:1534-1540 | a queued task moves to where its check time belongs |
| GvmData.GvmData.Reschedule | openvas_opts.c:1202-1203 | the check time is overwritten in the link, where the comparator reads it, and then the ring is put right |
| GvmData.GvmData.CollectRecords | llist.c:192-209 | walking the ring meets the records of all tasks in creation order |
| GvmData.GvmData.WriteTaskFile | openvas_business.c:1916-1934 | the file is replaced by the whole registry in creation order, or left alone |
| GvmData.GvmData.WriteTaskStatusFile | openvas_business.c:2121-2144 | the status file of the task is the printed text of its status, or is left alone |
| GvmData.GvmData.CreateTaskRelationFiles | openvas_business.c:2146-2181 | creation of files with its roll back, as one step of the state machine |
| GvmData.GvmData.DelTaskRelationFiles | openvas_business.c:2183-2209 | deletion of files with its roll back, as one step of the state machine |
| GvmData.GvmData.NewGvmTask | openvas_business.c:1476-1491 | a new task has empty fields and empty links, is in no queue and shares no object with the data |
| GvmData.GvmData.FreeTask | openvas_business.c:1493-1499 | a task is freed only when no queue leads to it |
| GvmDaemon.BackendQueryTask | openvas_opts.c:1261-1310 | the step of the state machine, with all other tasks untouched |
| GvmDaemon.BackendQueryReport | openvas_opts.c:1207-1259 | the step of the state machine, with all other tasks untouched |
| GvmDaemon.BackendQueryResult | openvas_opts.c:1157-1205 | the step of the state machine, with all other tasks untouched, and the text that goes into the result file |
| GvmDaemon.RunGvmChecks | openvas_opts.c:1389-1443 | the step of the state machine; a deleted task is freed only when no queue leads to it |
| GvmDaemon.DaemonStartTask | openvas_business.c:825-903 | answer and new state of the start command |
| GvmDaemon.DaemonStopTask | openvas_business.c:905-977 | answer and new state of the stop command |
| GvmDaemon.DaemonDeleteTask | openvas_business.c:1044-1186 | answer and new state of the delete command; the task is freed only when no queue leads to it |
| GvmDaemon.DaemonCreateTask | openvas_business.c:1311-1473 | answer and new state of the create command; a task that was not registered is freed |
| GvmTasks.GvmTask.Restore | openvas_business.c:1936-2075 | the fields are overwritten one after the other until one is refused |
| DaemonState.RestoredIff | openvas_business.c:1936-2075 | none is refused if and only if the parser accepts the text, and then all fields are those of the text |
| GvmBoot.ReadTaskStatus | openvas_business.c:1936-2101 | a status file that is accepted is taken over, one that is refused fails with the fields in front of the refused one overwritten, and without one nothing changes |
| GvmBoot.AddRecords | openvas_business.c:1824-1834 | records are registered one after the other, and the first failure fails all |
| GvmBoot.ReadAllTaskStatus | openvas_business.c:2103-2119 | all statuses are loaded, or the start fails |
| GvmBoot.AddGvmChecks | openvas_opts.c:1381-1387 | every task is queued for its first check |
| GvmBoot.InitDaemon | openvas_business.c:2601-2661 | the state that the files describe on new and different objects, or no daemon, and then none with more objects either |
| Address.CidrBlockIps | gvm_install/gvm-libs/base/hosts.c:210-231 | for blocks of 1 to 30 bits the bounds are network address plus one and broadcast address minus one |
| Address.UsableAddresses | gvm_install/gvm-libs/base/hosts.c:210-231 | the range consists of exactly the addresses of the block but its first and its last |
| Address.ShortRangeIps | gvm_install/gvm-libs/base/hosts.c:364-399 | the last byte is replaced |
| Address.ClearHostBits | gvm_install/gvm-libs/base/hosts.c:601-608 | the byte loop rounds down to the block |
| Address.SetHostBits | gvm_install/gvm-libs/base/hosts.c:610-617 | the byte loop gives the last address of the block |
| Address.Increment | gvm_install/gvm-libs/base/hosts.c:623-631 | the carry loop adds one modulo 2^128 |
| Address.Decrement | gvm_install/gvm-libs/base/hosts.c:632-640 | the borrow loop subtracts one modulo 2^128 |
| Address.Cidr6BlockIps | gvm_install/gvm-libs/base/hosts.c:581-643 | with N the network address: (A, A) for 128 bits, (N, N+1) for 127, (N+1, N+2^(128-b)-2) for 1 to 126 |
| Address.ShortRange6Ips | gvm_install/gvm-libs/base/hosts.c:776-812 | the last two bytes are replaced |
| Address.MemCmpIsOrder | gvm_install/gvm-libs/base/hosts.c:1235-1241 | comparing bytes is comparing numbers |
| Hosts.FillGaps | gvm_install/gvm-libs/base/hosts.c:1014-1044 | the entries that are not null move to the front in their order, and everything behind them is null |
| Hosts.CompactMembers | gvm_install/gvm-libs/base/hosts.c:1014-1044 | compaction keeps exactly the entries that are not null |
| Hosts.HostSet.Grow | gvm_install/gvm-libs/base/hosts.c:977-984 | four times the room, the contents kept, the new part null |
| Hosts.HostSet.Push | gvm_install/gvm-libs/base/hosts.c:974-987 | the host is appended, and all slots from the count on stay null |
| Hosts.HostSet.Add | gvm_install/gvm-libs/base/hosts.c:974-987 | the same for a collection without gaps, as one more entry |
| Hosts.HostSet.Deduplicate | gvm_install/gvm-libs/base/hosts.c:1052-1096 | the list becomes its deduplication, and hosts plus duplicates stay the same number |
| HostLists.DedupMeaning | gvm_install/gvm-libs/base/hosts.c:1052-1096 | the first host of each value stays, in order, with the virtual hosts of all of them in order |
| HostLists.DedupTwice | gvm_install/gvm-libs/base/hosts.c:1052-1096 | deduplicating twice is deduplicating once |
| Hosts.HostSet.Exclude | gvm_install/gvm-libs/base/hosts.c:1584-1631 | the list becomes the ordered difference, the answer is how many went, and hosts plus removed stay the same number |
| HostLists.KeepMeaning | gvm_install/gvm-libs/base/hosts.c:1604-1622 | exclusion keeps exactly the hosts of other values, each as often as it was there, in their order |
| HostLists.KeepTwice | gvm_install/gvm-libs/base/hosts.c:1604-1622 | excluding in two steps is excluding the union |
| Hosts.HostSet.ResolveNames | gvm_install/gvm-libs/base/hosts.c:1453-1495 | the loop ends although it extends its own bound, takes every name out, and appends one host for each address |
| Hosts.HostSet.Resolve | gvm_install/gvm-libs/base/hosts.c:1447-1505 | addresses stay in order, resolved hosts follow in order, duplicates are merged if there are new hosts, and unresolved names are reported |
| Hosts.ResolvedHasNoNames | gvm_install/gvm-libs/base/hosts.c:1447-1505 | no host is a name after resolution |
| HostLists.NameReported | gvm_install/gvm-libs/base/hosts.c:1462-1491 | a name is reported exactly when it has no address, and otherwise stands behind a host for each |
| HostLists.AddressesMeaning | gvm_install/gvm-libs/base/hosts.c:1447-1505 | hosts that are addresses stay, each as often as it was there, in order |
| HostLists.ResolvedMeaning | gvm_install/gvm-libs/base/hosts.c:1462-1486 | a name gives one host for each of its addresses, in the order of the answer, with the name as its virtual host |
| HostLists.ResolutionConcat | gvm_install/gvm-libs/base/hosts.c:1453-1495 | new hosts follow the order of the names, and unresolved names are reported in the opposite order |
| Vhosts.ExcludeVhosts | gvm_install/gvm-libs/base/hosts.c:1515-1557 | the loop ends although it starts over after each deletion; what is left is the filter, and the answer is how many went |
| Vhosts.UnmatchedMeaning | gvm_install/gvm-libs/base/hosts.c:1515-1557 | exactly the virtual hosts go that some stripped word names but for case; each of the others stays as often as it was there |
| Vhosts.UnmatchedTwice | gvm_install/gvm-libs/base/hosts.c:1515-1557 | excluding the same words again removes nothing more |
| HostRange.Expand4 | gvm_install/gvm-libs/base/hosts.c:1192-1213 | whenever the loop is left at all, a range is expanded completely exactly when it does not end at the greatest address and stays within the maximum; then its addresses are appended |
| HostRange.Expand6 | gvm_install/gvm-libs/base/hosts.c:1235-1265 | the same for IPv6, counted and compared byte by byte |
| HostRange.RangeMeaning | gvm_install/gvm-libs/base/hosts.c:1196-1213 | what is appended is every address from first to last, once, ascending |
| HostRange.EndlessIff | gvm_install/gvm-libs/base/hosts.c:1196-1213 | without a maximum the IPv4 loop is never left exactly when the last address is the greatest one |
| HostRange.EndlessIff6 | gvm_install/gvm-libs/base/hosts.c:1235-1265 | without a maximum the IPv6 loop, with its counter of bytes and its byte order, is never left exactly when the last address is the greatest one |
| HostRange.BlocksEnd | gvm_install/gvm-libs/base/hosts.c:210-231 | an IPv4 block never reaches the greatest address |
| HostRange.Blocks6EndIff | gvm_install/gvm-libs/base/hosts.c:581-643 | an IPv6 block is endless if and only if it has one or two addresses and is the last of its size |
| HostRange.ElementMeaning | gvm_install/gvm-libs/base/hosts.c:1141-1282 | an element is expanded to exactly the addresses that it names: a block to its usable ones, or all if it has only one or two, a short range up to another last number, a long one up to another address |
| HostRange.AddElement | gvm_install/gvm-libs/base/hosts.c:1141-1282 | one element is taken in completely, or the list fails |
| HostRange.NewWithMax | gvm_install/gvm-libs/base/hosts.c:1109-1292 | null exactly when an element is invalid, a range is endless or the hosts exceed the maximum; otherwise all hosts in order, deduplicated if there are several elements, and never more than a maximum other than 0 |
| HostRange.ExcludeWithMax | gvm_install/gvm-libs/base/hosts.c:1570-1632 | -1 and no change exactly when there is no list or it is not accepted; otherwise exactly the hosts with a value in the list go, the rest stays in order, and the answer is how many went |
| Numbers.ShapeRead | gvm_install/gvm-libs/base/networking.c:521-534 | a number behind white space and a sign is read as its decimal value, or as the nearest one in range, and reading stops behind its last digit |
| Numbers.NumberBefore | gvm_install/gvm-libs/base/networking.c:521-534 | what follows a number, starting with a hyphen, does not change how it is read |
| Ports.ValidIffInterval | gvm_install/gvm-libs/base/networking.c:492-587 | the validator accepts an element if and only if it is blank, a port, or two ports in order around the first hyphen |
| Ports.ValidateElement | gvm_install/gvm-libs/base/networking.c:490-587 | the checks on one element |
| Ports.ValidatePortRange | gvm_install/gvm-libs/base/networking.c:464-596 | 0 exactly for a list that is not blank and whose elements are blank or intervals of ports |
| Ports.ParseElement | gvm_install/gvm-libs/base/networking.c:652-715 | on a valid element the second parser reads the same numbers, its assertion holds, and the specifier sets the protocol |
| Ports.PortRangeRanges | gvm_install/gvm-libs/base/networking.c:605-721 | one range for each element that is not blank, in order, with the protocol of the latest specifier; null exactly for lists that are not accepted |
| Ports.RangesMeaning | gvm_install/gvm-libs/base/networking.c:605-721 | all ranges lie within 1 to 65535, and a port is covered if and only if some element names it under the protocol of the latest specifier up to there, TCP without any |
| Ports.ProtocolInForce | gvm_install/gvm-libs/base/networking.c:638-683 | the protocol of a range is that of the latest specifier up to its element, and TCP without any |
| Ports.Specifiers | gvm_install/gvm-libs/base/networking.c:653-683 | a T or U, blanks and a colon are a specifier for TCP or UDP, and the element is what follows; without the colon, letter and blanks are skipped all the same |
| Ports.ElementsMeaning | gvm_install/gvm-libs/base/networking.c:622-650 | commas and newlines separate elements, and an element is what stands between them without the white space around it |
| Ports.RangesInOrder | gvm_install/gvm-libs/base/networking.c:605-721 | there is one range for each interval, in order, with its two ports and the protocol in force |
| Ports.PortInPortRanges | gvm_install/gvm-libs/base/networking.c:732-749 | true exactly when some range of the protocol covers the port |
| Routes.ChooseRoute | gvm_install/gvm-libs/base/networking.c:1058-1070 | for any masks: none exactly when nothing matches, otherwise the last matching route with the greatest mask |
| Routes.LongerIsGreater | gvm_install/gvm-libs/base/networking.c:1064-1070 | among masks of consecutive bits the byte-swapped numbers are ordered as the prefix lengths |
| Routes.MaskedIsPrefix | gvm_install/gvm-libs/base/networking.c:1061-1063 | masking an address leaves its leading bits |
| Routes.LongestPrefixMatch | gvm_install/gvm-libs/base/networking.c:1058-1070 | on masks of consecutive bits the choice is the longest prefix match, the last one of equal length |

## Left out

- The scan server, XML, regular expressions, DNS, sockets, clocks, logging and the file system are parameters: replies and their damage, page contents, file success, memory success, the clock. The patterns of `base_openvas.h` are written as predicates.
- `DaemonRun.EveryRunIsSafe`: asks that clocks are not negative, that times are those of `strftime`, and that a report has a fixed result list while it is fetched. The order of the run queue is claimed for clocks below 2^31 seconds since boot; `DaemonProgress.LateClockHidesDue` says what happens beyond.
- `DaemonProgress.EveryDueTaskIsReached`: is about checks in a row; a client that keeps starting idle tasks can put them in front again and again.
- `DaemonResults.OverfullForever`: is about one life of the daemon.
- `DaemonReportIds.BadIdStopsRestart`: is about report ids without line breaks; for others `StatusFile.WrittenKeepsPhase` says what can be read.
- `GvmDaemon.BackendQueryResult`: hands the text of the result file over; whether it could be written makes no difference to the program.
- `deleteDir` always succeeds, and the failure of writing a status file is ignored as its callers do.
- `DaemonBoot.BootRestores`: reads the clock once for all tasks of the first scheduling.
- `OwnedLists`: a link knows its owner as a field of its key, where the program computes the address of the owner from that of the link.
- `HostRange.Expand4`: asks for a maximum when the range ends at 255.255.255.255, because the loop does not return otherwise, by `HostRange.EndlessIff`.
- `HostRange.Expand6`: asks for a maximum when the range ends at the all-ones address, because the loop does not return otherwise, by `HostRange.EndlessIff6`.
- `HostRange.AddElement`: asks for a maximum exactly when the element is one of these ranges.
- `HostRange.NewWithMax`: asks for a maximum exactly when the list holds one of these ranges, and starts from elements whose kind and numbers have been read. Recognising a host name, an address or a block in a text is not modelled, and neither are the two readings of block suffixes with leading zeros.
- `HostRange.ExcludeWithMax`: starts from such elements as well, under the same condition.
- Hosts are compared by kind and value, where the program compares their printed form; IPv4 addresses are kept in host byte order in `Address`.
- `Ports`: `atoi` is taken as `strtol`; the values of accepted lists fit an `int`.
- `Routes.ChooseRoute`: the choice alone; setting the source address and the loopback case are left out.
- `WebCreate.AcceptedArrivesIff`: ends where the daemon has read the request; what `php_create_task` does with the answer is left out.
- `gvm_hosts_move_current_host_to_end`, `gvm_hosts_reverse`, shuffling, reverse lookup: not modelled. The first overwrites a neighbour of the current host, so it is no permutation; the second wraps for an empty collection.
- `hydra_business.c`: repeats the registry pattern of the task daemon; process control is out of scope.
- PHP pages, preferences, settings, getters and `cvss.c` are not modelled.
