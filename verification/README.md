# faux-seer: state protocols and algorithms, verified

A Dafny model of the parts of faux-seer whose comments and documents promise something over
all inputs or all interleavings, with proofs. `dafny verify dfyconfig.toml` checks the project.

| file | models |
|---|---|
| `JsonScan.dfy`, `JsonPrinting.dfy` | the scanner that cuts one JSON value out of a model completion; printed JSON (RFC 8259) and its agreement with the scanner |
| `JsonDecoding.dfy` | decoding the slice into a struct, and what a failure leaves there |
| `Chunking.dfy` | splitting a file into overlapping windows with line spans |
| `TreeWalk.dfy` | completing a truncated GitHub listing with a worklist |
| `CodeStore.dfy`, `CodeIndex.dfy` | the chunk table; a whole indexing pass: scan, chunk, embed in batches, replace |
| `RunManager.dfy` | background tasks, their contexts and the wait group, under any interleaving |
| `ExplorerState.dfy` | the stored value of an Explorer run and every change made to it |
| `ExplorerService.dfy` | the service's operations, imperatively, each against its change |
| `ExplorerProtocol.dfy` | requests and tasks interleaved at single statements, with the mutex and the run manager |
| `ExplorerHistory.dfy` | what holds of every value ever stored |
| `ExplorerProgress.dfy` | why a run is never stuck, and when it is |
| `ExplorerExamples.dfy` | inputs on which natural claims fail |
| `RunStore.dfy`, `RunService.dfy`, `Investigations.dfy` | the run and command tables, command acceptance, and the investigation projection, method by method |
| `RunProtocol.dfy`, `RunExamples.dfy` | the same run statement by statement, and a run of it on which versions go down |
| `Autofix.dfy` | coding-agent state under stale write-backs |
| `Results.dfy`, `Sets.dfy`, `Whitespace.dfy` | optional values and error returns; choosing from a set; Go's white space |

Each mutable object of the source is a class, and each of its methods is proved equal to one
step of a transition function. Runs are legal sequences of steps, and the theorems quantify
over all of them.

Where code and documentation disagree, or a natural claim fails, the model follows the code.
Each such case has an input and the exact condition under which the claim does hold:

- `internal/explorer/service.go:28-30` says read-modify-write sequences must not interleave.
  `continueRun` (406-449) does not take the mutex. `ReplyLost` is a run in which a stored reply
  is overwritten; `LostUpdateExact` says that no update is lost exactly when no write of
  `startRun` or `continueRun` overlaps another, `MutexSerializes` what the mutex still
  excludes, and `ResolvedBlockSurvives` that what is not overwritten or cut off stays.
- `cmd/faux-seer/main.go:135-136` says a run in flight at shutdown persists a terminal state.
  `completeRun` (502-529) uses the cancelled context for its store calls, so a reply that has
  already arrived is dropped: `ShutdownStrandsRun` is such a run. `StuckExact` says exactly
  when a processing run is stuck: its newest task gave its write up so, or panicked or failed
  in the store, or `startRun` failed between its two writes before any dispatch.
- "Completed implies nothing loading" fails (`OverlappingTurnsKeepLoading`,
  `EmptyAnswerKeepsLoading`). `CompletedLoadsNothing` has the exact condition over whole runs,
  and `TurnDiscipline` the one for the larger discipline of ids and a single loading block.
- "Error implies a reason" fails (`UpdateClearsReason`); `FailureSaysWhy` has the exact
  condition.
- `internal/runmgr/runmgr.go:50-51` speaks of replacing a previous handle. The deferred delete
  (67) removes whatever handle is there, so a start can miss the task it replaces:
  `StartCancelsPrevious` is the exact condition, `TwoUncancelledTasks` an instance. For the same
  reason `Inflight` (112) can leave out an executing run: `ReportedKeys`, `ExecutingUnreported`.
- `internal/git/github.go:148-151` promises the full recursive tree. A truncated listing is not
  completed: what was cut off stays lost (`CutOffStaysLost`), and entries of walked subtrees keep
  the paths of their own response, which can repeat (`SubtreesRepeatPaths`). `FullTreeExactly`:
  the listing is the full tree exactly when the response was not truncated; `FullPathsExactly`
  says when at least every entry carries its full path. With repeated paths the reported chunk
  count is more than the rows: `IndexReplaced` has the exact condition,
  `RepeatedPathsUndercount` the instance.
- `internal/llm/json.go:10` says the target is left untouched when nothing was decoded. Decoding
  `{"A":1,"B":"x"}` into two ints fails and leaves A set (`TargetPartlyFilled`).
  `TargetChangesExactly`: the target has changed exactly when the slice is a well-formed object
  with a member that fits its field and is not what the field held.
- `internal/db/db.go:602-604` says a retried request reuses its run. `RacingCreates` makes two
  runs for one key; `OneRunPerKeyExact` has the condition, and with atomic creates it is met
  (`AtomicCreatesMakeKeysUnique`).
- The run service takes no lock. Method by method the workflow version is monotone; statement
  by statement `StaleWriteLowersVersion` loses it, and puts a projection ahead of its run.
  `VersionsRiseExactly` has the exact condition for the version. While it holds no projection
  is ahead (`RiseMeansNeverAhead`); `NeverAheadExactly` says exactly when none is: each was
  written over a version not below the one it claims, and no claimed version wrapped. The command log and
  the idempotency lookup hold statement by statement. At the last 64-bit version even atomic
  methods fail: `OverflowPutsProjectionAhead`, with `RecordedVersionsGrowExactly` and
  `VersionLaw` as the exact conditions.

## Model

| member | source | states |
|---|---|---|
| JsonScan.End | internal/llm/json.go:36-60 | the automaton as a recursive search answers -1 or an offset inside the text |
| JsonScan.JsonEnd | internal/llm/json.go:36-60 | the three-variable loop finds what the recursive automaton finds |
| JsonScan.EndExact | internal/llm/json.go:33-60 | on a text that opens with a bracket the end is e precisely when the string-aware depth first returns to zero there, staying positive before; -1 precisely when it never returns |
| JsonScan.EndStable | internal/llm/json.go:36-60 | once a value has closed, neither appended text nor another continuation changes the answer |
| JsonScan.EndConcat | internal/llm/json.go:40-58 | text without a firing bracket is skipped; text with one decides alone |
| JsonScan.FirstJsonStart | internal/llm/json.go:23-31 | the first opener, or -1 exactly when there is none |
| JsonScan.ExtractJson | internal/llm/json.go:11-21 | decodes the first complete bracketed value; without one, or when that fails, the bare text into what the failed decode left |
| JsonPrinting.DocNeutral | internal/llm/json.go:40-58 | any printed value inside an open bracket is passed over with the scanner's state unchanged |
| JsonPrinting.PrintedEnd | internal/llm/json.go:36-60 | a printed object or array ends exactly at its last byte |
| JsonPrinting.ExtractedIsPrinted | internal/llm/json.go:11-60 | for every printing of every object or array, and all prose around it, the slice is the printed value exactly when the leading prose has no opening bracket |
| JsonPrinting.ExtractFromProse | internal/llm/json.go:5-21 | a decodable value wrapped in prose is what the caller gets |
| JsonDecoding.FillIs | internal/llm/json.go:14 | decoding members leaves every field with the last fitting value and the others as they were, past any mismatch |
| JsonDecoding.SliceReadsAlike | internal/llm/json.go:12-20 | a text that is an object or array and whitespace is read as its slice is, so the second decode repeats the first |
| JsonDecoding.TargetChangesExactly | internal/llm/json.go:9-20 | when nothing decodes the target has changed exactly when the slice is a well-formed object with a member that fits its field and differs from what the field held |
| JsonDecoding.ExtractStruct | internal/llm/json.go:11-21 | the same of the extraction itself, for every text |
| JsonDecoding.TargetPartlyFilled | internal/llm/json.go:14-20 | `{"A":1,"B":"x"}` into two ints: nothing decodes and A is set |
| Whitespace.SpacesAre | internal/codeindex/service.go:307 | what trims away is exactly the 25 white-space code points |
| Chunking.LineNumber | internal/codeindex/service.go:325-334 | one plus the newlines before the offset |
| Chunking.ChunkText | internal/codeindex/service.go:292-323 | the loop returns the chunks of the non-blank windows and visits 1 + ceil(max(0, n - size) / step) windows |
| Chunking.WindowShape | internal/codeindex/service.go:299-321 | every visited window is non-empty, at most size long, reaches past the one before, and only the last reaches the end |
| Chunking.StartIs | internal/codeindex/service.go:304 | window i starts at i times the step |
| Chunking.ChunkIsSlice | internal/codeindex/service.go:304-317 | chunk k is the non-blank text, at most size runes, at its window's offset |
| Chunking.NothingLost | internal/codeindex/service.go:292-323 | every rune that is not whitespace lies at its true offset in some chunk |
| Chunking.RebuildExact | internal/codeindex/service.go:292-323 | dropping the overlap of later chunks and concatenating rebuilds the text exactly when no window is blank |
| Chunking.NewlinesAdd | internal/codeindex/service.go:325-334 | counting on from an earlier offset agrees with counting from zero |
| Chunking.NewlinesCount | internal/codeindex/service.go:325-334 | the count is the number of newline runes before the offset |
| Chunking.LineSpan | internal/codeindex/service.go:313-317 | a chunk starts on the line of its first rune and spans exactly the newlines of its text |
| Chunking.LinesMonotone | internal/codeindex/service.go:304-321 | both line numbers grow from chunk to chunk, and a running count gives the same spans |
| TreeWalk.AppendListing | internal/git/github.go:164-170 | one response adds each item's path, kind and size, in order, and queues the trees it names |
| TreeWalk.TreesAre | internal/git/github.go:167-169 | the trees queued are exactly the items of kind "tree" |
| TreeWalk.DrainQueue | internal/git/github.go:172-185 | the FIFO loop terminates, fails exactly when a queued tree misses an object, lists what recursive expansion lists, and lists it level by level |
| TreeWalk.ReadTree | internal/git/github.go:148-187 | root listing plus, when truncated, the expansion of every tree it named, level by level; the promised full tree exactly when the response was not truncated |
| TreeWalk.FullTreeExactly | internal/git/github.go:148-151 | for every repository whose listing the response is, what is listed is the full recursive tree exactly when the response was not truncated |
| TreeWalk.CutOffStaysLost | internal/git/github.go:164-172 | a truncated response that names no tree: the cut-off entry is never listed |
| TreeWalk.FullPathsExactly | internal/git/github.go:148-187 | placing every listed entry in the repository: all carry their full path exactly when the response was not truncated or the trees it named hold nothing |
| TreeWalk.SubtreesRepeatPaths | internal/git/github.go:172-185 | a truncated response with two trees whose README.md is listed twice under one path |
| TreeWalk.WalkStep | internal/git/github.go:173-184 | moving a tree from the queue to its subtrees keeps what is still to be listed |
| TreeWalk.ReachableIsListed | internal/git/github.go:148-187 | an item at the end of any chain of trees is in the expansion |
| CodeStore.Table.DeleteCodeRepo | internal/vectorstore/sqlitevec/store.go:306-312 | removes one organization's rows of a repository under every ref |
| CodeStore.Table.UpsertCodeChunks | internal/vectorstore/sqlitevec/store.go:195-248 | all chunks are upserted or, at any failure, none |
| CodeStore.UpsertedRow | internal/vectorstore/sqlitevec/store.go:205-215 | the last chunk under a key is the stored one |
| CodeStore.Replacement | internal/vectorstore/sqlitevec/store.go:171-248 | after delete and upsert the repository's rows are under the chunks' keys, every row of another repository is as it was, and rows and chunks are equally many exactly when no key repeats |
| CodeIndex.New | internal/codeindex/service.go:45-55 | settings out of range become 1000 and a fifth of the size; the overlap is always below the size |
| CodeIndex.StoreVectors | internal/codeindex/service.go:248-250 | one batch of vectors lands in its own slice and nowhere else |
| CodeIndex.EmbedChunks | internal/codeindex/service.go:233-253 | sends the texts in order, 64 at a time; succeeds exactly when every batch is answered in full; only vectors change; under a text-by-text provider each chunk gets its own text's vector |
| CodeIndex.ChunkFile | internal/codeindex/service.go:138-157 | a file's chunks with their texts and lines, under keys numbered from zero |
| CodeIndex.JudgeExact | internal/codeindex/service.go:122-141 | chunks are made of an entry exactly when it is an indexable file of at most a mebibyte of text that is not blank; the scan stops at it exactly when it would be read and the host fails |
| CodeIndex.FileChunk | internal/codeindex/service.go:144-157 | every chunk of a file is the text at some offset of it, starts on the line of its first rune and spans its own newlines |
| CodeIndex.CollectedFrom | internal/codeindex/service.go:118-158 | every collected chunk is such a cut of an indexed entry, under the repository, branch and path |
| CodeIndex.CollectHas | internal/codeindex/service.go:118-158 | every chunk of every indexed entry is collected, in order |
| CodeIndex.StoredIsCut | internal/codeindex/service.go:144-172 | every stored chunk has the text and the lines of its place in the file |
| CodeIndex.ReplaceIndex | internal/codeindex/service.go:160-172 | embeds, deletes, upserts: each failure has its error and leaves the table alone, or without the repository when the upsert failed |
| CodeIndex.ScanTree | internal/codeindex/service.go:118-158 | counts exactly the indexed entries, the rest as skipped; the first cancelled context or host error stops it with that error |
| CodeIndex.IndexRepo | internal/codeindex/service.go:87-173 | which error a pass ends with, and that it succeeds exactly when tree, scan, embedding, delete and upsert do; a failure before the delete, or no chunks, leaves the table alone; a failed upsert leaves the repository empty; success replaces its rows by the embedded chunks of the whole tree, each with the text and lines of its place |
| CodeIndex.KeysDistinctExactly | internal/codeindex/service.go:144-156 | the collected chunks have distinct keys exactly when no two indexed entries share a path |
| CodeIndex.IndexReplaced | internal/codeindex/service.go:87-173 | the repository's rows are under exactly the new chunks' keys, no other row changed, and they are as many as reported exactly when no two indexed entries share a path, otherwise fewer |
| CodeIndex.RepeatedPathsUndercount | internal/codeindex/service.go:160-172 | a pass over a listing that repeats README.md, under any chunk settings, reports more chunks than the table holds |
| RunManager.StepInv | internal/runmgr/runmgr.go:52-93 | every step keeps the manager's invariant |
| RunManager.RunsKeepInv | internal/runmgr/runmgr.go:52-93 | over all interleavings a registered handle is that of the newest, live task under its key, and the newest task is registered exactly while it is live and no older one removed the key since it started |
| RunManager.DrainedMeansEmpty | internal/runmgr/runmgr.go:61-79 | a zero wait counter with no start under way means nothing is in flight, however tasks ended |
| RunManager.CancelAllReachesEveryTask | internal/runmgr/runmgr.go:91-93 | after CancelAll the context of every task, later ones included, is cancelled |
| RunManager.NewestUncancelled | internal/runmgr/runmgr.go:52-79 | before CancelAll only Cancel can have cancelled the newest unfinished task of a key |
| RunManager.StartCancelsPrevious | internal/runmgr/runmgr.go:54-67 | a start cancels the live task it replaces exactly when no older task removed the key since that one started |
| RunManager.TwoUncancelledTasks | internal/runmgr/runmgr.go:65-69 | a run with two live uncancelled tasks under one key |
| RunManager.Manager.constructor | internal/runmgr/runmgr.go:41-48 | a new manager has no tasks |
| RunManager.Manager.BeginStart | internal/runmgr/runmgr.go:53-59 | the critical section of Start is the registering step |
| RunManager.Manager.EndStart | internal/runmgr/runmgr.go:61-62 | the rest of Start counts the task |
| RunManager.Manager.Finish | internal/runmgr/runmgr.go:65-69 | the deferred delete removes the key whoever holds it |
| RunManager.Manager.Retire | internal/runmgr/runmgr.go:63-64 | the deferred cancel and Done |
| RunManager.Manager.CancelKey | internal/runmgr/runmgr.go:81-89 | cancels the registered handle, ignores an unknown key |
| RunManager.Manager.StopAll | internal/runmgr/runmgr.go:91-93 | cancels the root context |
| RunManager.Manager.Inflight | internal/runmgr/runmgr.go:112-122 | a key is reported exactly when its newest task is live and no older one removed the key since it started |
| RunManager.ReportedKeys | internal/runmgr/runmgr.go:112-122 | over all interleavings a reported key is executing, and an executing key is reported exactly under that condition |
| RunManager.ExecutingUnreported | internal/runmgr/runmgr.go:65-69 | a legal run with a live task whose key is not reported |
| ExplorerState.LastLoading | internal/explorer/service.go:698-699 | the last loading block, or -1 when none loads |
| ExplorerState.TransformSound | internal/explorer/service.go:260-299 | whatever sound value was read, the value written back is sound |
| ExplorerState.DisciplineExact | internal/explorer/service.go:260-299 | a change keeps the turn discipline exactly when its caller read a run in which nothing that stays was loading |
| ExplorerState.ReasonExact | internal/explorer/service.go:280-291 | a change keeps "a failed run has a reason" exactly unless it is a create_pr or unrecognised update of a failed run |
| ExplorerState.SettledExact | internal/explorer/service.go:264-271 | a change keeps "a completed run loads nothing" exactly when a reply finds at most one block loading and an empty answer none |
| ExplorerState.ContinueAsks | internal/explorer/service.go:418-434 | a continued run keeps exactly the blocks before the insert index and asks its question after them |
| ExplorerState.PendingAfter | internal/explorer/service.go:260-290 | an awaiting_user_input update leaves its question pending, interrupts and answers none, everything else what was read |
| ExplorerState.PullRequestsAfter | internal/explorer/service.go:280-289 | only a create_pr update that names a repository touches an entry, and sets it to completed |
| ExplorerState.ReplyConserves | internal/explorer/service.go:694-707 | a reply adds one resolved assistant block holding it, in place of the last loading block or at the end, and alters nothing else |
| ExplorerState.TurnConserves | internal/explorer/service.go:272-275 | a turn appends its question and alters nothing resolved |
| ExplorerState.Conservation | internal/explorer/service.go:260-289 | but for the insert-index cut no change drops or alters a user message or a resolved block; only a reply adds an answer, exactly one |
| ExplorerService.ResolveLoadingBlock | internal/explorer/service.go:694-707 | the backward loop puts the reply in the last loading block or appends it |
| ExplorerService.DropLoadingBlocks | internal/explorer/service.go:709-719 | keeps exactly the blocks that are not loading |
| ExplorerService.Service.StartRun | internal/explorer/service.go:360-403 | stores a run that holds its question, a pending reply and its own id, in two writes, and dispatches |
| ExplorerService.Service.ContinueRun | internal/explorer/service.go:406-449 | keeps the blocks before the insert index, appends the question and a pending reply with the next ids, and shows processing; or not found |
| ExplorerService.Service.ApplyUpdate | internal/explorer/service.go:236-303 | what each payload makes of blocks, status, pending question and pull requests, field by field; or not found; resumes exactly for a non-empty answer |
| ExplorerService.Service.CompleteRun | internal/explorer/service.go:502-529 | the reply in its place, completed, everything else as read |
| ExplorerService.Service.FailRun | internal/explorer/service.go:535-565 | loading blocks dropped, failed with the reason, everything else as read |
| ExplorerHistory.WritesDescend | internal/explorer/service.go:246-303 | under any interleaving every stored value is a change of some earlier stored value |
| ExplorerHistory.EveryValueSound | internal/explorer/service.go:246-565 | every value ever stored: processing ends in a loading block, error has none, only error has a reason, a loading block is an empty assistant block, column and blob status agree |
| ExplorerHistory.EveryWriteConserves | internal/explorer/service.go:246-565 | every write conserves the conversation its writer had read |
| ExplorerHistory.PullRequestsKept | internal/explorer/service.go:280-289 | a stored value holds a pull request exactly when a create_pr update of it is among the writes the value was made by |
| ExplorerHistory.PendingIsLastAsked | internal/explorer/service.go:260-290 | a question is pending exactly when the update that asked it is the latest, of those writes, that asked, answered or interrupted |
| ExplorerHistory.UpdatesRemembered | internal/explorer/service.go:246-303 | both over every run, lost updates included |
| ExplorerHistory.TurnDiscipline | internal/explorer/service.go:261-276 | over all runs, every value has at most one loading block, the last, none when finished, one when processing, and ids in order, exactly when every continue and every answer read a run in which nothing that stays was loading |
| ExplorerHistory.CompletedLoadsNothing | internal/explorer/service.go:260-299 | over all runs no completed value loads anything exactly when every reply found at most one block loading and every empty answer none |
| ExplorerHistory.FailureSaysWhy | internal/explorer/service.go:280-291 | over all runs every failed value has a reason exactly when no create_pr and no unrecognised update had read a failed run |
| ExplorerHistory.DisciplinedMeans | internal/explorer/service.go:420-434 | then block ids are unique and only the last block of a processing or awaiting run loads |
| ExplorerHistory.MutexSerializes | internal/explorer/service.go:28-31 | between the read and the write of an update, completion or failure only startRun and continueRun store anything |
| ExplorerHistory.LostUpdateExact | internal/explorer/service.go:406-449 | over all runs every write had read the value it replaced exactly when no write of startRun or continueRun overlaps another write |
| ExplorerHistory.ResolvedBlockSurvives | internal/explorer/service.go:246-565 | a stored reply or question is in every later value until a write overwrites it or cuts blocks off |
| ExplorerProgress.NeverStuck | internal/explorer/service.go:444-565 | while the process is not shutting down, startRun has not failed half way and the newest task has not broken, a run that shows processing has a request about to dispatch or an uncancelled newest task with its terminal write before it |
| ExplorerProgress.StuckExact | internal/explorer/service.go:493-565 | a processing run is stuck exactly when nothing is about to dispatch and its newest task lost its write, to shutdown, a panic or the store, or startRun failed half way and nothing was dispatched since; shutdown loses only replies |
| ExplorerProgress.OwnerCanStep | internal/explorer/service.go:246-303 | whoever holds the mutex can always take its next step |
| ExplorerExamples.OverlappingTurnsKeepLoading | internal/explorer/service.go:420-434 | step by step to a completed run whose first reply is still loading |
| ExplorerExamples.EmptyAnswerKeepsLoading | internal/explorer/service.go:264-271 | step by step to a run completed by an empty answer while a reply is in flight |
| ExplorerExamples.UpdateClearsReason | internal/explorer/service.go:290 | step by step to a failed run without a reason |
| ExplorerExamples.ReplyLost | internal/explorer/service.go:406-449 | a run, step by step, in which a stored reply is overwritten by a continue that had read before it |
| ExplorerExamples.ShutdownStrandsRun | internal/explorer/service.go:493-529 | a run left processing with no step left to anyone |
| RunStore.FindRunByIdempotencyKey | internal/db/db.go:602-636 | the smallest id with the kind and key, none for an empty key |
| RunStore.LookupStable | internal/db/db.go:532-636 | statement by statement, once a lookup has answered an id every later lookup answers it |
| RunStore.CommandsWriteOnce | internal/db/db.go:685-715 | statement by statement, a recorded command keeps its version |
| RunStore.OneRunStep | internal/db/db.go:532-636 | a statement leaves at most one run a key exactly when there was and it inserts none under a key in use |
| RunStore.OneRunPerKeyExact | internal/db/db.go:602-636 | over all statement sequences a store keeps one run a key exactly when no insert meets a key in use |
| RunStore.AtomicCreatesKeepKeysUnique | internal/investigations/service.go:74-93 | all sequences of atomic creates, keyless inserts and ensures, updates and appends keep at most one run a key |
| RunStore.AtomicCreatesMakeKeysUnique | internal/investigations/service.go:74-93 | so every store they build has at most one run a key |
| RunStore.RacingCreates | internal/investigations/service.go:74-93 | two creates that both look first make two runs, and lookups answer the first |
| RunService.Service.Start | internal/runs/service.go:52-61 | a run under an id never used before and the dispatch of its task, or a failed insert when ids are exhausted |
| RunService.Service.AcceptCommand | internal/runs/service.go:103-139 | records a new command, moves the version, reopens a finished run and changes nothing else; a repeated request id changes nothing |
| RunService.Service.Complete | internal/runs/service.go:141-160 | sets result and status, keeps the version |
| RunService.Service.UpdateProjection | internal/runs/service.go:162-177 | sets the result only |
| RunService.Service.Fail | internal/runs/service.go:179-200 | sets status and error, keeps the version |
| RunService.VersionLaw | internal/runs/service.go:123-131 | n commands with expectations e_i lead from v to max(v + n, max(e_i + n - i + 1)) exactly while that fits in 64 bits |
| RunService.AcceptMovesForward | internal/runs/service.go:123-127 | a command raises the version exactly when neither it nor the expectation is the last 64-bit integer |
| RunService.ResubmittedForever | internal/runs/service.go:117-121 | whatever was executed since, a repeated request id is answered with its first version and changes nothing |
| Investigations.ProjectionNeverAhead | internal/investigations/service.go:114-165 | under any interleaving of methods and stale snapshots a stored projection claims at most the run's version |
| Investigations.EventsAreMethods | internal/investigations/service.go:114-165 | each event does to the tables what its method does |
| Investigations.RecordedVersionsGrow | internal/runs/service.go:103-139 | every recorded version is at most the run's and below those recorded for the run later |
| Investigations.RecordedVersionsGrowExactly | internal/runs/service.go:123-131 | recorded versions strictly grow in acceptance order exactly when no command of a run that accepted one before meets the last 64-bit version |
| Investigations.OverflowPutsProjectionAhead | internal/runs/service.go:123-127 | a run in which a command wraps the version and a stored projection then claims more than it |
| Investigations.WorkflowVersion | internal/runs/service.go:103-200 | the version law over whole runs: only accepted commands move the version |
| Investigations.LogIsStored | internal/db/db.go:685-701 | every accepted command is in the table under the version it was answered with |
| RunProtocol.CommandIsAccept | internal/runs/service.go:103-139 | run without interruption, a command's statements are the method AcceptCommand |
| RunProtocol.WriteBackIsMethod | internal/runs/service.go:141-200 | so are the read and the write of UpdateProjection, Complete and Fail |
| RunProtocol.VersionsRiseExactly | internal/runs/service.go:103-200 | over all interleavings of statements no step lowers the version in the run's row exactly when no command meets the last one and no method writes after a command that stored a higher version since its read |
| RunProtocol.RiseMeansNeverAhead | internal/investigations/service.go:114-165 | while the version never goes down no stored projection claims more than its run's version, however statements interleave |
| RunProtocol.NeverAheadExactly | internal/investigations/service.go:114-165 | over all interleavings of statements no stored projection is ahead exactly when the version had not gone down between the value each projection claims and the one it was written over, and no command wrapped a claimed version |
| RunExamples.StaleWriteLowersVersion | internal/investigations/service.go:145-164 | a run, statement by statement, in which a model step lowers the version, a projection runs ahead and two commands are recorded under one version |
| Investigations.Investigator.Open | internal/investigations/service.go:64-94 | a blank request id is refused, a retried one gets its run, a new one a new run and its first model step |
| Investigations.Investigator.Submit | internal/investigations/service.go:96-134 | refuses a blank request id; accepts, and for a new command stores the projection that records it and dispatches a model step |
| Investigations.Investigator.FinishAdvance | internal/investigations/service.go:145-165 | writes the summary, the status and the snapshot's version beside the snapshot's other entries, or records the failure |
| Autofix.Service.CollectAgents | internal/autofix/service.go:80-85 | an id is kept exactly when it is not empty and some item carries it, with the fields of the last that does |
| Autofix.AgentsAre | internal/autofix/service.go:60-85 | the same of what the interleavings store |
| Autofix.Service.StoreCodingAgentStates | internal/autofix/service.go:44-97 | the stored state names exactly the request's agents, with their fields, and keeps a failure reason |
| Autofix.Service.FindRunByAgentID | internal/autofix/service.go:139-154 | the run with the smallest id that has the agent, or none |
| Autofix.Service.UpdateCodingAgentState | internal/autofix/service.go:101-137 | updates one agent of the owning run |
| Autofix.Service.MergeReply | internal/autofix/service.go:226-237 | in any order of its entries, the reply sets the advancement of the known agents it describes and nothing else |
| Autofix.Service.RunAdvancement | internal/autofix/service.go:185-258 | writes the snapshot back: failed with "shutdown" when stopping, untouched without agents, else advanced or with a failure reason |
| Autofix.AdvanceKeepsAgents | internal/autofix/service.go:223-237 | no reply adds or removes an agent or touches another field |
| Autofix.SetIsMethod | internal/autofix/service.go:44-97 | without interruption a set request's statements are the method |
| Autofix.WriteBacksAreMethods | internal/autofix/service.go:114-275 | so are an update's, and an advancement writes back its snapshot |
| Autofix.StoredAgentsWereRequested | internal/autofix/service.go:56-96 | under any interleaving the agents stored for a run are exactly the non-empty ids of some earlier set request for it |

## Left out

- Timestamps, titles, categories, prompts, severity and feedback, HTTP routing, logging: no deep property.
- Model, embedding, GitHub and database driver internals: arbitrary answers and errors; each table is a map with its primary key and conflict rule.
- JSON decoding of stored blobs: states are structured values; only the extraction scanner works on bytes.
- ExtractJson: the JSON decoder is a parameter that says whether it succeeded and what it left in its target; `ExtractStruct` gives it Go's contract for structs.
- TargetChangesExactly: the parser and the conversion of a member's value are parameters; a field is converted as a whole, so a nested struct that is itself filled in part is not modelled, nor are targets that are slices or interfaces.
- Describes: what GitHub leaves out of a truncated response is arbitrary; the response names full paths and is a prefix of the full tree.
- Explorer runs are modelled one at a time. Other runs share the mutex and the run manager and appear as steps of their own.
- NeverStuck: the service without a run manager is not modelled.
- ProjectionNeverAhead: each service method is one step, and no command meets the last 64-bit version; `StaleWriteLowersVersion` and `OverflowPutsProjectionAhead` show that both are needed, and `NeverAheadExactly` drops both for an exact condition.
- VersionsRiseExactly: one run at a time; statements on other runs touch neither its row nor its commands.
- LookupStable: EnsureRun rows carry no idempotency key, as its callers write them.
- IndexRepo: path filtering is a parameter, file content is its length, its runes and a binary flag, and the host answers the same for the whole pass.
- EmbedChunks: vectors are sequences of reals; rounding plays no part.
- ReadTree: the rank that makes the object store acyclic is a ghost parameter; pagination and the requests themselves are not modelled.
- RunAdvancement: descriptions arrive trimmed; a reply that does not decode is the empty reply.
- ResolveLoadingBlock: the Go function edits a freshly decoded slice in place; here the slice is a sequence.
- pgvector's store, repository preferences, similarity, replay and monitoring services.
