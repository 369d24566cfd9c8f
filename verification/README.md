# Verification of the Piscis kernel's stateful cores

This Dafny project models the parts of the kernel whose guarantees hold over whole runs, over all
interleavings or over all inputs, and proves those guarantees of the model.

| file | what it models |
|---|---|
| `Journal.dfy`, `JournalLanes.dfy`, `JournalRuns.dfy`, `JournalTurns.dfy`, `JournalListing.dfy`, `JournalClass.dfy` | the file-edit journal: snapshots before edits, keep and undo by path, undo by turn, the review list |
| `MessageLog.dfy`, `Sanitize.dfy`, `SanitizeMixed.dfy`, `SanitizeTwice.dfy`, `SanitizeOrphans.dfy`, `SanitizeLeaves.dfy`, `Supersede.dfy`, `Collapse.dfy`, `CollapseExact.dfy`, `CollapseRetried.dfy`, `CallSignatures.dfy`, `JsonInputs.dfy`, `CollapseInputs.dfy`, `RetryPhrases.dfy`, `Remarks.dfy` | the passes that keep tool calls and tool results paired while deleting from the message log |
| `Registry.dfy`, `RegistryOrder.dfy`, `Stream.dfy` | background tasks: quota, eviction, terminal states, and the capped output stream |
| `Completion.dfy`, `CancelIdentity.dfy` | owned receipts and draining; the table from cancellation flags to registries |
| `JsonSchema.dfy`, `SchemaMinimiser.dfy`, `SchemaMinimal.dfy` | JSON Schema acceptance, and the schema minimiser |
| `WindowsPaths.dfy`, `WindowsArgs.dfy`, `Utf8Text.dfy`, `Capture.dfy` | Windows command lines, and head-and-tail capture of a process's output |
| `Summary.dfy`, `SummaryEffects.dfy`, `SummaryEvictions.dfy`, `JsonExtract.dfy` | the rolling summary's merge instructions, and finding JSON in model output |
| `LspClient.dfy` | the language-server client's request table |
| `Integration.dfy`, `Assessment.dfy` | todo dependencies, and project assessment |
| `Folding.dfy`, `FoldingPromises.dfy`, `FoldingTails.dfy`, `FoldingPlaces.dfy`, `FoldingThree.dfy`, `FoldingKinds.dfy`, `Runs.dfy` | folding of repeated lines, stack frames and table rows |
| `Common.dfy`, `Ids.dfy`, `Text.dfy`, `Sorting.dfy` | shared types, strings as the Rust library sees them, and its stable sort |

How the model is built:

- Where the source changes state step by step there is a class or a method with the source's loop, proved
  to compute a function; what the source promises is proved about that function. Concurrent code is a state
  machine whose steps are the source's critical sections, in any order; a lemma about `Exec(start, steps)`
  speaks of every interleaving.
- The schema semantics is that of sections 10.2 and 10.3 of JSON Schema Core 2020-12 and sections 6 and 9
  of JSON Schema Validation 2020-12. Command lines are read back by the argument rules of the Microsoft C
  run-time, including the doubled quote. UTF-8 is that of section 4 of RFC 3629, JSON strings those of
  section 7 of RFC 8259.
- Clocks, generated ids, operating-system results and lock order are choices of a step or parameters.
  Confidences are real numbers, and counters other than the summary's version are unbounded.
- A journal run is made of the steps begin turn, before tool, write, after tool, abandon, keep, undo and a
  change made outside the journal. The run itself keeps which edits have started, with their paths: a started
  edit may write its path whatever the journal has recorded, so a snapshot that was skipped would break the
  theorems. A call is abandoned when the user cancels it before its tool starts
  (`piscis-kernel/src/agent/loop_.rs:2652-2668`): its snapshot stays unapplied for good and nothing waits for
  it. An edit outside any turn, of which the journal records nothing, is a change made outside the journal. A
  failing tool is taken not to have written its file, tool ids are fresh while in use, keep and undo happen
  while no edit of the session is under way, and nobody else writes a file while an edit of it is; edits of
  different files, and of the same file, may overlap. Each path is edited by one session.

Where the code and its documentation disagree the model follows the code:

- The comment on sanitising (`piscis-kernel/src/agent/message_utils.rs:313-320`) promises that every call
  is answered afterwards and that orphan results behind a caller are removed. The first fails when a carrier
  mixes results with other blocks (`SanitizeMixed.MixedCarrierBreaksPairing`, exact condition
  `SanitizeMixed.SanitizedIsAnsweredIff`). The second fails behind a caller whose calls are all answered
  (`SanitizeOrphans.OrphanStays`, exact condition `SanitizeOrphans.OrphanFreeIff`). A second pass can strip
  more than the first (`SanitizeMixed.RepeatedIdsBreakIdempotence`, exact condition
  `SanitizeTwice.SanitizedTwiceIff`).
- Open items are documented as never evicted and decisions as non-evictable
  (`piscis-kernel/src/agent/summary_worker.rs:75-103`); the merge drops the oldest of both beyond 30 and 20
  (`piscis-kernel/src/agent/summary_worker.rs:352-358`). `SummaryEvictions.HistoryLosesOldest` is a history
  that loses one of either; `SummaryEvictions.OpenItemsSurviveIff` and `SummaryEvictions.DecisionsSurviveIff`
  say for every sound summary and accepted batch when nothing is lost.
- Collapsing looks only at the last success of a signature (`CollapseExact.DroppedIff`), so a failure retried
  successfully at once is kept when the same call succeeds again behind a later user turn
  (`CollapseRetried.RetriedFailureStays`).
- The preprocessor's documentation (`piscis-kernel/src/agent/rule_preprocess.rs:17-31`) calls every rule
  idempotent. Stack folding is. Table folding is exactly on texts without nine table rows in a row, since it
  counts its own marker as a row (`FoldingPromises.TableFoldIsIdempotentIff`,
  `FoldingPromises.NineRowsFoldTwice`). Folding repeated lines is exactly on texts in which no folded run is
  followed by copies of its own marker, two or as many as it had lines
  (`FoldingPromises.RepeatFoldIsIdempotentIff`, `FoldingPromises.EchoedMarkerFoldsTwice`), so always when no
  line is a marker (`FoldingPromises.WithoutMarkersNoEcho`).
- The same documentation says the first and the last three non-empty lines survive. The first does under
  every fold (`FoldingTails.FirstNonEmptyIsKept`). The last three do under the folds of
  repeated lines and table rows exactly when no run long enough to fold ends in one of them
  (`FoldingTails.TailSurvivesIff`), and under the fold of stack frames exactly when none of them is the last
  frame but one of such a run (`FoldingTails.StackTailSurvivesIff`); `FoldingTails.TailLostAtEnd` gives a
  failing text for each fold. `FoldingThree.FirstNonEmptySurvives` and `FoldingThree.LastThreeSurviveIff`
  say the same of the three folds in sequence.
- Two creates that both pass the quota check before either inserts exceed the quota
  (`piscis-kernel/src/background.rs:491-565`); the exact bound is proved and reached.

## Model

| member | source | states |
|---|---|---|
| `JournalRuns.UndoRestoresBaselineInEveryRun` | piscis-kernel/src/agent/file_journal.rs:151-363 | in every run from an empty journal, once each of a session's calls has finished or was cancelled before its tool started: undoing wanted paths puts exactly the review baseline back and touches no other file, and each path's earliest pending snapshot holds that baseline, or none is pending and the disk equals it |
| `JournalRuns.UndoReturnsToLastSettled` | piscis-kernel/src/agent/file_journal.rs:297-363 | the baseline, said through the run alone: undo leaves the bytes the path had when it was last kept or undone, or when the session started |
| `JournalRuns.RunsKeepReviewOk` | piscis-kernel/src/agent/file_journal.rs:151-363 | every run of edits (overlapping, failing, repeated), keeps, undos and outside changes keeps the invariant on every path's snapshots |
| `JournalRuns.UndoGoesBack` | piscis-kernel/src/agent/file_journal.rs:323-363 | in any state meeting the invariant, what undo leaves at each path |
| `JournalRuns.QuietIff` | piscis-kernel/src/agent/loop_.rs:2652-2668 | in every reachable state no edit of a session is under way exactly when each of its unapplied snapshots belongs to a call cancelled before its tool started |
| `JournalRuns.BaselineIsLastSettled` | piscis-kernel/src/agent/file_journal.rs:297-363 | the ghost baseline is the content at the last keep, undo or start |
| `JournalTurns.UndoTurnsNewestFirst` | piscis-kernel/src/agent/file_journal.rs:417-461 | when all changes go through the journal, undoing turns newest first down to turn k leaves every file of the session as it was when turn k began |
| `JournalTurns.UndoTurnsRestoresEverything` | piscis-kernel/src/agent/file_journal.rs:417-461 | with one session, the whole file system equals the one at the start of turn k |
| `JournalTurns.RunsKeepTurnsOk` | piscis-kernel/src/agent/file_journal.rs:123-197 | in every such run each turn's snapshots connect the file system at its start to the one at its end |
| `JournalTurns.UndoLastUnstacks` | piscis-kernel/src/agent/file_journal.rs:417-461 | undoing the last turn returns to its start and leaves the earlier turns' snapshots valid |
| `JournalModel.UndoIsIdempotent` | piscis-kernel/src/agent/file_journal.rs:417-461 | undoing the same window again changes neither files nor table, for every journal |
| `JournalListing.PendingListsExactlyTheDifferences` | piscis-kernel/src/agent/file_journal.rs:219-294 | the review list names exactly the paths that differ from the baseline, once each, with the status of the difference |
| `JournalListing.ListingIsUnique` | piscis-kernel/src/agent/file_journal.rs:219-283 | one list only meets the description of a listing, order included |
| `JournalListing.EntriesTellNewestAndOldest` | piscis-kernel/src/agent/file_journal.rs:219-283 | an entry of the list has the id and tool of the newest applied snapshot of its path, and existence and turn of the oldest |
| `JournalModel.RewoundContent` | piscis-kernel/src/agent/file_journal.rs:335-352 | the content of every path after its earliest selected snapshot is restored |
| `JournalModel.EditIsJournaled` | piscis-kernel/src/agent/file_journal.rs:151-179 | for every journal: a file_write or file_edit call on a path inside a turn adds exactly one unapplied row with the file as it is now, whether or not the file exists; any other call adds none |
| `JournalObject.TargetsAreEarliest` | piscis-kernel/src/agent/file_journal.rs:335-352 | the restored rows are exactly the earliest selected row of each wanted path |
| `JournalObject.FileJournal.Begin` | piscis-kernel/src/agent/file_journal.rs:123-127 | begin_turn sets the turn later snapshots belong to and nothing else |
| `JournalObject.FileJournal.Before` | piscis-kernel/src/agent/file_journal.rs:151-179 | an edit inside a turn adds one unapplied row holding the file as it is now, existing or not; other calls add none |
| `JournalObject.FileJournal.After` | piscis-kernel/src/agent/file_journal.rs:182-197 | success applies the call's rows, failure deletes its unapplied ones |
| `JournalObject.FileJournal.KeepPaths` | piscis-kernel/src/agent/file_journal.rs:297-319 | marks exactly the wanted pending rows kept and returns how many |
| `JournalObject.FileJournal.UndoPaths` | piscis-kernel/src/agent/file_journal.rs:323-363 | refines the undo function on files and table; returns each restored path once |
| `JournalObject.FileJournal.Restore` | piscis-kernel/src/agent/file_journal.rs:365-378 | writes the recorded bytes back or removes the file; other files stay |
| `JournalObject.FileJournal.UndoTurn` | piscis-kernel/src/agent/file_journal.rs:417-461 | refines the same undo function on the turn's window, kept rows included |
| `JournalObject.FileJournal.NetChanges` | piscis-kernel/src/agent/file_journal.rs:219-283 | the grouping loop returns a list meeting the description of a listing |
| `Sanitize.SanitizedIsAnswered` | piscis-kernel/src/agent/message_utils.rs:321-399 | with pure carriers every assistant call left in the log is answered in the carrier run right behind it |
| `SanitizeMixed.SanitizedIsAnsweredIff` | piscis-kernel/src/agent/message_utils.rs:321-399 | with mixed carriers allowed: the same promise holds if and only if no run is cut by a mixed carrier before the calls kept are answered |
| `SanitizeMixed.MixedCarrierBreaksPairing` | piscis-kernel/src/agent/message_utils.rs:342-381 | a log on which the unrestricted promise fails |
| `Sanitize.SanitizedIsIdentityIff` | piscis-kernel/src/agent/message_utils.rs:321-399 | on all logs: sanitising changes nothing if and only if no message is blank, every assistant call is answered in the run behind it, and behind an assistant message that repeats an id that run answers nothing else |
| `Sanitize.SanitizedIsIdempotent` | piscis-kernel/src/agent/message_utils.rs:321-399 | with pure carriers and ids distinct within each assistant message, sanitising twice is sanitising once |
| `SanitizeMixed.RepeatedIdsBreakIdempotence` | piscis-kernel/src/agent/message_utils.rs:321-399 | a log with a repeated id on which it is not |
| `SanitizeTwice.SanitizedTwiceIff` | piscis-kernel/src/agent/message_utils.rs:321-399 | for every log whose carriers are not assistant messages, mixed or not: sanitising twice is sanitising once if and only if the run left to each stripped caller answers the calls it keeps and, if it keeps one of them twice, nothing else; that run is computed from the input, through cuts by mixed carriers and joins behind blank messages and vanishing callers |
| `SanitizeTwice.PureSanitizedTwiceIff` | piscis-kernel/src/agent/message_utils.rs:321-399 | with pure carriers: if and only if, for each assistant message that keeps a repeated call, the carriers its run gets joined to answer nothing beyond what it keeps |
| `SanitizeTwice.JoinedIsAnswered` | piscis-kernel/src/agent/message_utils.rs:392-399 | the ids answered at the head of the sanitised log, computed from the input, mixed carriers included |
| `SanitizeOrphans.OrphanFreeIff` | piscis-kernel/src/agent/message_utils.rs:313-381 | for every log whose carriers are not assistant messages, mixed or not: afterwards the run behind each caller answers none but its own calls if and only if no orphan stands behind, or gets joined to, a caller that is not stripped, nor is left to the run of a stripped caller that keeps a call |
| `SanitizeOrphans.OrphanStays` | piscis-kernel/src/agent/message_utils.rs:313-340 | a two-message log on which an orphan result stays |
| `Sanitize.SanitizePairing` | piscis-kernel/src/agent/message_utils.rs:321-399 | the loop over a shrinking vector computes the walk and terminates |
| `Remarks.SanitizedKeepsRemarks` | piscis-kernel/src/agent/message_utils.rs:321-399 | on every log sanitising only takes out, and every block that is neither call nor result and every prose message that is not blank is still there, in order and in the same role |
| `SanitizeLeaves.SanitizedLeaves` | piscis-kernel/src/agent/message_utils.rs:321-399 | for every log whose carriers are not assistant messages: the calls left are those answered in the run behind their message, the results left are all but those behind a broken caller that answer none of its calls, both in order |
| `Sanitize.SanitizeAt` | piscis-kernel/src/agent/message_utils.rs:323-391 | one turn of the outer loop, stripping in place and removing what becomes empty, keeps the walk seen from the index and makes progress |
| `Sanitize.StripCarriers` | piscis-kernel/src/agent/message_utils.rs:354-380 | the inner loop strips the carrier run at an index, removing emptied carriers, and leaves the rest alone |
| `Sanitize.CollectSatisfied` | piscis-kernel/src/agent/message_utils.rs:294-311 | the ids answered by the carrier run at an index |
| `Supersede.PairedIsAnswered` | piscis-kernel/src/agent/message_utils.rs:321-334 | a paired log answers every call in the run behind it |
| `Supersede.DropKeepsPaired` | piscis-kernel/src/agent/message_utils.rs:235-276 | dropping calls and results by id keeps a log paired, although emptied messages vanish and runs merge |
| `Supersede.DropRemovesTogether` | piscis-kernel/src/agent/message_utils.rs:235-276 | exactly the dropped ids leave, as calls and as results, and the rest keep their order |
| `Supersede.DropThins` | piscis-kernel/src/agent/message_utils.rs:235-276 | nothing is added, changed or moved |
| `Supersede.StripEphemeralKeepsPairing` | piscis-kernel/src/agent/message_utils.rs:235-276 | stripping the pool_org calls that wait for an agent from a paired log leaves it paired and in order, without any of them, taking whole exchanges only |
| `Remarks.WithoutEphemeralKeepsRemarks` | piscis-kernel/src/agent/message_utils.rs:235-276 | stripping waits keeps every such block and prose message of every log, in order |
| `Supersede.StripEphemeral` | piscis-kernel/src/agent/message_utils.rs:235-276 | the two loops compute the drop of the wait exchanges; the log is untouched when there is none |
| `Supersede.CompletedTurnIsPaired` | piscis-kernel/src/agent/message_utils.rs:403-429 | completing an interrupted turn's results makes caller and carrier a paired log |
| `Supersede.EnsureComplete` | piscis-kernel/src/agent/message_utils.rs:403-429 | appends one error result per unanswered planned call, in call order |
| `Collapse.EveryDropIsJustified` | piscis-kernel/src/agent/message_utils.rs:110-231 | on all logs: an id is dropped only if its call failed and a later call succeeded with the same signature, or the same tool within six messages when retryable, with no real user turn between |
| `CallSignatures.SignatureIff` | piscis-kernel/src/agent/message_utils.rs:62-69 | whatever the tools are called, two calls have one signature if and only if they are of one tool with one input text, for all texts JSON could be |
| `JsonInputs.JsonTextIsJsonLike` | piscis-kernel/src/agent/message_utils.rs:62-69 | every JSON text in any lexical form is such a text |
| `CollapseInputs.EveryDropIsJustifiedByInput` | piscis-kernel/src/agent/message_utils.rs:110-231 | on all logs with JSON inputs: an id is dropped only if its call failed and a later call of the same tool succeeded, with the same input, or within six messages when retryable, and the user said nothing between |
| `CollapseExact.DroppedIff` | piscis-kernel/src/agent/message_utils.rs:110-231 | on paired logs with unique ids, exactly which failures are dropped: only the last success of a signature counts |
| `CollapseInputs.DroppedByInputIff` | piscis-kernel/src/agent/message_utils.rs:110-231 | on paired logs with unique ids and JSON inputs, exactly which failures are dropped, told by tools and inputs |
| `CollapseInputs.OtherInputStays` | piscis-kernel/src/agent/message_utils.rs:160-202 | a failure that is not retryable stays when the same tool succeeds with another input |
| `CollapseInputs.SameInputGoes` | piscis-kernel/src/agent/message_utils.rs:160-202 | it goes when the same tool succeeds with the same input |
| `CollapseRetried.RetriedFailureStays` | piscis-kernel/src/agent/message_utils.rs:160-202 | a log on which a failure, not retryable, whose call is repeated with success right behind it stays, because the same call succeeds again behind a user turn |
| `Collapse.CollapseKeepsPairing` | piscis-kernel/src/agent/message_utils.rs:110-231 | collapsing keeps a paired log paired and in order, removes calls and results together, and never a successful result |
| `Remarks.CollapsedKeepsRemarks` | piscis-kernel/src/agent/message_utils.rs:208-231 | collapsing keeps every block that is neither call nor result and every prose message of every log, in order |
| `Collapse.CollapseSuperseded` | piscis-kernel/src/agent/message_utils.rs:110-231 | the hash-map loops compute the specified collapse, for every retry classifier |
| `Collapse.CollapseFailures` | piscis-kernel/src/agent/message_utils.rs:89-231 | the same with the source's classifier of retryable failures |
| `RetryPhrases.PhraseIsRetryable` | piscis-kernel/src/agent/message_utils.rs:89-106 | every failure text that holds one of the listed phrases, in any letter case, is retryable |
| `CollapseExact.SuccessesComplete` | piscis-kernel/src/agent/message_utils.rs:115-158 | the success table misses no successful call of a paired log |
| `CollapseExact.CallTableComplete` | piscis-kernel/src/agent/message_utils.rs:115-133 | the call table holds every call under its id |
| `SchemaMinimiser.StripPreservesAcceptance` | piscis-kernel/src/agent/tool.rs:313-364 | the minimised schema accepts exactly the instances the original accepts, under not, oneOf and if too, for every schema of supported keywords and any annotations; minContains, maxContains and dependentRequired are among them where they ask for nothing |
| `SchemaMinimal.StripIsMinimalIff` | piscis-kernel/src/agent/tool.rs:313-364 | for every JSON value: the minimiser leaves at every schema position exactly the constraint keywords, $ref and nullable, with their values minimised in turn or taken as they are, and no annotation anywhere; nothing else meets that description |
| `SchemaMinimiser.StripIdempotent` | piscis-kernel/src/agent/tool.rs:313-364 | minimising twice is minimising once, for every JSON value |
| `SchemaMinimiser.KeysAndKeywords` | piscis-kernel/src/agent/tool.rs:248-308 | every keyword is treated as its meaning needs, whatever the key, except the kinds dropped although they assert |
| `SchemaMinimiser.DroppingMinContainsTightens` | piscis-kernel/src/agent/tool.rs:321-364 | dropping minContains rejects an instance the original accepts |
| `SchemaMinimiser.DroppingDependentRequiredLoosens` | piscis-kernel/src/agent/tool.rs:321-364 | dropping dependentRequired accepts an instance the original rejects |
| `SchemaMinimiser.DependsOnNothingIff` | piscis-kernel/src/agent/tool.rs:321-364 | a dependentRequired that may be dropped is exactly one that every instance meets: no property needs another |
| `SchemaMinimiser.StripSchema` | piscis-kernel/src/agent/tool.rs:313-319 | the recursive method computes the specified rewriting |
| `SchemaMinimiser.StripObjectMap` | piscis-kernel/src/agent/tool.rs:321-364 | the loop filling a fresh map computes the rewriting of an object |
| `WindowsArgs.QuotingRoundTripsIff` | piscis-kernel/src/proc_windows_sandbox.rs:953-996 | splitting the argument part by the Microsoft C rules returns exactly the arguments if and only if none is empty and none contains NUL, for every program and list on which no cmd switch precedes an argument; cmd is recognised as the source recognises it |
| `WindowsArgs.ReadTail` | piscis-kernel/src/proc_windows_sandbox.rs:953-996 | every list of arguments reads back as its non-empty members, in order |
| `WindowsArgs.ReadOneArg` | piscis-kernel/src/proc_windows_sandbox.rs:973-996 | one written argument reads back as itself |
| `WindowsArgs.RawTailIsVerbatim` | piscis-kernel/src/proc_windows_sandbox.rs:951-971 | for a program that is cmd and arguments whose first switch is at k: the line is the quoted program, the arguments up to the switch quoted so that they read back, every later argument verbatim behind a space, and the terminator |
| `WindowsArgs.CmdOnDrive` | piscis-kernel/src/proc_windows_sandbox.rs:951-957 | cmd or cmd.exe in any case is recognised behind any drive letter, in any directory or none, and behind any trailing separators and "." components |
| `WindowsPaths.LastNameFinds` | piscis-kernel/src/proc_windows_sandbox.rs:954-957 | a path's last component is found behind any directory and any such trailer, in ordinary and verbatim paths |
| `WindowsPaths.ShareHasNoFileName` | piscis-kernel/src/proc_windows_sandbox.rs:954-957 | the share of a network path is not a file name |
| `WindowsArgs.QuoteWindowsArg` | piscis-kernel/src/proc_windows_sandbox.rs:973-996 | the loop counting backslashes computes the quoted form |
| `WindowsArgs.MakeCommandLine` | piscis-kernel/src/proc_windows_sandbox.rs:953-971 | the loop with the raw flag computes the command line |
| `Capture.CaptureReads` | piscis-kernel/src/proc_windows_sandbox.rs:898-949 | the capture loop returns a function of the concatenated output alone, whatever the read sizes, and mirrors exactly that output into the shared stream |
| `Capture.CaptureTwice` | piscis-kernel/src/proc_windows_sandbox.rs:898-949 | two ways of cutting the same output into reads capture the same bytes |
| `Capture.CaptureAccountsForEveryByte` | piscis-kernel/src/proc_windows_sandbox.rs:929-941 | beyond a limit of at least two bytes: kept head, reported count and kept tail add up to the total, with no underflow, and head and tail are within three bytes of their limits; under a limit of no byte or one byte the head alone is left and no count is written |
| `Capture.CaptureKeepsUtf8Iff` | piscis-kernel/src/proc_windows_sandbox.rs:929-941 | what is captured of a UTF-8 text is UTF-8, except under a limit of one byte when the text is longer and begins outside ASCII |
| `Capture.HeadIsUtf8` | piscis-kernel/src/tools/output.rs:437-451 | trimming a partial character leaves a whole-character prefix of any cut text |
| `Capture.TailIsUtf8` | piscis-kernel/src/proc_windows_sandbox.rs:933-935 | skipping up to three continuation bytes leaves a whole-character suffix |
| `Capture.TrimPartialUtf8Tail` | piscis-kernel/src/tools/output.rs:437-451 | the backward scan computes the specified length |
| `Registry.QuotaBound` | piscis-kernel/src/background.rs:485-565 | in every interleaving with at most n creates between check and insertion a workspace runs at most quota + n - 1 tasks (the quota when creates are one at a time), and order and entries agree |
| `Registry.QuotaBoundIsReached` | piscis-kernel/src/background.rs:491-508 | for every quota and every n some run reaches that bound |
| `Registry.FirstFinishWins` | piscis-kernel/src/background.rs:312-334 | over all call sequences readiness fires at most once and never after the end, the first finish wins, and only the kill flag changes afterwards |
| `Registry.WorkerVerdictStands` | piscis-kernel/src/background.rs:583-602 | when a worker finishes a task that still runs, then whatever is called afterwards it ends as killed if and only if a kill came before the worker read the flag, with an exit code or an error exactly when the process exited or failed |
| `Registry.EvictDropsOldest` | piscis-kernel/src/background.rs:549-562 | eviction leaves exactly the newest 64 finished tasks, in order |
| `RegistryOrder.OrderIsCreation` | piscis-kernel/src/background.rs:543-563 | in every run with fresh ids the order lists exactly the tasks the registry still has in the order of their creation |
| `Registry.EvictKeeps` | piscis-kernel/src/background.rs:549-562 | eviction keeps the registry consistent and touches no running task |
| `Registry.InsertKeeps` | piscis-kernel/src/background.rs:543-563 | a create with a fresh id adds exactly one running task, loses none and leaves at most 64 finished ones |
| `Registry.RunsKeepSystemOk` | piscis-kernel/src/background.rs:485-565 | every interleaving keeps the quota invariant |
| `Registry.BgEntry.MarkReady` | piscis-kernel/src/background.rs:312-319 | true once, while running |
| `Registry.BgEntry.Finish` | piscis-kernel/src/background.rs:325-334 | takes effect only on a running task |
| `Registry.BackgroundRegistry.HasRoom` | piscis-kernel/src/background.rs:491-507 | counts the running tasks of the exact workspace string against the quota |
| `Registry.BackgroundRegistry.PlaceEntry` | piscis-kernel/src/background.rs:543-563 | inserts the entry and evicts as specified |
| `Registry.BackgroundRegistry.CollectFinished` | piscis-kernel/src/background.rs:550-554 | lists the finished tasks, oldest first |
| `Stream.ReaderRebuildsHistoryIff` | piscis-kernel/src/background.rs:137-166 | over every interleaving of appends and polls a reader that feeds back the total has exactly the history up to its cursor if and only if no poll reported truncation |
| `Stream.FinalPollHasEverythingIff` | piscis-kernel/src/background.rs:159-166 | after a last poll it has the whole history if and only if nothing was truncated |
| `Stream.ReadGivesTheRest` | piscis-kernel/src/background.rs:159-166 | a read gives everything past the cursor, or the last bytes of it up to the cap if there is more, which is exactly when it reports truncation |
| `Stream.LastAppend` | piscis-kernel/src/background.rs:150-155 | appending to the kept tail and trimming is keeping the tail of the longer history |
| `Stream.SharedStream.Append` | piscis-kernel/src/background.rs:137-156 | the buffer stays the last 256 KiB of the history, and an intact log its first 8 MiB |
| `Stream.SharedStream.ReadFrom` | piscis-kernel/src/background.rs:159-166 | returns everything of the history past the cursor, or its last 256 KiB if there is more, the total, and whether bytes were lost |
| `Stream.SharedStream.Tail` | piscis-kernel/src/background.rs:168-172 | returns the last bytes of the history, up to the cap |
| `Completion.CountsAreExact` | piscis-kernel/src/agent/tool_completion.rs:52-157 | over every interleaving active counts the unfinished receipts and failures the failed or dropped ones, and no drain has returned Complete while there is either |
| `Completion.PollAnswers` | piscis-kernel/src/agent/tool_completion.rs:79-123 | in every run and for every drain still polling: with no receipt unfinished a poll returns at once, Complete if none has failed and otherwise the number of failures; with receipts unfinished it returns only when its time is up, their number or both numbers |
| `Completion.RegistrationIsGrantedIff` | piscis-kernel/src/agent/tool_completion.rs:52-68 | in every run a registration is granted if and only if no drain has started and no cancel has come |
| `Completion.FinishIsRecorded` | piscis-kernel/src/agent/tool_completion.rs:131-157 | a receipt counts once, as it is completed or as failed if it is dropped, and no other receipt changes |
| `Completion.CompleteIsFinal` | piscis-kernel/src/agent/tool_completion.rs:52-123 | once a drain returned Complete no worker is or becomes active, none fails, and registration is refused, in every continuation |
| `Completion.FailureIsFinal` | piscis-kernel/src/agent/tool_completion.rs:71-157 | once a receipt failed or was dropped no drain has returned or returns Complete |
| `Completion.RunsKeepOk` | piscis-kernel/src/agent/tool_completion.rs:52-157 | the invariant behind both |
| `Completion.OwnedCompletionRegistry.Register` | piscis-kernel/src/agent/tool_completion.rs:52-68 | refused when sealed or cancelled; otherwise one more active and a fresh unfinished receipt |
| `Completion.OwnedCompletionRegistry.Seal` | piscis-kernel/src/agent/tool_completion.rs:71-78 | the first step of drain closes registration |
| `Completion.OwnedCompletionRegistry.Poll` | piscis-kernel/src/agent/tool_completion.rs:79-123 | one turn of the polling loop: Complete exactly when nothing is active and nothing failed, Failed at once when only failures are left, otherwise an answer only when the time is up |
| `Completion.OwnedReceipt.Finish` | piscis-kernel/src/agent/tool_completion.rs:136-151 | counts once, however often called |
| `CancelIdentity.NeverAnothersRegistry` | piscis-kernel/src/agent/tool_completion.rs:31-49 | with addresses freed and reused arbitrarily, asking for a flag's registry hands out one new reference, to a registry made for that very flag, and changes no other reference |
| `CancelIdentity.SameRegistryWhileHeld` | piscis-kernel/src/agent/tool_completion.rs:31-49 | while anyone holds a reference to the registry of a flag, asking again yields that registry |
| `CancelIdentity.SameRegistryWhileKept` | piscis-kernel/src/agent/tool_completion.rs:31-49 | in particular as long as the reference first handed out is not dropped, whatever else is |
| `CancelIdentity.RunsKeepWorldOk` | piscis-kernel/src/agent/tool_completion.rs:31-49 | every run keeps each held registry the one the table finds for its flag |
| `LspClient.NoRequestIsStranded` | piscis-ide-tools/src/lsp/client.rs:119-142 | over all interleavings no request is answered twice, and once the reader has drained no request past send is left in the table and each has its answer |
| `LspClient.ResponsesAreDelivered` | piscis-ide-tools/src/lsp/client.rs:195-298 | over all interleavings whoever waits without an answer is still in the table, the next response to it or the drain answers it at once and lets it return, and a response to no pending request changes nothing |
| `LspClient.FinishedLeaveNothing` | piscis-ide-tools/src/lsp/client.rs:195-238 | when all requesters have returned the table is empty |
| `LspClient.RunsKeepOk` | piscis-ide-tools/src/lsp/client.rs:195-298 | the invariant of the protocol over insert, alive check, write, removal, answer, death and drain |
| `JsonExtract.ExtractIsExact` | piscis-kernel/src/agent/summary_worker.rs:521-553 | for every JSON array or object in any lexical form, behind text without its opening bracket and before any text, extraction returns exactly it |
| `JsonExtract.FencedExtractIsExact` | piscis-kernel/src/agent/summary_worker.rs:648-692 | the same after a code fence around it is stripped |
| `JsonExtract.ExtractIsFromFirst` | piscis-kernel/src/agent/summary_worker.rs:521-553 | on every text what is extracted begins at the first opening bracket and ends on a closing one, and without an opening bracket nothing is |
| `JsonExtract.TrimTwice` | piscis-kernel/src/agent/summary_worker.rs:648-658 | trimming a trimmed text changes nothing |
| `JsonExtract.WalksText` | piscis-kernel/src/agent/summary_worker.rs:521-553 | scanning a JSON value leaves the depth unchanged and never closes the bracket around it, whatever its strings contain |
| `JsonExtract.ExtractBalanced` | piscis-kernel/src/agent/summary_worker.rs:529-552 | the scanning loop over depth, in_string and escape computes the specified scan |
| `JsonExtract.ExtractJsonArray` | piscis-kernel/src/agent/summary_worker.rs:521-553 | whenever an answer holds a JSON array in any lexical form, behind prose or a fence without an opening bracket, exactly that array is returned; on any other answer the result is that of the specified scan |
| `JsonExtract.ExtractJsonObject` | piscis-kernel/src/agent/summary_worker.rs:648-692 | the same for objects, although the text is trimmed once more before the fence is stripped |
| `Summary.EveryHistoryIsSound` | piscis-kernel/src/agent/summary_worker.rs:323-496 | from the empty summary over any batches: caps, confidences in [0, 1], texts and evidence ids distinct, version counting successes, and fact texts distinct without fact updates |
| `Summary.HistoryKeeps` | piscis-kernel/src/agent/summary_worker.rs:323-496 | the same from any sound summary, with coverage never falling |
| `Summary.CoverageNeverRegresses` | piscis-kernel/src/agent/summary_worker.rs:336-337 | coverage at a later point of a history is at least the earlier one |
| `Summary.CapKeepsBestFacts` | piscis-kernel/src/agent/summary_worker.rs:345-353 | kept and evicted facts are a partition of all, and no evicted fact outranks a kept one |
| `SummaryEvictions.OpenItemsSurviveIff` | piscis-kernel/src/agent/summary_worker.rs:355-358 | for every sound summary and accepted batch: no open item the batch does not close is lost if and only if the items its instructions leave, counted from the old summary and the batch, are at most 30 |
| `SummaryEvictions.DecisionsSurviveIff` | piscis-kernel/src/agent/summary_worker.rs:352-354 | for every sound summary and accepted batch: no decision is lost if and only if the instructions leave at most 20 |
| `SummaryEvictions.NewTextEvictsOldest` | piscis-kernel/src/agent/summary_worker.rs:352-358 | one new text in a full shard evicts its oldest entry |
| `SummaryEvictions.HistoryLosesOldest` | piscis-kernel/src/agent/summary_worker.rs:323-368 | two batches from the empty summary after which an item nobody closed, or a decision, is gone |
| `Summary.UpdateRepeatsIff` | piscis-kernel/src/agent/summary_worker.rs:416-440 | a fact update makes texts repeat if and only if it writes the text of another fact |
| `Summary.BatchRefusedIff` | piscis-kernel/src/agent/summary_worker.rs:328-332 | a batch is refused, leaving the summary alone, if and only if one of its instructions lacks its text |
| `Summary.AddedFactIsKnown` | piscis-kernel/src/agent/summary_worker.rs:378-414 | adding a fact extends the facts by at most one, never weakens or replaces another, and changes no other shard |
| `SummaryEffects.InvalidatedFactIsGone` | piscis-kernel/src/agent/summary_worker.rs:370-496 | invalidating a fact removes all facts with its id and nothing else |
| `SummaryEffects.ClosedItemIsGone` | piscis-kernel/src/agent/summary_worker.rs:370-496 | closing an open item removes all items with its id and nothing else |
| `SummaryEffects.TextIsStored` | piscis-kernel/src/agent/summary_worker.rs:370-496 | a contract, an error and an evidence are stored trimmed, once |
| `SummaryEffects.EntryIsStored` | piscis-kernel/src/agent/summary_worker.rs:370-496 | a decision and an open item are stored once with all they come with |
| `SummaryEffects.NewFactIsStored` | piscis-kernel/src/agent/summary_worker.rs:370-496 | a new fact comes with its evidence and its confidence forced into [0, 1] |
| `SummaryEffects.KnownFactIsStrengthened` | piscis-kernel/src/agent/summary_worker.rs:370-496 | a fact seen again gains a tenth of confidence up to one, and evidence if it had none |
| `SummaryEffects.UpdatedFactIs` | piscis-kernel/src/agent/summary_worker.rs:370-496 | an update writes the text and confidence it gives to the first fact with the id and to no other |
| `SummaryEffects.MergeKeepsNewest` | piscis-kernel/src/agent/summary_worker.rs:323-368 | an accepted batch keeps the last 20, 30, 20 and 60 entries of decisions, open items, errors and evidence |
| `Summary.ApplyMergeInstructions` | piscis-kernel/src/agent/summary_worker.rs:323-368 | the loop computes the all-or-nothing merge |
| `Assessment.AssessmentIsOrderFree` | piscis-core/src/project_state.rs:333-640 | with distinct ids, reordering messages or todos changes nothing in the assessment |
| `Assessment.TableIsLatest` | piscis-core/src/project_state.rs:392-408 | the table holds for each signalling sender its signalling message with the greatest time and id |
| `Assessment.LatestSignals` | piscis-core/src/project_state.rs:387-409 | the loop over the sorted messages leaves each signalling sender its signalling message with the greatest time and id |
| `Assessment.EscalatesIff` | piscis-core/src/project_state.rs:434-522 | escalation to a human happens exactly when no todo is unfinished and some failure has no later review todo and no later latest handoff |
| `Assessment.DecisionIs` | piscis-core/src/project_state.rs:333-640 | for every list of messages with distinct ids and of todos: which of the four decisions is made, told by the todos and by each sender's last word |
| `Assessment.NoReasonIff` | piscis-core/src/project_state.rs:232-331 | no reason for attention is given exactly when nothing is at hand, or nothing but a handoff |
| `Assessment.AssessProjectState` | piscis-core/src/project_state.rs:333-640 | the early returns compute the specified decision, reasons, counts and summary sentence; a human is asked for exactly when no todo is unfinished and some failure has no later review todo and no later latest handoff |
| `Assessment.AttentionReasons` | piscis-core/src/project_state.rs:232-331 | the pushes compute the specified list of reasons |
| `Assessment.ReasonsAreDue` | piscis-core/src/project_state.rs:232-331 | which reasons are given, and with which numbers |
| `Assessment.TallyIsCoherent` | piscis-core/src/project_state.rs:366-448 | handoffs are among the ready signals, a blocking failure is among the failures, blocked todos are unfinished |
| `Integration.ResolveIsOrderFree` | piscis-core/src/integration.rs:14-31 | what a dependency hint resolves to does not depend on the order of the todos |
| `Integration.ResolvesIff` | piscis-core/src/integration.rs:14-31 | a hint resolves to a todo if and only if it is its id, or no todo's id and it fits that todo alone |
| `Integration.MayStartIff` | piscis-core/src/integration.rs:48-68 | a todo may start if and only if it depends on nothing or names a todo that is done and whose branch, if any, is merged |
| `Integration.BlockedCountIsOrderFree` | piscis-core/src/integration.rs:83-98 | nor does the number of todos waiting for an upstream |
| `Folding.RepeatsUnfold` | piscis-kernel/src/agent/rule_preprocess.rs:287-314 | when no line looks like a marker, unfolding the folded lines returns the input up to trailing whitespace |
| `Folding.StackFoldIsIdempotent` | piscis-kernel/src/agent/rule_preprocess.rs:330-364 | folding stack frames twice is folding once, for every text |
| `FoldingPromises.TableFoldIsIdempotentIff` | piscis-kernel/src/agent/rule_preprocess.rs:398-436 | for every text: folding table rows twice is folding once if and only if no nine lines in a row are table rows |
| `FoldingPromises.NineRowsFoldTwice` | piscis-kernel/src/agent/rule_preprocess.rs:398-436 | nine rows fold to seven and "2 rows folded", and again to seven and "1 rows folded" |
| `FoldingPromises.RepeatFoldIsIdempotentIff` | piscis-kernel/src/agent/rule_preprocess.rs:287-314 | for every text: folding repeated lines twice is folding once if and only if no folded run is followed by exactly two copies of its own marker or exactly as many as it had lines |
| `FoldingPromises.WithoutMarkersNoEcho` | piscis-kernel/src/agent/rule_preprocess.rs:287-314 | no folded run is followed so when no line is a marker up to trailing whitespace |
| `FoldingPromises.EchoedMarkerFoldsTwice` | piscis-kernel/src/agent/rule_preprocess.rs:287-314 | three equal lines and two copies of their marker fold further the second time |
| `FoldingTails.LineIsKeptIff` | piscis-kernel/src/agent/rule_preprocess.rs:287-436 | for every rule, text and line: the line is kept if and only if it does not lie in the part of its run that the rule folds |
| `FoldingPlaces.FoldedShowsKept` | piscis-kernel/src/agent/rule_preprocess.rs:287-436 | for every rule and text: the kept lines, in their order, are exactly the lines of the folded text that are not its markers, and each marker counts the lost lines it stands for |
| `FoldingTails.FirstNonEmptyIsKept` | piscis-kernel/src/agent/rule_preprocess.rs:17-31 | every fold keeps the first non-empty line of every text |
| `FoldingTails.TailSurvivesIff` | piscis-kernel/src/agent/rule_preprocess.rs:17-31 | folding repeated lines or table rows keeps the last three non-empty lines if and only if no run long enough to fold ends in one of them |
| `FoldingTails.StackTailSurvivesIff` | piscis-kernel/src/agent/rule_preprocess.rs:17-31 | folding stack frames keeps them if and only if no run long enough to fold has its last frame but one among them |
| `FoldingTails.TailLostAtEnd` | piscis-kernel/src/agent/rule_preprocess.rs:287-436 | texts of one repeated line on which each fold loses one of them |
| `FoldingThree.SurvivesIff` | piscis-kernel/src/agent/rule_preprocess.rs:89-91 | for every text and line: the three folds in sequence keep the line if and only if it is not among the folded repetitions nor, of the frames or rows that stand together once those are gone, among the folded ones |
| `FoldingThree.SurvivorsAreShown` | piscis-kernel/src/agent/rule_preprocess.rs:89-91 | the lines that survive all three stand in the last text in their order |
| `FoldingThree.FirstNonEmptySurvives` | piscis-kernel/src/agent/rule_preprocess.rs:17-31 | the first non-empty line of every text survives all three folds |
| `FoldingThree.LastThreeSurviveIff` | piscis-kernel/src/agent/rule_preprocess.rs:17-31 | the last three non-empty lines survive all three folds if and only if none of them is lost as told by that condition on the text |
| `Folding.ThreeFoldsKeepErrors` | piscis-kernel/src/agent/rule_preprocess.rs:287-436 | the three folds composed keep the subsequence of error-looking lines exactly |
| `Folding.FoldKeepsErrors` | piscis-kernel/src/agent/rule_preprocess.rs:316-326 | each fold keeps it |
| `Folding.FoldLosesOnlyItsKind` | piscis-kernel/src/agent/rule_preprocess.rs:287-436 | every line is kept or counted in a marker, and only lines of the rule's own kind are lost |
| `Folding.FirstIsKept` | piscis-kernel/src/agent/rule_preprocess.rs:287-436 | the first line of a text stays first |
| `FoldingKinds.NumberedLineIsFrame` | piscis-kernel/src/agent/rule_preprocess.rs:366-394 | a numbered line of a trace is a stack frame |
| `FoldingKinds.AtLineIsFrame` | piscis-kernel/src/agent/rule_preprocess.rs:366-394 | so is a line with at and a colon or parenthesis |
| `FoldingKinds.TableRowIff` | piscis-kernel/src/agent/rule_preprocess.rs:438-444 | a line is a table row if and only if its trimmed text has a bar at both ends |
| `FoldingKinds.ErrorLineIsSeen` | piscis-kernel/src/agent/rule_preprocess.rs:316-326 | a line that begins with one of the eight words, in any letter case and behind white space, looks like an error |
| `Folding.FoldRepeatedLines` | piscis-kernel/src/agent/rule_preprocess.rs:287-314 | the run-length loop computes the specified fold |
| `Folding.FoldStackFrames` | piscis-kernel/src/agent/rule_preprocess.rs:330-364 | the frame-folding loop computes the specified fold |
| `Folding.FoldTableRows` | piscis-kernel/src/agent/rule_preprocess.rs:398-436 | the table-folding loop computes the specified fold |

## Left out

- Journal I/O failures, SQLite itself and lexical path handling: paths are taken as canonical keys, reads and writes succeed, and rows are a sequence in id order.
- Journal diffs, `latest_turn_with_changes` and `list_changes` for one turn: queries over the same rows; the diff view shows the last snapshot's content, not the baseline.
- `undo_turn` mixed with keep and undo by path: it ignores `kept`, so the two baselines are separate theorems.
- Sanitize.SanitizedIsAnswered: is stated for carriers that hold only results and are not assistant messages; `SanitizeMixed.SanitizedIsAnsweredIff` covers mixed carriers, and assistant carriers are not covered.
- SanitizeTwice.SanitizedTwiceIff: does not cover assistant messages that hold results; nor does `SanitizeOrphans.OrphanFreeIff`.
- Collapsing a log a second time: no idempotence is promised for it.
- Tool input is its canonical text plus its `action` argument, which is all the passes read.
- SchemaMinimiser.StripPreservesAcceptance: leaves out `$ref`, `unevaluatedItems` and `unevaluatedProperties`, which refer elsewhere, and `minContains`, `maxContains` and `dependentRequired` where they ask for something, since those are dropped; two of them are shown to change acceptance.
- JSON numbers are reals, and pattern, format and the like are parameters of the acceptance relation.
- WindowsArgs.QuotingRoundTripsIff: does not speak of cmd's own parsing behind `/c` or `/k`; there `WindowsArgs.RawTailIsVerbatim` shows the text to be verbatim.
- Windows APIs, pipes, job objects, ACL leases and process waiting: foreign calls. The program part of the command line and read errors of a pipe are not modelled either.
- Capture.CaptureReads: takes the outcome of writing the shared stream's log file as one choice for the whole capture; nothing it states depends on that choice.
- A log file that is written in part, a log shared by two streams, and text search in a stream (`contains`).
- `probe_ready`, `list`, `running_count`, `kill_session` and `wait_for`: filters over the entries; `running_count` normalises paths while the quota compares exact strings. Ids are assumed fresh. Poisoned locks are not modelled.
- The polling interval of `drain`: a poll is a step, and its deadline a choice of that step.
- LspClient.NoRequestIsStranded: treats a requester that is cancelled from outside as a step of its own; framing, document versions and cached diagnostics, whose check and insertion are under different locks, are not part of this model.
- JsonExtract.ExtractIsExact: works on characters where the source scans bytes, which is the same for the ASCII brackets, quotes and backslashes it looks at; a number is any text of number characters.
- Fact and open-item ids: they are built from the current length and can repeat after a removal, and the source promises no distinctness.
- NaN confidences, the text of error messages, prompt rendering, parsing of instructions and the circuit breaker.
- Assessment.AssessProjectState: takes the signal of a message as extracted, and gives the reasons and the summary as data instead of English sentences. Slicing an id inside a character, on which the source would panic, is not modelled.
- Folding is on lines: splitting a text into lines and joining them again, which loses a trailing empty line and a carriage return, is left out, as are ANSI stripping, base64 and path shortening, blank-line squeezing, cross-message deduplication and truncation.
- CLI, REPL, RPC, sinks, WebSocket bridge, tool formatting, prompt and policy tables, plan validation, receipts: plumbing or single-branch code.
