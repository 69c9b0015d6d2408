# PreviouslyOn: a verified model of its log protocols and algorithms

PreviouslyOn keeps an append-only event log about coding sessions and runs several protocols over it that
have to survive crashes, retries and concurrent processes. Beside them stand a few dense algorithms. This
project models both in Dafny and proves what they keep: for every interleaving, every interruption, every
input and every way a reader hands out its bytes.

The modules follow the program's parts.

* `EventLog`: an insert is decided by its unique key, and nothing recorded ever changes.
* `Rollover`: starting a fresh task. A state machine whose attempts move between reads of the log, appends
  and App Server calls, each of which may succeed, fail, lose its answer or be the last thing an attempt
  does; and the program of one attempt, proved to be a run of that machine.
* `Projection`: a table projected from the log in the events' own order, applied or rebuilt.
* `ContractEvidence`, `StopBlocks`: regression-contract evaluations written by the hook and by the hand-off, the
  real test runs behind their states, and how often a Stop is blocked.
* `FallbackQueue`: appenders, a daemon and one replayer over a queue file, a replay file and the store,
  interrupted anywhere; and the replay as a program.
* `ContinuationClaim`: who is given the advice to start a new task, under redelivery and replay.
* `SetupJournal`, `SetupHooks`: the redo journal of install and uninstall; merging hooks into `hooks.json`.
* `BoundedLine`, `ShellArgv`, `LiteralToken`: the chunked line reader, the argv parser against the quoter,
  the token scan, hunk merging and contract matching.
* `Fingerprint`, `GitPaths`, `GitCorrelation`, `GitRevalidation`, `GitRename`: content fingerprints and what Git
  snapshots say.
* `AgentLineage`, `ContextPack`, `Ranking`: the lineage fixpoint, ranking and budget trimming of context packs.
* `Wrappers`, `ByteStrings`, `GitChanges`, `Lexicographic`, `Characters`: what the others share.

Where a method carries out a specification function, its `ensures` is that connection, and lemmas prove what
the function means. Content hashes are any function; a lemma that needs it says on which inputs they must not
collide. Dedupe keys and event ids are the values they are hashed from. A pack's tokenizer is any measure; where it
matters, the condition is that a larger declared count makes the pack no shorter and at most four tokens longer,
which holds of a tokenizer that splits numbers into groups of three digits (`DigitGroupsGrowLittle`).

## What the code does not promise

Some natural claims are false of the code. The model keeps the code as it is; a lemma names the failing
input and another says exactly when the claim holds.

* The token scan goes over non-overlapping occurrences and can miss a standalone one: `a.a` in `ba.a.a`.
  It is complete exactly for symbols without a self-overlap that begins right after a non-identifier
  character (`ScanCompleteIffNoSplitBorder`); every identifier is one.
* Two attempts that resume the same thread can start two turns, and one of them returns a turn that is not
  the recorded one (`TwoResumersDisagree`, `ReturnedTurnIsFinalIffRecorded`). The thread always agrees.
* A Stop whose contracts cannot be evaluated gets an evaluation id made only of the event and the error. Delivered
  a second time it writes a second evaluation under that id, with the same time, so the event ids decide which of
  the two holds the row that guards the Stop. If the first sorts last, any number of deliveries blocks once; if the
  second does, the Stop is blocked again by the third delivery and every later one (`ThreeDeliveriesBlockTwice`,
  `RedeliveredInvalidStop`). In general a completion is blocked at most once as long as no guarding row is replaced,
  and after one is, some Stop is blocked again (`AtMostOneBlock`, `GuardsStayIffSpared`, `LostGuardBlocksAgain`).
* A replay that is interrupted after it rearmed a suggestion and before its file is removed is repeated and claims
  the generation it opened itself; the suggestion then counts as given although nobody received it
  (`InterruptedReplayConsumesItsRearm`). One is left to be given exactly when a single pass rearmed it and no later
  pass came as far as claiming (`RepeatedReplayLeavesPendingIff`, `FinishedReplayLeavesPendingIff`).
* A record that is confirmed need not be stored itself: the store keeps the first record of a key, and the hook's key
  does not depend on the payload (`SecondRecordIsNotStored`, `RecordIsStoredIffFirst`).
* Committing exactly what a checkpoint fingerprinted need not keep a task unchanged: Git can fold a new file of the
  task and a deleted file outside it into one rename, whose old path is not on record (`RenameChangesVerdict`). It
  does keep it exactly when no committed change joins a checked path with one that is not (`RevalidateAcrossCommit`).
* Revalidation trims the names in Git's listings but only validates stored ones, so a change to a task file that was
  stored with a leading space goes unseen (`LeadingSpaceHidesAChange`, `ChangeIsSeenIffTrimmed`).

## Model

| member | source | states |
|---|---|---|
| EventLog.Store.InsertEvent | src/store.rs:183-205 | An insert is Inserted or Duplicate by its key; a duplicate changes nothing |
| EventLog.FirstWriterWins | src/store.rs:914-931 | However many writers insert, a key keeps what its first writer wrote and older events never change |
| Projection.ProjectedLog.InsertEvent | src/store/projection.rs:45-98 | A new event is applied, or has the table rebuilt when it sorts before the latest; either way the event of a row that sorts last holds it; a duplicate changes nothing |
| Projection.RebuildIsLastWins | src/store/projection.rs:100-123 | Replaying the whole log in its order comes to the same table as letting the last event of each row win |
| Projection.RowSortsLast | src/store/projection.rs:1020-1040 | A row holds the event for it that sorts last, whatever order the events arrived in |
| Rollover.AtMostOneThreadStart | src/continuation.rs:135-257 | In every run of concurrent, retried and crashing attempts an operation issues at most one thread/start |
| Rollover.TurnsTargetTheRecordedThread | src/continuation.rs:286-312 | Every turn ever started goes to the single recorded thread and carries the operation id as message id |
| Rollover.StartedMeansATurnWasStarted | src/continuation.rs:313-321 | A started record names the recorded thread and a turn that was really started on it with the operation id |
| Rollover.StartedIsFinal | src/continuation.rs:135-138 | With a started record in the log, an attempt that has yet to read returns exactly it or crashes, and makes no call, whatever else runs |
| Rollover.FailedIsFinal | src/continuation.rs:139-146 | With a failed record and no started one, an attempt that reads returns exactly that failure, thread recorded or not, and makes no call in any continuation |
| Rollover.RecordedThreadIsPreparedIff | src/continuation.rs:135-157 | An attempt goes on with a recorded thread exactly when the operation has neither started nor failed |
| Rollover.ReturnedMeansRecorded | src/continuation.rs:313-333 | In every run an attempt that returned started, failed or pending has that record of its operation in the log |
| Rollover.AbandonedIsNeverRetried | src/continuation.rs:165-179 | When the creator is gone before its thread was recorded, no continuation makes any call for the operation and no attempt returns a started task |
| Rollover.PendingWithoutThreadStops | src/continuation.rs:159-179 | An attempt that finds a pending record without a thread ends in PendingRecovery and never calls anything |
| Rollover.ReturnedTurnIsFinalIffRecorded | src/continuation.rs:313-333 | What an attempt returns is what all later calls return exactly when no different turn was recorded before; the thread is always the same |
| Rollover.TwoResumersDisagree | src/continuation.rs:217-257 | A run in which two resumed attempts start two turns and one returns a turn that was not recorded |
| Rollover.EachAttemptStartsAtMostOneTurn | src/continuation.rs:286-312 | Two turn/start calls are always by two attempts |
| Rollover.TurnsFollowTheWorktreeCheck | src/continuation.rs:259-312 | No turn is started before the same attempt read that thread in the repository's worktree |
| Rollover.ExecKeepsSafe | src/continuation.rs:559-589 | The protocol invariant: one creator at a time and only before a thread is recorded, every other call on the recorded thread, log and calls only grow |
| Rollover.RecordFailure | src/continuation.rs:625-660 | A failure is recorded once per operation with the thread known so far and reported as failed |
| Rollover.ReadAndClaim | src/continuation.rs:135-179 | Reads and claims as the machine does, whose reading step FailedIsFinal, RecordedThreadIsPreparedIff and AnsweredFromTheLog pin: started before failed before a recorded thread; only an inserted pending record lets an attempt create |
| Rollover.PrepareAndConnect | src/continuation.rs:181-215 | A hand-off or connection failure records the failure and stops; otherwise the attempt resumes the recorded thread or creates one |
| Rollover.ResumeThread | src/app_server.rs:1403-1429 | A resume answered with another thread id is a failure; otherwise the attempt goes on with the recorded thread |
| Rollover.CreateThread | src/continuation.rs:235-257 | The created thread is recorded before anything else is done with it |
| Rollover.StartTurn | src/continuation.rs:259-333 | Reading, naming and starting the turn in order; a naming failure is ignored, every other failure is recorded |
| Rollover.ExecuteAutomaticRollover | src/continuation.rs:76-333 | The whole program of one attempt ends in the log, calls and result that its steps of the machine lead to; FirstAttemptRuns, LaterAttemptRuns and AnsweredFromTheLog say which these are |
| Rollover.FirstAttemptRuns | src/continuation.rs:159-333 | A new operation: for each step that can fail, exactly the records left, the calls made in order and the result, from the claim through thread/start, read, name and turn/start to the started record |
| Rollover.LaterAttemptRuns | src/continuation.rs:217-333 | An operation with a recorded thread and no final record: it resumes that thread and starts no other, with exactly these records, calls and results for each step that can fail |
| Rollover.AnsweredFromTheLog | src/continuation.rs:135-179 | With a started, else a failed, else a bare pending record the attempt ends with what is recorded, adds nothing and calls nothing |
| Rollover.AloneIsARun | src/continuation.rs:76-333 | What an attempt does alone is one of the runs the safety results quantify over |
| ContractEvidence.ApplyObservedTestFreshness | src/hook/contract_policy.rs:456-532 | Updates each required test in place from the observed run, else from decided evaluations of the same content, else stale if it passed before |
| ContractEvidence.ApplyPriorTestEvidence | src/continuation.rs:446-489 | The same for the hand-off, which also compares contract and test ids |
| ContractEvidence.EvaluateContractsForSource | src/hook/contract_policy.rs:352-408 | The hook's evaluation: fresh tests, ready iff all passed, a continuation issued only at an unready Stop that no hook is continuing and no row guards |
| ContractEvidence.EvaluateContractHandoff | src/continuation.rs:423-443 | The hand-off's evaluation, which never issues a continuation |
| ContractEvidence.WrittenSpeaksOfTheMatchedTests | src/hook/contract_policy.rs:352-375 | An evaluation of either writer speaks of the matched tests in their order, changing state and detail only, about the repository, task and content it was made for |
| ContractEvidence.OwnRunDecides | src/hook/contract_policy.rs:464-487 | In the written evaluation, a test with the command of the event's run is Passed iff the run passed on the evaluated content, Stale iff it passed on other known content, Failed iff it failed, each with its detail |
| ContractEvidence.FirstDecisionIsKept | src/hook/contract_policy.rs:489-514 | Any other test has state and detail of the first evaluation read of the same repository, task and content whose first such test passed or failed; the hand-off also compares the ids |
| ContractEvidence.UndecidedTestIsStaleOrUntouched | src/hook/contract_policy.rs:515-531 | When none decides it, it is Stale if it passed for the repository and task on any content and untouched otherwise |
| ContractEvidence.ReadyIffEveryTestHasPassed | src/hook/contract_policy.rs:378-385 | An evaluation of either writer is ready exactly when each required test passed in the event's run on the evaluated content or is carried as passed from an evaluation of that content |
| ContractEvidence.PassingRunLetsTheStopThrough | src/hook/contract_policy.rs:378-406 | A run that passed on the evaluated content makes an evaluation that needs no other command ready, and its Stop is not blocked |
| ContractEvidence.FirstMatch | src/hook/contract_policy.rs:497-501 | Finds a listed test with the same command, and none only if there is none |
| ContractEvidence.Carried | src/hook/contract_policy.rs:490-509 | A carried state comes from some earlier evaluation of the same content, and nothing is carried only if none decided it |
| ContractEvidence.StateFromPriorIff | src/hook/contract_policy.rs:489-530 | Without a run of its own a test is decided iff some evaluation of the same content decided it so, stale iff none did but it passed on other content |
| ContractEvidence.PassedMeansObservedRun | src/hook/contract_policy.rs:456-532 | In any log of both writers, Passed has a real passing run of that command, repository and task on exactly the evaluated content; Failed and Stale have their runs |
| ContractEvidence.ReadyMeansEveryTestRan | src/hook/contract_policy.rs:378-385 | A ready evaluation has such a passing run for every required test |
| StopBlocks.StopIsBlockedIffUnguarded | src/hook/contract_policy.rs:386-406 | A Stop is blocked exactly when tests are unmet, no hook is active and no row with the same content and contracts issued before |
| StopBlocks.OnlyStopsAreBlocked | src/hook/contract_policy.rs:386-406 | No hand-off, no ready evaluation, no event other than a Stop and no Stop a hook is already continuing issues a continuation |
| StopBlocks.AtMostOneBlock | src/hook/contract_policy.rs:386-445 | As long as no guarding row is replaced, both paths together block at most once per repository, task, content and contracts |
| StopBlocks.GuardsStayIffSpared | src/store/projection.rs:991-1018 | On such a run a step leaves every block with its row exactly when it replaces no issued row and its own block gets its row |
| StopBlocks.LostGuardBlocksAgain | src/hook/contract_policy.rs:386-406 | After a step that does not spare the guards, some Stop is enabled and blocked although the same block was issued before |
| StopBlocks.FreshIdsReplaceNothing | src/contracts.rs:1462-1478 | Evaluations with ids of their own, as the clock gives them, replace no guarding row |
| StopBlocks.InvalidIsIssuedIff | src/hook/contract_policy.rs:410-445 | The invalid path issues exactly when no hook is active and no row of the same scope issued |
| StopBlocks.RedeliveredInvalidStop | src/hook/contract_policy.rs:410-445 | One invalid Stop delivered n times, with anything elsewhere between, blocks min(n, 1) times if its issued evaluation sorts last, else 0, 1, 1, then n - 1 times: at most once exactly for n at most 2 or in the first order |
| StopBlocks.ThreeDeliveriesBlockTwice | src/hook/contract_policy.rs:410-445 | From an empty log, three deliveries of one overtaken invalid Stop block twice |
| StopBlocks.EveryLaterDeliveryBlocks | src/store/projection.rs:49-96 | Once the unissued evaluation holds the row, each further delivery blocks again |
| FallbackQueue.ConfirmedIsNeverLost | src/hook.rs:812-944 | In every run with crashes at any step, each confirmed record waits in the queue or the replay file or was brought to the store, which holds the first record of its key, this one or an earlier one |
| FallbackQueue.RecordIsStoredIffFirst | src/hook.rs:265-269 | A record brought to the store is itself in it exactly when it is the first of its key |
| FallbackQueue.SecondRecordIsNotStored | src/hook.rs:265-269 | A run in which a second record of a key is confirmed while the store holds the first and no file holds either |
| FallbackQueue.AcceptedOnce | src/hook.rs:868-874 | However often a record is delivered and replayed, the store accepts its key once |
| FallbackQueue.RenameOverwritesNothing | src/hook.rs:815-831 | When the queue is moved aside there is no replay file it could overwrite |
| FallbackQueue.RemovedMeansHandled | src/hook.rs:845-899 | When the replay file is removed all its records were brought to the store and every other line has its marker |
| FallbackQueue.QueueFiles.ReplayQueueFile | src/hook.rs:838-899 | Handles the file line by line and removes it; on failure the file stays or was wholly stored |
| FallbackQueue.QueueFiles.ReplayFallback | src/hook.rs:812-836 | An uninterrupted replay leaves no files, every record of both brought to the store and its key in it; any replay is a run of the machine |
| ContinuationClaim.AdviceMeansClaim | src/hook/continuation_policy.rs:92-141 | Every ack with advice goes to a source whose claim with that advice is in the log |
| ContinuationClaim.OneSourcePerGeneration | src/hook/continuation_policy.rs:127-140 | Two acks of one generation go to the same source with the same advice, under any redelivery, replay and crash |
| ContinuationClaim.AdvisedSourcesAreBounded | src/hook/continuation_policy.rs:17-273 | The distinct sources ever advised are at most one more than the rearm events |
| ContinuationClaim.OnlyReplaysRearm | src/hook.rs:867-874 | In every run each rearm event was left by a replayed delivery and carries the advice that was answered to its source |
| ContinuationClaim.OwnClaimIsRepeated | src/hook/continuation_policy.rs:17-23 | A source that holds the claim of the latest generation is proposed it again, whatever is pending or due |
| ContinuationClaim.OthersAreProposed | src/hook/continuation_policy.rs:24-90 | A source without a claim is proposed what is pending, else the first suggestion if the session is due, else nothing |
| ContinuationClaim.SearchEvents | src/hook/continuation_policy.rs:203-237 | Searching the events backwards finds the last rearm and the last unclaimed one, and none only if there is none |
| ContinuationClaim.ClaimContinuationSuggestion | src/hook/continuation_policy.rs:92-141 | The claim of a generation is inserted once; advice is returned only to a source holding a claim with it |
| ContinuationClaim.RearmContinuationAfterDiscardedAck | src/hook/continuation_policy.rs:239-273 | A rearm leaves its generation to be claimed exactly when it was not claimed before |
| ContinuationClaim.RepeatedReplayLeavesPendingIff | src/hook.rs:867-874 | Over any number of interrupted passes of the replay over one record, in a session with any other rearms: where its rearm is listed last, a suggestion is left to be given exactly when one pass rearmed it and no later one came as far as claiming, else the record's own source holds the claim; where another is listed after it, as soon as a pass rearmed |
| ContinuationClaim.FinishedReplayLeavesPendingIff | src/hook.rs:867-899 | When the last pass ran to its end and the rearm is listed last, exactly when no earlier pass had rearmed |
| ContinuationClaim.ConsumedSuggestionReachesNobody | src/hook/continuation_policy.rs:17-33 | A suggestion whose rearm its own source consumed is offered to no source without a claim while nothing is pending and the session is not due |
| ContinuationClaim.InterruptedReplayConsumesItsRearm | src/hook.rs:867-874 | A run in which a repeated replay claims the generation it opened, and none is left pending |
| SetupJournal.Disk.ApplySetupJournal | src/setup.rs:532-546 | Applies a valid journal's targets in order up to the interruption, refuses an invalid one untouched |
| SetupJournal.Disk.PersistAndApplyJournal | src/setup.rs:401-408 | Refused untouched, completed with every target desired and the journal gone, or interrupted in a recoverable state |
| SetupJournal.Disk.RecoverSetupJournal | src/setup.rs:410-431 | Recovery from any interruption completes the operation or stays recoverable |
| SetupJournal.CrashAndRecover | src/setup.rs:401-431 | One operation and any number of interrupted recoveries: after one that runs to its end, all targets are as desired if the journal was ever persisted, and untouched if not |
| SetupJournal.FinalMeans | src/setup.rs:532-546 | Settled means every target as desired and every other path as before |
| SetupJournal.RedoFromPrefix | src/setup.rs:250-252 | Applying targets again over a prefix already applied equals the longer of the two |
| SetupJournal.ValidJournalHasDistinctPaths | src/setup.rs:433-508 | Validation admits no path twice and never the journal itself |
| SetupJournal.InstallJournalIsValid | src/setup.rs:246-260 | The journal an install writes passes its own validation |
| SetupJournal.UninstallJournalIsValid | src/setup.rs:328-339 | The journal of an uninstall passes its own validation too; what it writes where is UninstallWritesInOrder |
| SetupJournal.InstallAcceptedIff | src/setup.rs:433-477 | An install journal is accepted exactly when version, id and all digests agree and its three targets are hooks.json, config.toml and the manifest, each with bytes |
| SetupJournal.UninstallAcceptedIff | src/setup.rs:433-508 | An uninstall journal exactly when its four targets are these and one archive that did not exist, the archive has bytes and the manifest none |
| SetupJournal.InstallWritesInOrder | src/setup.rs:246-260 | After k targets of an install the first k of hooks.json, config.toml and the manifest hold exactly their bytes and everything else is as before |
| SetupJournal.UninstallWritesInOrder | src/setup.rs:328-339 | After k targets of an uninstall the first k of: hooks.json as desired, config.toml as desired, the archive with the manifest's bytes, no manifest; everything else as before |
| SetupJournal.InstallLeavesOldOrNew | src/setup.rs:401-431 | Wherever an install and its recoveries stop, hooks.json and config.toml each are as before or hold exactly their new bytes |
| SetupJournal.UninstallLeavesOldOrNew | src/setup.rs:401-431 | Wherever an uninstall and its recoveries stop, hooks.json and config.toml each are as before or exactly as desired |
| SetupJournal.InstallEnds | src/setup.rs:246-260 | A finished install leaves the three files with their bytes and no journal |
| SetupJournal.UninstallEnds | src/setup.rs:328-339 | A finished uninstall leaves hooks.json and config.toml as desired, the manifest's bytes in the archive, no manifest and no journal |
| SetupJournal.ManifestSurvivesIffArchivedFirst | src/setup.rs:332-337 | The manifest survives every prefix of the targets exactly when the archive is written before the removal |
| SetupJournal.UninstallNeverLosesManifest | src/setup.rs:328-339 | So at every interruption of an uninstall its bytes are at the manifest or the archive |
| SetupJournal.ManifestMeansInstalled | src/setup.rs:250-252 | On a fresh install the manifest is present only once both integration files are |
| SetupJournal.GeneratedArchiveNameIsRecognized | src/setup.rs:510-530 | The generated archive name is recognized exactly when its suffix parses as a UUID |
| SetupJournal.ArchivePathIff | src/setup.rs:510-530 | A path is an archive exactly when it lies in the data directory and its name is the prefix, a decimal number that fits 63 bits, a hyphen, a UUID and the suffix |
| SetupHooks.MergeHooks | src/setup.rs:832-867 | Merging event by event gives the specified root; MergedEventLists says what stands in it and MergeIsRefusedIff when there is none |
| SetupHooks.RemoveManagedHooks | src/setup.rs:869-883 | Cleaning event by event, in any order, gives the specified root; RemovedEventLists says what stands in it |
| SetupHooks.CleanGroups | src/setup.rs:849-852 | The groups somebody else has a hook in, in order, each as it was but for the hooks whose command contains the managed id |
| SetupHooks.OthersArePlaced | src/setup.rs:885-894 | The kept hooks stand at increasing positions of the original, exactly those of the hooks without a string command that contains previously-on-v1 |
| SetupHooks.OthersAreCounted | src/setup.rs:885-894 | Each such hook is kept as often as it was there and no hook of ours is |
| SetupHooks.MergedEventGroups | src/setup.rs:843-865 | Each of the six events holds the others' groups, as they were but for our hooks, then our group with its command, time limit and matcher |
| SetupHooks.MergedEventLists | src/setup.rs:843-865 | So every other hook occurs there as often as before, in the same order, and our one hook comes last |
| SetupHooks.RemovedEventLists | src/setup.rs:869-894 | After a removal each event holds exactly the others' groups and hooks, as often as before and in the same order |
| SetupHooks.MergeIsRefusedIff | src/setup.rs:838-848 | A merge fails exactly when the hooks are no object or one of the six events is present and no list |
| SetupHooks.RemovalTouchesNothingElse | src/setup.rs:869-883 | Removal adds and drops no key and leaves what is no list of groups as it was |
| SetupHooks.MergeIsIdempotent | src/setup.rs:832-867 | Merging twice is merging once |
| SetupHooks.MergeAgainReplaces | src/setup.rs:832-867 | A merge under another installation replaces ours and nothing else |
| SetupHooks.MergeKeepsUserHooks | src/setup.rs:843-865 | Every event keeps the hooks that are not ours in their order, and a managed event has exactly one hook beside them; other events and other fields of the file are untouched |
| SetupHooks.RemoveKeepsUserHooks | src/setup.rs:869-894 | Removal leaves in every event exactly the hooks that are not ours, in their order |
| SetupHooks.RemoveUndoesMerge | src/setup.rs:832-883 | Removal after a merge is removal of the original up to empty lists of managed events |
| BoundedLine.ReadBoundedLine | src/bounded_io.rs:17-60 | For every chunking the outcome is that of the whole input, at most the limit is held, and a delivered or drained frame is consumed exactly |
| BoundedLine.ReadAllFrames | src/hook.rs:848-861 | Repeated drained reads classify exactly the newline frames of the input |
| BoundedLine.ChunkExtendsFrame | src/bounded_io.rs:34-43 | What one more chunk tells about the length of the frame |
| BoundedLine.FramesPartitionInput | src/bounded_io.rs:17-60 | Frames concatenate to the input, and only the last may lack its newline |
| BoundedLine.FramesInvertFlatten | src/bounded_io.rs:17-60 | There is no other way to cut the input into frames |
| BoundedLine.OversizedFrameIsIsolated | src/bounded_io.rs:14-16 | Replacing one frame, oversized or not, changes the outcome of that frame only |
| BoundedLine.QueueFileReadsBackAppendedRecords | src/hook.rs:905-935 | Appended records without newlines and within the limit are read back exactly |
| ShellArgv.ParseSimpleArgv | src/hook/tool_evidence.rs:464-534 | The character loop computes the specified parse |
| ShellArgv.ParseInvertsDisplay | src/hook/tool_evidence.rs:404-412 | Parsing the displayed form of any non-empty argv of arbitrary strings gives back that argv |
| ShellArgv.DisplayIsInjective | src/hook/tool_evidence.rs:584-593 | Different argvs are displayed differently |
| ShellArgv.ParseAcceptsExactlyTheGrammar | src/hook/tool_evidence.rs:464-534 | The parser accepts exactly the non-empty lines of an independent word grammar, with their words |
| ShellArgv.ShellSyntaxIsRefused | src/hook/tool_evidence.rs:518-519 | Any of the seventeen shell characters outside quotes refuses the command, whatever well-formed text comes before and whatever after |
| ShellArgv.QuotedExpansionIsRefused | src/hook/tool_evidence.rs:493-501 | So does a dollar, a backquote or the end of a line inside double quotes |
| ShellArgv.DisplayedAsItIsIff | src/hook/tool_evidence.rs:584-593 | A word is displayed unquoted exactly when it is not empty and consists of ASCII letters, digits and the ten listed characters |
| ShellArgv.NormalizeIff | src/hook/tool_evidence.rs:414-425 | A command is normalized to a program and arguments exactly when some line of the grammar denotes them, the program is no assignment and it is a recognised test |
| ShellArgv.NormalizeIsStableUnderDisplay | src/hook/tool_evidence.rs:414-425 | Normalizing the displayed form of a normalized command changes nothing |
| LiteralToken.ScanCompleteIffNoSplitBorder | src/contracts.rs:922-929 | The scan finds a standalone occurrence in every text exactly for symbols without a split border |
| LiteralToken.ScanCompleteForIdentifiers | src/contracts.rs:922-933 | For identifier symbols it finds a token iff some occurrence, overlapping or not, stands alone |
| LiteralToken.DottedSymbolIsMissed | src/contracts.rs:922-929 | The scan misses `a.a` in `ba.a.a` |
| LiteralToken.MergedHunkKeepsTokens | src/contracts.rs:1004-1020 | The merge of two available hunks contains a token iff one of them does |
| LiteralToken.MergedChangeConcernsSameGroups | src/contracts.rs:985-1002 | Folding two diffs of a file into one change keeps every selector's verdict |
| LiteralToken.MatchContractsForChanges | src/contracts.rs:836-913 | The nested loops return exactly the relevant contracts in order and the paths that reach them |
| LiteralToken.RelevantIff | src/contracts.rs:836-920 | A contract is relevant exactly when it is active and some change has a new or previous path equal to an exact selector or behind a prefix one, with no symbols, an uninspectable hunk or a token of one in the hunk |
| LiteralToken.ReachedIff | src/contracts.rs:851-890 | It is reached through the new path of such a change, or through the previous one when only that is selected |
| LiteralToken.RelevantOneByOne | src/contracts.rs:843-905 | The relevant contracts are listed in the given order, each as often as it is given |
| LiteralToken.UninspectableChangesAreConservative | src/contracts.rs:787-834 | Losing the hunks of any changes hides no contract and no path |
| Fingerprint.EncodeIsInjective | src/contracts.rs:1217-1295 | The hashed stream determines every path and state in order |
| Fingerprint.EntryBytes | src/contracts.rs:1231-1243 | An entry is hashed as path, NUL and the word missing with a NUL, or the word sha256 with a NUL and the hash |
| Fingerprint.VariableWidthIsAmbiguous | src/contracts.rs:1335-1343 | Without the fixed hash width two different walks hash the same stream |
| Fingerprint.EqualStreamsIffEqualStates | src/contracts.rs:1217-1343 | Sorted walks hash equal streams exactly when they saw the same states on the same paths |
| Fingerprint.ContentPreimageIsInjective | src/contracts.rs:1240-1290 | The content hash tells links from files, and files by mode and bytes |
| Fingerprint.RelevantPathsAreSorted | src/contracts.rs:1225-1228 | What is walked is each valid path once, in byte order, a form only one list has |
| Fingerprint.RelatedContentFingerprint | src/contracts.rs:1217-1295 | The live computation: valid paths sorted, the stream of their states hashed, failure at the first path that cannot be read |
| Fingerprint.RelatedContentFingerprintFromSnapshot | src/contracts.rs:1300-1333 | The same from recorded, dirty and committed states of a snapshot |
| Fingerprint.LiveFingerprintFailsIff | src/contracts.rs:1233-1260 | There is no live fingerprint exactly when a relevant path holds what cannot be read |
| Fingerprint.SnapshotFingerprintFailsIff | src/contracts.rs:1300-1333 | There is none from a snapshot exactly when a relevant path has no record and was dirty, or the commit's tree cannot be read at it |
| Fingerprint.LiveEqualsSnapshotIffStatesAgree | src/contracts.rs:1217-1343 | The two fingerprints are equal exactly when on every valid path the file there now has the state the snapshot recorded, else that of its commit, else missing; unless the two streams collide |
| Fingerprint.EqualFingerprintsMeanEqualFiles | src/contracts.rs:1217-1295 | Unless the hash collides on what was hashed, equal fingerprints mean equal files on every valid path |
| GitPaths.ValidatedPathIsStable | src/git.rs:896-917 | Validating a validated path changes nothing |
| GitPaths.ValidatePathIff | src/git.rs:896-917 | A path is valid, with forward slashes, exactly when it has no NUL, is relative, not empty, names no drive and no sensitive file and no part between slashes is empty, a dot or two dots |
| GitPaths.NormalizedPathIs | src/git.rs:889-894 | Normalizing cuts exactly the outer white space, turns the slashes and then drops every leading dot and slash |
| GitPaths.ValidatedPathIsNormalIffTrimmed | src/git.rs:889-917 | A validated path is its own normal form exactly when it has no outer white space |
| GitPaths.NormalizedTwiceIsOnce | src/git.rs:889-894 | Normalizing a validated path twice gives it back exactly when normalizing it once does |
| GitCorrelation.CorrelateChanges | src/git.rs:247-392 | Every differing fingerprint, changed signature and vanished change is reported once per path pair, nothing else is, each with the status and counts of the evidence that decides; a fingerprint makes Added of a file that came, Deleted of one that went and Modified of other content, and only for a path nothing else names; ModifiedBy means the tool named a side |
| GitCorrelation.SignatureChangedIff | src/git.rs:267-276 | A working-tree change counts as new unless the last earlier change of its path has the same status, counts and previous path |
| GitCorrelation.CollectChanges | src/git.rs:258-345 | The changes are collected in four layers, each complete for its evidence, and fingerprints add only paths nothing names yet |
| GitCorrelation.LastDecides | src/git.rs:258-345 | Of several changes with one pair of paths the last decides: vanished, else working tree, else commits, else fingerprints |
| GitCorrelation.Attribute | src/git.rs:346-392 | Of the changes with one pair of valid paths the last is reported, stamped and attributed by tool evidence |
| GitCorrelation.UnchangedSnapshotReportsNothing | src/git.rs:247-392 | Between equal snapshots nothing is reported |
| GitCorrelation.ValidKeyIff | src/git.rs:359-371 | A change is reported under its validated paths exactly when every path it has is valid |
| GitRevalidation.RevalidateTask | src/git.rs:410-647 | The verdict on a comparable baseline: Unchanged iff it is an ancestor and nothing moved, so that every touched trimmed path holds its recorded content; Broken iff a path is unexpectedly missing, a recorded file is gone or a listed deletion is reported; Diverged iff it is no ancestor. Reported are the last listed change of each path pair and, for a moved path none of them names, Added if it came, Deleted if it went, TypeChanged if a side is no plain file, else Modified |
| GitRevalidation.Judge | src/git.rs:518-647 | Reports exactly the touching changes that do not restore recorded content and the moved paths, with the status of what moved, and checks the paths that the listed renames lead to |
| GitRevalidation.BrokenIffLost | src/git.rs:607-636 | Over the inputs, with paths as the listing normalizes them: Broken exactly when the baseline is an ancestor and a path that should be there is missing, a recorded file is gone or the last unrestored listed change of a path pair deletes |
| GitRevalidation.RestoredFileIsAdded | src/git.rs:567-573 | A file deleted at the checkpoint and back since, with nothing listed, is reported as Added and the task as Changed |
| GitRevalidation.MovedIff | src/git.rs:596-606 | A path is checked in the end exactly when the last rename that speaks of it brought it, or it was checked and none took it away |
| GitRevalidation.RecordedIsTheLast | src/git.rs:515-524 | The recorded state of a path is that of the last fingerprinted name that validates to it: missing without a hash, else that hash |
| GitRevalidation.NothingMovedIffNothingReported | src/git.rs:600-636 | The computed test for Unchanged is that nothing moved |
| GitRevalidation.RevalidateAcrossCommit | src/git.rs:487-636 | Committing content exactly as the checkpoint fingerprinted it, of the task's files and of others, keeps an unchanged verdict unchanged exactly when no committed change joins a checked path with one that is not |
| GitRevalidation.CommitMovesNothingIff | src/git.rs:512-541 | The same about the conditions the two verdicts decide |
| GitRename.RenameChangesVerdict | src/git.rs:690-744 | A new file of the task and a deleted file outside it, committed as fingerprinted and listed as one rename: Unchanged before, Changed after |
| GitRename.RenameIsCommitOfCheckpoint | src/git.rs:140-162 | The two states of that example are a checkpoint and a commit of exactly what it fingerprinted |
| GitRevalidation.CheckpointIsUnchangedIff | src/git.rs:140-162 | Right at its checkpoint a task is unchanged exactly when each touching change names only dirty checked paths with recorded content and nothing is missing unexpectedly |
| GitRevalidation.ChangeIsSeenIffTrimmed | src/git.rs:769-783 | Git's change to a file, normalized as its listing is parsed, is compared with the file's stored path, old or new, exactly when the name has no outer white space |
| GitRevalidation.LeadingSpaceHidesAChange | src/git.rs:889-894 | A task file stored with a leading space is listed by Git without it, so its committed change leaves the condition for Unchanged true |
| AgentLineage.ResolveLineage | src/app_server.rs:1926-1948 | The rounds end at the fixpoint: an agent is linked iff its observed parents lead to an initially linked one, with the nearest one's task; initial links stay |
| AgentLineage.RunRounds | src/app_server.rs:1927-1948 | At most one round per agent suffices to settle |
| AgentLineage.Round | src/app_server.rs:1928-1944 | A round extends every lookup by one hop and reports a change exactly when it was not settled |
| AgentLineage.UnlinkedCycleInheritsNothing | src/app_server.rs:1926-1948 | Agents whose parents lead only to one another stay unlinked |
| AgentLineage.UnlinkedOnlyShrinks | src/app_server.rs:1927-1948 | Every round that changes something links a new agent, so the bound on rounds is enough |
| ContextPack.Build | src/context_pack.rs:64-268 | The result is the first pack of the drop chain declared to fit, each list a prefix of its ranked selection; its measured size is the declared one and within the budget for a measure that grows little; failure only if none fits or the budget is zero |
| ContextPack.Trim | src/context_pack.rs:249-266 | Trimming ends at the first fitting pack of the chain, or with failure after the last drop |
| ContextPack.ChainDropsFromTheEnds | src/context_pack.rs:254-264 | After n drops tests, files, unresolved items and facts are emptied in that order from their ends |
| ContextPack.StabilizeTokenCount | src/context_pack.rs:315-325 | The declared count after at most five recounts |
| ContextPack.DeclaredCountIsExact | src/context_pack.rs:315-325 | Five recounts are enough for the declared count to be the measured one, for a measure that grows little |
| ContextPack.DigitGroupsGrowLittle | src/context_pack.rs:306-313 | A tokenizer that splits numbers into groups of three digits is such a measure |
| ContextPack.NoEligibleFactOutranksAKeptOne | src/context_pack.rs:122-157 | No eligible fact left out of a list outranks one kept in it |
| ContextPack.NoTestOutranksAKeptOne | src/context_pack.rs:185-207 | No test of the task left out of the list ranks before a kept one, unless it has its id |
| ContextPack.NoFileOutranksAKeptOne | src/context_pack.rs:159-183 | Nor does a file change, unless it has the paths of a kept one |
| ContextPack.SelectedFilesAreDistinctPerAttribution | src/context_pack.rs:159-183 | A path appears at most once per attribution among the selected files |
| ContextPack.FactLeIsOrder | src/context_pack.rs:356-369 | The fact order is total and transitive |
| ContextPack.FactOrder | src/context_pack.rs:356-390 | Pinned facts come before confirmed ones, then decisions, constraints, goals, progress, notes and open items, then the newest, then by id |
| ContextPack.StringOrder | src/context_pack.rs:356-369 | Ids, names and paths are compared character by character, a text before those it begins |
| ContextPack.FileOrder | src/context_pack.rs:167-180 | The agent's own changes come first, then by path, by previous path with none first, and by status in Git's order |
| ContextPack.TestOrder | src/context_pack.rs:192-205 | Failed tests come before passed, skipped and unknown ones, then the newest, then by name and id |
| ContextPack.EligibleIff | src/context_pack.rs:115-143 | A fact is eligible exactly when it is of this task, confirmed or pinned, fresh, not superseded, and for each evidence id it names, of which there is one, the last item stored is verified, intact, of its repository and task and of no other fact |
| ContextPack.ListsAreLimited | src/context_pack.rs:146-207 | At most five facts, five unresolved items, eight files and three tests, the files and tests of this task or of none |
| ContextPack.ShortListsAreComplete | src/context_pack.rs:146-157 | A list of facts or unresolved items that is not full has every eligible fact of its section as often as it was given |
| ContextPack.ShortListsCover | src/context_pack.rs:159-207 | A list of files that is not full leaves out no path pair, one of tests no id |
| Ranking.SortByIsStable | src/context_pack.rs:144-144 | What the order does not tell apart stays in the order it came in |

## Left out

* SQLite transactions, file permissions, sockets, process spawning, timeouts and the async runtime are steps that succeed, fail or are the last one.
* Power loss between a write and its directory sync; crashes are process crashes, and a file that was appended to or renamed stays so.
* A torn append to the queue, a second replayer, and the reserve file of the queue.
* Retention and purge, which delete events; migration, export and the projections that need no protocol.
* Regex redaction and the tokenizer are not part of this model; the measure of a pack is any function.
* HTTP, the CLI, the UI, prompt wording, TOML editing and the projection of App Server threads into events.
* A thread_created record without a thread id, which the program never writes: the attempt stops with an error before the hand-off is prepared rather than after.
* The session-link event of a rollover and the preparation of its hand-off prompt, which decide nothing of the protocol.
* Texts of reasons and warnings beside a contract match, and the retry classes of evaluation errors.
* The final sort of the lineage by thread id, and duplicate thread ids, which the App Server does not report.
* The temporary file of an atomic write: a write happens whole or not at all. No other process writes the setup files.
* I/O errors inside the bounded reader and its asynchronous twin.
* The observed order of suggestion events and of the evaluations a writer reads, and when a session stands as suggested: reads report anything, so the results hold for what they really report.
* A second process that ingests beside the daemon, as an import does: reading, evaluating and recording an evaluation is one step of the model, so two Stops evaluated at the same moment by two processes are not covered.
* RevalidateTask: Git's ancestor test, diffs and file probes are inputs, and failures of the first two are not modelled, because they only propagate.
* AtMostOneBlock: asks that no guarding row is replaced, because the code does not promise more; GuardsStayIffSpared and RedeliveredInvalidStop say what happens otherwise.
* ContextPack.Build: warnings, current validation and the rendered metadata are one opaque string, because trimming never changes them.
