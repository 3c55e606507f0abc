# knotch: the event ledger, verified

knotch keeps an append-only log of typed events for each unit of work. This project models the log
and everything that writes to it, in Dafny, and proves what a reader of the log may rely on.

| layer | modules | what it covers |
|---|---|---|
| vocabulary | `Options`, `ByteStrings`, `Events` | the 15 event bodies, envelopes, proposals, fingerprints, errors |
| views and rules | `Projections`, `Milestones`, `Attempts`, `Sorting`, `Preconditions`, `Warrants`, `Refusals` | effective events, status, scope, shipped set, retry counters, the append-time preconditions, and what admission and each refusal mean over log positions |
| every log | `Ledger`, `Runs`, `Gates`, `Phases` | `Reachable`: the empty log, or a reachable log plus one event some repository may push; theorems about all such logs |
| one append | `Batch`, `InMemory` | both batching modes, in-place push with truncate on failure |
| bytes | `FsStorage`, `Base64`, `FileRepository` | line splitting, the length check, the header, one attempt and the bounded retry, the resume cache |
| many writers | `Writers`, `Repository`, `Queue`, `Hooks`, `Losses` | a state machine of writers on one file, an append with its faults, the queue directory, a second state machine with retries, queue, drains and orphan log, and how proposals can be lost |
| reconcile and configuration | `Reconciler`, `Observers`, `Fixpoint`, `Config` | collecting and sorting proposals, the two log-driven observers, the second pass, workflow specs |

Code that updates state is written as methods and classes proved against a function of the old
state; what the program promises is then proved about that function, over all inputs, all runs or all
interleavings. `dafny verify dfyconfig.toml` checks everything.

Conventions. Event ids and clock readings are inputs (`Offer`); ids are fresh, clock readings are
anything. A fingerprint is the pair (body, supersedes), which makes it injective. The line codec is any
pair of functions that prints one non-empty line and reads back what it printed (`Faithful`).
A storage append is two steps, as in the program: read the file and compare lengths, then rename the new
content into place; either may fail, and the second may fail after it has taken effect. The theorems about
many writers are about runs in which nothing is recorded between the two steps of an append
(`Writers.Undisturbed`). That is what the per-unit lock is for: `Writers.LockedRunsDoNotOverlap` shows that
holding it is enough, `Writers.RenameKeepsExactly` that nothing less is, and `Writers.OverlapLosesCommit` is
a run of two writers without it in which a reported commit is gone.

## Where the code and its words differ

- `post_tool_append` says precondition rejections surface as an error
  (crates/knotch-agent/src/queue.rs:360-375). It appends in best-effort mode, where they come back inside an
  ordinary report. No hook ever surfaces one (`Queue.HookNeverSurfacesPrecondition`, and over all runs
  `Hooks.PreconditionsNeverSurface`); a healthy hook continues with nothing recorded, queued or noted exactly
  when a precondition or the payload check turns its proposal down (`Queue.RejectionVanishesExactly`), as
  for a switch to the model in use (`Queue.NoOpSwitchVanishes`).
- The same text says a proposal is never silently dropped. Under the default policy that holds but for one
  gap: the orphan log swallows its own write errors (crates/knotch-agent/src/orphan.rs:12-25), so under a full
  queue any proposal can be lost (`Losses.OrphanWriteCanLose`); `Hooks.NeverSilentlyGone` lists everything
  else that can become of it. And what the orphan log notes is the drop, not the proposal.
- Under `SpillOldest` a hook that was told its proposal is queued can lose it to a later enqueue, for every
  cap, and under no other policy: `Losses.QueuedLostExactly`.
- "Duplicate" is called the success signal for at-least-once delivery (README.md:38-41). An all-or-nothing
  batch that names an admissible proposal twice is rolled back and reports it as a duplicate with nothing
  recorded (`Batch.RepeatRollsBack`). A rolled-back batch does so exactly when it names an unrecorded proposal
  twice (`Batch.RollbackDuplicatesExactly`); best-effort reports never do (`Batch.DuplicateIsRecorded`).
- The reconciler's comment says two proposals of one observer and one kind share a fingerprint
  (crates/knotch-reconciler/src/lib.rs:118-124). They need not. What makes the order deterministic is that
  observer names differ, and nothing checks that: `Reconciler.DeterministicExactly`.
- A gate's prerequisites are described as earlier gates (crates/knotch-workflow/src/config.rs:72-80), but
  `from_spec` checks only that they are declared. A cycle is accepted, and its gates, and all that depend
  on them, can then never be recorded: `Config.CyclicSpecAccepted`, `Config.ConfiguredGateRecordable`.
- The guard on terminal transitions reads the scope from the raw log, `current_phase` from the effective
  events. They disagree exactly when the creation event was superseded while phases were open:
  `Phases.GuardMatchesViewExactly`, `Phases.SupersededCreationDisagrees`.
- The back-off text counts five pauses, 775 ms (crates/knotch-storage/src/file_repository.rs:312-315); the
  last attempt comes after four, 375 ms: `FileRepository.WaitBeforeLastAttempt`.
- Timestamps are described as strictly increasing (crates/knotch-kernel/src/time.rs:31-33); the stamp
  saturates, so two stamps at the end of the clock range are equal (`Ledger.Stamp`, `Ledger.StampsOrdered`).
- `from_spec` sorts the scope keys so that its errors are deterministic, but then resolves the scopes in
  hash-map order (crates/knotch-workflow/src/config.rs:258-262). The spec determines the error exactly when an
  earlier check fails or at most one scope names an undeclared phase: `Config.ErrorDeterminedExactly`, with a
  spec that has two true errors in `Config.TwoTrueErrors`.
- One blank line in a log file makes every later append on it fail: the loaded length skips blank
  lines, the length check counts them (`FsStorage.BlankLineWedges`). No run from an empty file gets there.
- `SpillOldest` with a cap of zero still keeps one entry (`Queue.EnqueueSize`).

## Model

| member | source | states |
|---|---|---|
| Preconditions.CheckPrecondition | crates/knotch-kernel/src/event.rs:347-648 | the scan over the log returns the verdict, and the exact error, that the rules give for each of the 15 bodies, the terminal guard first |
| Preconditions.CheckPhaseCompleted | crates/knotch-kernel/src/event.rs:375-391 | refused exactly when an effective event already completes the phase |
| Preconditions.CheckPhaseSkipped | crates/knotch-kernel/src/event.rs:392-407 | the workflow's skip policy is asked first, then whether the phase is already resolved |
| Preconditions.CheckGateRecorded | crates/knotch-kernel/src/event.rs:482-507 | collecting the recorded gates and scanning the prerequisites finds the first one missing |
| Preconditions.CheckStatusTransitioned | crates/knotch-kernel/src/event.rs:508-533 | the scan of required phases finds the first open one, for unforced terminal targets only |
| Preconditions.CheckEventSuperseded | crates/knotch-kernel/src/event.rs:555-570 | one pass decides both "already superseded" and "no such event", in that precedence |
| Warrants.AdmittedExactly | crates/knotch-kernel/src/event.rs:347-648 | on every reachable log a body is admitted if and only if no terminal transition stands (unless it supersedes) and its warrant, stated over positions of the raw log, holds |
| Refusals.RefusedExactly | crates/knotch-kernel/src/event.rs:347-648 | on every reachable log a body is refused with a given error if and only if the grounds for that error, its fields included, hold of the raw log's positions and every check before it passed |
| Refusals.ObjectionExactly | crates/knotch-storage/src/file_repository.rs:214-244 | a proposal is a duplicate exactly when an event on the log has its body and its supersede field, whatever the rest; otherwise it is turned down by its body's refusal, and failing that by the payload check |
| Warrants.EveryEventWarranted | crates/knotch-kernel/src/event.rs:347-648 | every event of every reachable log was warranted by the events before it |
| Warrants.ListedPositions | crates/knotch-kernel/src/project.rs:251-267 | an id is in the shipped list exactly when some ship of it that still counts has no later revert that counts, in terms of log positions |
| Attempts.ScanAnchorAttempts | crates/knotch-kernel/src/event.rs:650-661 | the loop returns the highest attempt over the raw log, superseded failures included |
| Attempts.MaxAnchorAttemptBounds | crates/knotch-kernel/src/event.rs:534-539 | the scanned maximum bounds every failure of the anchor and is attained |
| Attempts.MaxCallAttemptBounds | crates/knotch-kernel/src/event.rs:587-609 | the same for the effective failures of one tool call |
| Projections.FirstUnresolvedMeaning | crates/knotch-kernel/src/project.rs:27-45 | the named phase is open and every phase listed before it is resolved; no phase is named exactly when all are |
| Projections.FirstScopeMeaning | crates/knotch-kernel/src/event.rs:664-669 | the scope read is that of the first creation event, and none is read exactly when there is no such event |
| Projections.LastStatusIs | crates/knotch-kernel/src/project.rs:102-107 | an effective transition with no later effective one is the current status |
| Projections.LastStatusFrom | crates/knotch-kernel/src/project.rs:102-107 | conversely every current status comes from such a transition |
| Gates.MissingGateMeaning | crates/knotch-kernel/src/event.rs:490-505 | the named gate is unrecorded and every prerequisite before it is on record; none is named exactly when all are |
| Milestones.CollectShipped | crates/knotch-kernel/src/project.rs:251-267 | the mutating pass computes the shipped list |
| Milestones.RetainOthers | crates/knotch-kernel/src/project.rs:258-264 | the in-place retain drops exactly the entries with the id |
| Milestones.ShippedMeaning | crates/knotch-kernel/src/project.rs:248-267 | for every log the list names exactly the live ships, each id once, in order of the first ship since the last revert, with that ship's value |
| Milestones.ShippedExactly | crates/knotch-kernel/src/event.rs:408-457 | an id is listed exactly when some effective ship of it has no later effective revert |
| Ledger.Stamp | crates/knotch-kernel/src/time.rs:27-45 | at least the clock and the last stamp; strictly later exactly when the clock is or the range is not exhausted |
| Ledger.StampIsLeast | crates/knotch-kernel/src/time.rs:27-45 | no earlier time is at or after the clock and later than the last stamp, short of the end of the clock range |
| Ledger.StampsOrdered | crates/knotch-kernel/src/time.rs:27-45 | stamps never decrease along a reachable log and are equal only at the maximum |
| Ledger.FindDisorder | crates/knotch-kernel/src/log.rs:68-80 | comparing neighbours decides order of all pairs and names the first bad pair |
| Ledger.TakeUntilIsFilter | crates/knotch-kernel/src/repository.rs:165-176 | on an ordered log, stopping at the first late event equals filtering by the cutoff |
| Ledger.LoadUntilReachable | crates/knotch-kernel/src/repository.rs:165-176 | a time-cut snapshot is itself a reachable log, holding exactly the events up to the cutoff |
| Ledger.EventsDistinct | crates/knotch-storage/src/file_repository.rs:214-222 | no two events of a reachable log share an id or a fingerprint |
| Ledger.SupersedeTargetsEarlier | crates/knotch-kernel/src/event.rs:555-570 | every supersede names a strictly earlier event, and no event is named twice |
| Ledger.NoResurrection | crates/knotch-kernel/src/project.rs:64-97 | an event superseded in a log stays superseded in every extension, superseding the supersede included |
| Ledger.EffectiveStep | crates/knotch-kernel/src/project.rs:86-97 | appending an event keeps the effective events, less the one it supersedes, and adds itself |
| Ledger.Conservation | crates/knotch-kernel/src/project.rs:64-97 | effective events = events - supersedes, on every reachable log |
| Ledger.TerminalFreezes | crates/knotch-kernel/src/event.rs:357-367 | after an effective transition to a terminal status come only supersedes |
| Ledger.TerminalUnique | crates/knotch-kernel/src/event.rs:357-367 | at most one terminal transition is effective, and it is the current status |
| Ledger.ClosedExactly | crates/knotch-kernel/src/event.rs:357-367 | a unit is closed exactly when some terminal transition is effective |
| Ledger.SupersedeReopens | crates/knotch-kernel/src/event.rs:555-570 | the next event of a closed unit is a supersede, and it reopens the unit exactly when it names the terminal transition |
| Ledger.PhaseEventsUnique | crates/knotch-kernel/src/event.rs:375-407 | effective: one completion and one skip per phase at most, the skip first, whatever was superseded since |
| Ledger.SubagentUnique | crates/knotch-kernel/src/event.rs:571-586 | effective: one completion per agent |
| Ledger.ApprovalUnique | crates/knotch-kernel/src/event.rs:622-644 | effective: one approval per target and approver |
| Ledger.ApprovalTargetsEarlier | crates/knotch-kernel/src/event.rs:622-644 | each approval names an earlier event that still counted at the time |
| Ledger.CreatedFirst | crates/knotch-kernel/src/event.rs:370-374 | a creation event can only be the first of its log |
| Ledger.ShipAppends | crates/knotch-kernel/src/event.rs:408-445 | an accepted ship adds exactly its milestone at the end of the list; other appends leave it alone |
| Ledger.RevertRemoves | crates/knotch-kernel/src/event.rs:446-457 | an accepted revert removes exactly one entry, the one with its id |
| Ledger.AnchorAttemptsIncrease | crates/knotch-kernel/src/event.rs:534-539 | reconcile-failure attempts of one anchor strictly increase over the raw log |
| Ledger.CallAttemptsIncrease | crates/knotch-kernel/src/event.rs:587-609 | effective attempts of one call strictly increase, even after superseding |
| Ledger.TimelineIsLogOrder | crates/knotch-kernel/src/project.rs:213-246 | the timeline's sort changes nothing, and its attempts strictly increase |
| Ledger.TimelineHolds | crates/knotch-kernel/src/project.rs:213-246 | on every reachable log the entries are attempt, cause and time of exactly the effective failures of the call, at ascending positions |
| Sorting.StableSortUnique | crates/knotch-kernel/src/project.rs:243-246 | sorted with ties in order determines one result, so any stable library sort gives it |
| Sorting.SortRearranges | crates/knotch-reconciler/src/lib.rs:118-126 | the sort takes every position once, and ties keep the order of their positions |
| Batch.Judge | crates/knotch-storage/src/file_repository.rs:214-244 | duplicate, body precondition, payload check, in this order |
| Batch.OfferFate | crates/knotch-storage/src/file_repository.rs:214-258 | offer `i`, judged on the log its predecessors left, is either the next event, with its id, content and a stamp read off its clock and the last event, or the next rejection with its reason |
| Batch.FailsWithTheFirst | crates/knotch-storage/src/file_repository.rs:228-262 | an all-or-nothing batch fails with an error exactly when that is the error of the first proposal that violates a rule |
| Batch.FirstViolationStays | crates/knotch-storage/src/file_repository.rs:228-233 | stopping at the first violation reports the error the whole batch would |
| Batch.RunAllGrows | crates/knotch-storage/src/file_repository.rs:214-258 | the log grows by exactly the accepted events; accepted and rejected together number the proposals |
| Batch.ReportPartitions | crates/knotch-storage/src/file_repository.rs:214-275 | accepted and rejected are order-keeping parts that make up the input |
| Batch.BestEffortSplits | crates/knotch-storage/src/file_repository.rs:193-276 | appending `ps + qs` is appending `ps`, then `qs`: same log, same reports |
| Batch.AllOrNothingIsAllOrNothing | crates/knotch-storage/src/file_repository.rs:260-262 | commits exactly when every proposal passes in its turn; otherwise the log is untouched |
| Batch.DuplicateForever | crates/knotch-storage/src/file_repository.rs:216-222 | a recorded proposal is a duplicate in that log and every extension of it |
| Batch.ReplayIsNoOp | README.md:31-42 | resending recorded proposals changes nothing and every one is reported as a duplicate |
| Batch.BestEffortAccounts | crates/knotch-storage/src/file_repository.rs:214-258 | every proposal is recorded in the end or reported as violating a precondition |
| Batch.DuplicateReports | crates/knotch-storage/src/file_repository.rs:214-222 | a proposal reported as a duplicate was in the log before the batch, or the batch names it twice |
| Batch.DuplicateIsRecorded | crates/knotch-storage/src/file_repository.rs:214-222 | after a committed batch every proposal reported as a duplicate is on record |
| Batch.RollbackDuplicatesExactly | crates/knotch-storage/src/file_repository.rs:260-262 | a rolled-back batch calls something a duplicate that is not on record exactly when it names an unrecorded proposal twice |
| Batch.RepeatRollsBack | crates/knotch-storage/src/file_repository.rs:260-262 | an all-or-nothing batch naming an admissible proposal twice rolls back, calls it a duplicate and records nothing |
| Batch.OutcomeReachable | crates/knotch-storage/src/file_repository.rs:193-276 | a batch with fresh ids takes reachable logs to reachable logs, in both modes |
| InMemory.UnitState.constructor | crates/knotch-testing/src/repo.rs:37-55 | a new unit has no events and an empty cache |
| InMemory.UnitState.PushAll | crates/knotch-testing/src/repo.rs:113-181 | in-place pushes with truncate on failure give the outcome and log of the copy-then-commit rule; `fingerprints[i]` stays the fingerprint of `events[i]` |
| InMemory.UnitState.Truncate | crates/knotch-testing/src/repo.rs:134-141 | events and fingerprints are cut to the same length |
| InMemory.UnitState.Append | crates/knotch-testing/src/repo.rs:113-181 | outcome and new log are the batch rule's, in both modes |
| InMemory.UnitState.WithCache | crates/knotch-testing/src/repo.rs:250-329 | the mutated cache becomes visible exactly when the batch commits |
| FsStorage.Split | crates/knotch-storage/src/fs_storage.rs:224-237 | the byte loop returns the non-blank lines |
| FsStorage.LogFile.Load | crates/knotch-storage/src/fs_storage.rs:80-98 | loading returns the non-blank lines of the file, or fails if it cannot be read as text |
| FsStorage.LogFile.Append | crates/knotch-storage/src/fs_storage.rs:100-129 | read, compare lengths, rename: result and file for every fault and for everything others may do to the file in between |
| FsStorage.LogFile.Combine | crates/knotch-storage/src/fs_storage.rs:113-125 | the growing buffer is the old content, terminated, then each line with a newline |
| FsStorage.CountIsSegments | crates/knotch-storage/src/fs_storage.rs:216-222 | for all byte strings the count of newlines plus an unterminated tail is the number of segments, blank ones included |
| FsStorage.SegmentsRebuild | crates/knotch-storage/src/fs_storage.rs:216-237 | the segments hold no newline and, each ended by one, are the file again |
| FsStorage.MismatchNames | crates/knotch-storage/src/fs_storage.rs:106-112 | a mismatch is reported exactly when the file was read and the lengths differ, the expected length first |
| FsStorage.SegmentsConcat | crates/knotch-storage/src/fs_storage.rs:224-237 | splitting distributes over concatenation at a line end |
| FsStorage.AppendThenLoad | crates/knotch-storage/src/fs_storage.rs:100-129 | over any old file, append then load returns the old lines followed by the new ones, and the count grows by their number |
| FsStorage.LoadedLengthPasses | crates/knotch-storage/src/fs_storage.rs:216-237 | the two line counts differ by the blank lines; a loaded length passes the check exactly when there are none |
| FsStorage.BlankLineWedges | crates/knotch-storage/src/fs_storage.rs:100-129 | with a blank line, load-then-append never stores anything |
| FsStorage.PrefixOfSameLength | crates/knotch-storage/src/fs_storage.rs:107-112 | for a grown file without blanks, equal length is equal content |
| Base64.EncodeLoop | crates/knotch-storage/src/file_repository.rs:328-362 | the chunk loop computes the encoding |
| Base64.EncodeRemainder | crates/knotch-storage/src/file_repository.rs:343-360 | one and two left-over bytes get two and one padding characters |
| Base64.DecodeEncode | crates/knotch-storage/src/file_repository.rs:328-362 | a decoder after section 4 of RFC 4648 recovers every byte string; the length is 4 times the ceiling of n/3 |
| Base64.ShortAnswers | crates/knotch-storage/src/file_repository.rs:166-170 | the vectors of section 10 of RFC 4648 up to two bytes, and one with both symbols outside letters and digits |
| Base64.LongAnswers | crates/knotch-storage/src/file_repository.rs:166-170 | the vectors of three to six bytes |
| Base64.SaltCheckExact | crates/knotch-storage/src/file_repository.rs:178-187 | comparing encoded salts accepts exactly when the salts are the same bytes |
| FileRepository.ParseLoop | crates/knotch-storage/src/file_repository.rs:138-162 | header and events of the lines; or the number of the first line that is no JSON, or a codec error for the first that is no event, whichever comes first |
| FileRepository.BadLineAnswered | crates/knotch-storage/src/file_repository.rs:138-162 | a file with a bad line answers every append with the first one: its number if it is not JSON, a codec error if it is no event; nothing is written |
| FileRepository.JudgeAll | crates/knotch-storage/src/file_repository.rs:204-262 | the four accumulators stay in step and yield the batch rule's outcome and the lines to write |
| FileRepository.CommitBatch | crates/knotch-storage/src/file_repository.rs:193-276 | one attempt is: load or fail; decide from the snapshot alone; carry the plan out against the file as it is when read and when replaced |
| FileRepository.ForeignSaltRefused | crates/knotch-storage/src/file_repository.rs:174-187 | on a log whose header was written under the salt `stored` an attempt answers a salt mismatch, naming both encodings and writing nothing, if and only if `stored` is not the workflow's salt; else the batch is judged |
| FileRepository.HeadlessJudged | crates/knotch-storage/src/file_repository.rs:174-187 | a log without a header is judged under every salt |
| FileRepository.FirstCommitWritesHeader | crates/knotch-storage/src/file_repository.rs:164-172 | the first batch starts the file with the workflow's version, name and encoded salt, and reads back |
| FileRepository.CommitWithCasRetry | crates/knotch-storage/src/file_repository.rs:282-310 | the bounded loop equals the recursive retry; the last mismatch is what the caller sees |
| FileRepository.RetryGivesFirstAnswer | crates/knotch-storage/src/file_repository.rs:282-310 | the retry gives what the first of five attempts that is no mismatch gives; after five mismatches it fails with the numbers of the fifth |
| FileRepository.WaitBeforeLastAttempt | crates/knotch-storage/src/file_repository.rs:312-319 | 375 ms pass in pauses before the last attempt |
| FileRepository.BackoffNeverShrinks | crates/knotch-storage/src/file_repository.rs:312-319 | a later attempt never waits less, past the saturated shift included |
| FileRepository.WithCache | crates/knotch-storage/src/file_repository.rs:466-533 | whatever the cache does, log and reply are those of a plain append; the cache moves only after a commit |
| FileRepository.CacheMovesTogether | crates/knotch-testing/src/repo.rs:320-327 | the file and in-memory repositories move their caches for the same batches |
| FileRepository.HoldsParses | crates/knotch-storage/src/file_repository.rs:138-187 | lines a repository wrote load without error, with the right salt, as exactly the events written |
| FileRepository.WriteHolds | crates/knotch-storage/src/file_repository.rs:264-269 | writing a commit's lines leaves a file holding the old events and the accepted ones, header once |
| FileRepository.EqualCountEqualLog | README.md:113-117 | a snapshot as long as the file is the file |
| FileRepository.PrefixHoldsPrefix | crates/knotch-storage/src/file_repository.rs:138-162 | a snapshot of an earlier state of the file holds a prefix of the log |
| FileRepository.AttemptIsAtomic | crates/knotch-storage/src/file_repository.rs:193-276 | a write that lands was judged against exactly the log in the file it read, and leaves that log with the accepted events; otherwise the file is as others made it |
| FileRepository.FileMatchesMemory | crates/knotch-storage/src/file_repository.rs:377-399 | undisturbed, the file repository replies and ends exactly as the in-memory one, in both modes |
| FileRepository.RetryIsAtomic | crates/knotch-storage/src/file_repository.rs:282-310 | while others only append, at most one attempt of the retry lands, and a final mismatch means none did |
| Writers.NextKeepsInv | crates/knotch-storage/src/file_repository.rs:193-310 | every step of every writer keeps: file holds the log, log reachable, commits serial, snapshots and new contents true, replies true - as long as no append overlaps another |
| Writers.RunKeepsInv | crates/knotch-storage/src/file_repository.rs:193-310 | hence in every state of every run without overlapping appends |
| Writers.NothingLost | README.md:113-117 | no committed event is lost or reordered: each state's log is a prefix of all later ones |
| Writers.SerialRunIsLog | crates/knotch-storage/src/file_repository.rs:282-310 | running the committed batches one after another gives the log |
| Writers.EveryRunIsSerial | crates/knotch-storage/src/file_repository.rs:193-310 | in every state the file loads cleanly as a reachable log equal to that serial run, no fingerprint twice |
| Writers.RepliesTrue | crates/knotch-storage/src/file_repository.rs:75-83 | no writer is told of corruption or a foreign salt; a committed batch was written exactly once and its report is true; a rolled-back, refused or mismatched one was not written at all, and came out that way on an earlier state of the log; an input/output error leaves it written at most once |
| Writers.FiveChecks | crates/knotch-storage/src/file_repository.rs:282-310 | with or without a lock, a writer is told of a mismatch exactly at its fifth length check, and no call makes more than five |
| Writers.QuietAppend | crates/knotch-storage/src/file_repository.rs:193-310 | the load, check and rename of one try, with nobody in between, are one attempt of the file repository for every fault: same reply and file, or the next try, or after the fifth mismatch its numbers |
| Writers.LockedRunsDoNotOverlap | crates/knotch-storage/src/file_repository.rs:474-475 | if at most one writer at a time is between its length check and its rename, no append is disturbed |
| Writers.RenameKeepsExactly | crates/knotch-storage/src/fs_storage.rs:106-127 | a rename that takes effect keeps every recorded event exactly when nothing was recorded since its length check |
| Writers.OverlapLosesCommit | crates/knotch-storage/src/fs_storage.rs:106-127 | for any two different proposals a new unit admits, a run of two overlapping appends that reports the first as recorded and ends with the second alone |
| Repository.CallAppend | crates/knotch-storage/src/atomic.rs:25-42 | an append with its faults: what it leaves in the log and what the caller is told, including committed but reported failed |
| Repository.FileCallIsAppendCall | crates/knotch-storage/src/file_repository.rs:193-276 | the faults of that call are those of the file repository: undisturbed, whatever of load, read, write and directory sync fails, its reply and the log its file then holds are those of the call |
| Hooks.NextWorldKeepsInv | crates/knotch-agent/src/queue.rs:246-461 | every step of hooks, spills, drains and storage keeps the accounting invariant, and unaccounts for no proposal |
| Hooks.ExactlyOnce | crates/knotch-storage/src/atomic.rs:25-42 | with appends that may fail after committing, no run records a fingerprint twice |
| Hooks.NeverSilentlyGone | crates/knotch-agent/src/queue.rs:360-461 | under every queue configuration a hook's proposal is on its way, recorded, queued, refused in a report, spilled, surfaced with an error, noted in the orphan log, or lost with a failed orphan note; under the rejecting policy nothing is spilled |
| Hooks.ThreeAttempts | crates/knotch-agent/src/queue.rs:388-416 | in every run a hook reaches the queue, the orphan log or an error only after its append has failed three times |
| Hooks.KeptForever | crates/knotch-agent/src/queue.rs:246-320 | once recorded, queued or refused in a report, it is one of these, or spilled, in every later state; under the rejecting policy, one of these |
| Hooks.PreconditionsNeverSurface | crates/knotch-agent/src/queue.rs:376-461 | in no run does a hook surface an error because of a precondition |
| Hooks.QuietEnqueue | crates/knotch-agent/src/queue.rs:109-149 | count and write with nobody in between are one enqueue below the cap, faults included, and the hook settles by its answer |
| Hooks.QuietRefusal | crates/knotch-agent/src/queue.rs:416-461 | a hook is done at the count exactly when the enqueue is, by a failed count or a full queue under the rejecting policy, and settles accordingly |
| Hooks.QuietSpill | crates/knotch-agent/src/queue.rs:116-149 | count, list, remove and write with nobody in between are one spilling enqueue, faults included, and the hook settles by its answer |
| Hooks.QuietDrain | crates/knotch-agent/src/queue.rs:270-320 | a drain among other writers does with its entry what a drain alone does, given the same answer |
| Losses.QueuedLostExactly | crates/knotch-agent/src/queue.rs:116-138 | a run in which a hook is told its proposal is queued, and later it is neither queued, recorded nor refused, exists exactly under the spilling policy, for every cap |
| Losses.OrphanWriteCanLose | crates/knotch-agent/src/orphan.rs:12-25 | under the rejecting policy, for every cap and every proposal, a run that loses it in a failed orphan write |
| Queue.ListSorted | crates/knotch-agent/src/queue.rs:216-222 | the listing is every name, in increasing order |
| Queue.QueueDir.Spill | crates/knotch-agent/src/queue.rs:212-232 | exactly the entries with the smallest ids go, except those whose file cannot be removed |
| Queue.OldestUnique | crates/knotch-agent/src/queue.rs:212-232 | there is only one set of that many smallest ids |
| Queue.QueueDir.EnqueueRaw | crates/knotch-agent/src/queue.rs:109-168 | the cap check, both overflow policies and the write, for every failure of counting, listing, removing and writing, including entries lost to a spill before a failed write |
| Queue.SoundAttempt | crates/knotch-agent/src/queue.rs:116-149 | without trouble it is the plain relation, and only a full queue under the rejecting policy is refused |
| Queue.EnqueueTold | crates/knotch-agent/src/queue.rs:109-168 | told it is written, the entry is there; told the queue is full, nothing changed and the numbers are size and cap; told of an error exactly when a step that was taken failed; and every entry gone was among the oldest the spill chose |
| Queue.EnqueueSize | crates/knotch-agent/src/queue.rs:116-138 | one enqueue brings any queue down to the cap under spill; under reject a full queue is unchanged; the cap is kept exactly unless it is zero under spill |
| Queue.SpillKeepsNewest | crates/knotch-agent/src/queue.rs:116-149 | after any run of spilling enqueues with increasing ids the queue holds exactly the newest `cap` entries |
| Queue.DrainAll | crates/knotch-agent/src/queue.rs:246-320 | the drain replays the listing in order and removes what was reported on, for every pattern of faults |
| Queue.DrainAccounts | crates/knotch-agent/src/queue.rs:246-320 | after a drain every readable entry is still queued, recorded, or refused in a report; garbled ones stay |
| Queue.DrainStepCounts | crates/knotch-agent/src/queue.rs:246-320 | each readable entry in its turn is one best-effort append on the log the earlier ones left, kept even where the call fails after committing; garbled ones are passed over |
| Queue.DrainCounts | crates/knotch-agent/src/queue.rs:246-320 | the number returned is that of the entries answered with a report, and exactly those whose file can be removed leave the queue |
| Queue.HealthyDrainEmpties | crates/knotch-agent/src/queue.rs:246-320 | without faults exactly the garbled entries remain |
| Queue.DrainReachable | crates/knotch-agent/src/queue.rs:246-320 | draining keeps the ledger reachable, so nothing is recorded twice |
| Queue.PostToolAppend | crates/knotch-agent/src/queue.rs:376-461 | retry, then queue, then orphan: result, directory and log for every pattern of append and enqueue faults |
| Queue.HookRetries | crates/knotch-agent/src/queue.rs:388-416 | of three appends the first that reports gives log and answer; the attempts fail exactly when all three were answered with a transient error |
| Queue.HookOutcome | crates/knotch-agent/src/queue.rs:376-461 | a report at append 0, 1 or 2 settles the hook with the queue untouched; the queue is reached exactly after three transient errors, and its answer decides between continuing, an orphan note and an error |
| Queue.TryAllRecordsOnce | crates/knotch-agent/src/queue.rs:376-461 | however the attempts fail, the log grows by at most this proposal, once |
| Queue.HookNeverSurfacesPrecondition | crates/knotch-agent/src/queue.rs:376-408 | the attempts never end in a precondition error |
| Queue.RejectionVanishesExactly | crates/knotch-agent/src/queue.rs:360-375 | a healthy hook continues with its proposal not on record exactly when a rule or the payload check turns it down |
| Queue.NoOpSwitchVanishes | crates/knotch-agent/src/queue.rs:360-375 | a switch to the model in use, on a new unit, is refused by its precondition while the hook reports success |
| Reconciler.KindKeyOrder | crates/knotch-reconciler/src/lib.rs:225-227 | comparing the key strings is comparing the kind ordinals |
| Reconciler.TagsNameKinds | crates/knotch-kernel/src/event.rs:292-311 | each of the 15 tags names one kind of body |
| Reconciler.OrdinalIsPlace | crates/knotch-kernel/src/event.rs:313-335 | a kind's ordinal is its place in the list of tags from `unit_created` to `approval_recorded` |
| Reconciler.LexLeExactly | crates/knotch-reconciler/src/lib.rs:118-126 | the name order is: a prefix first, otherwise by the first code point that differs |
| Reconciler.BatchIs | crates/knotch-reconciler/src/lib.rs:98-129 | the batch holds every proposal of every observer that answered, once, by observer name and then by the place of its kind in the list; within one kind an observer's proposals keep their order |
| Reconciler.PassFate | crates/knotch-reconciler/src/lib.rs:126-135 | proposal `i` of the batch becomes the next event, under its own id and stamp, or the next rejection with its reason |
| Reconciler.FailuresAre | crates/knotch-reconciler/src/lib.rs:98-116 | the failures are exactly the completions that brought no proposals, timeouts included, in order |
| Reconciler.Reconcile | crates/knotch-reconciler/src/lib.rs:57-138 | load, join, sort, append: result and log for every completion order and every failure of load, task and append |
| Reconciler.JoinAll | crates/knotch-reconciler/src/lib.rs:98-116 | collects proposals and failures in order of completion, and stops at a panicked task |
| Reconciler.OrderIrrelevant | crates/knotch-reconciler/src/lib.rs:98-129 | with distinct observer names every completion order submits the same batch |
| Reconciler.DeterministicExactly | crates/knotch-reconciler/src/lib.rs:118-129 | distinct names are not only enough but necessary: any shared name can show the order |
| Observers.ObserveArtifacts | crates/knotch-observer/src/artifact.rs:64-109 | proposes a completion for each scanned phase not yet resolved; gives up at the budget, or when cancelled |
| Observers.ArtifactBudget | crates/knotch-observer/src/artifact.rs:79-104 | it answers exactly while it is not cancelled and fewer phases than the budget are open; otherwise it reports whichever of the two it meets first |
| Observers.ArtifactsAre | crates/knotch-observer/src/artifact.rs:64-109 | an answer is one proposal for each open scan, in scan order, with body, attribution, payload and supersede field spelled out |
| Fixpoint.ArtifactMembers | crates/knotch-observer/src/artifact.rs:80-104 | it proposes exactly the completions of scanned phases neither completed nor skipped |
| Fixpoint.PendingMembers | crates/knotch-observer/src/pending_commit.rs:75-112 | it proposes exactly the promotions of pending pairs not yet promoted whose commit is verified now |
| Observers.CollectPending | crates/knotch-observer/src/pending_commit.rs:52-74 | one pass collects the pending ships in order and the set of promoted pairs |
| Observers.ObservePending | crates/knotch-observer/src/pending_commit.rs:46-114 | proposes a promotion for each pending ship not yet promoted whose commit is now verified; gives up on a version-control error, at the budget, or when cancelled |
| Observers.PairsAre | crates/knotch-observer/src/pending_commit.rs:52-74 | the pairs are milestone and commit of exactly the pending ships, in log order |
| Observers.RipeExactly | crates/knotch-observer/src/pending_commit.rs:84-95 | a pair is ripe exactly when no effective event promotes its milestone id with its commit and version control now reports the commit verified |
| Observers.PromotionsAre | crates/knotch-observer/src/pending_commit.rs:75-112 | an answer is one promotion for each ripe pair, in order, spelled out field by field |
| Observers.PendingStops | crates/knotch-observer/src/pending_commit.rs:75-112 | it answers exactly when no pair stops it; otherwise the first pair that does decides between cancellation, a version-control error and the budget |
| Fixpoint.ArtifactsShrink | crates/knotch-observer/src/artifact.rs:64-109 | after a pass, what the artifact observer proposes is among what it proposed before |
| Fixpoint.PromotionsShrink | crates/knotch-observer/src/pending_commit.rs:46-114 | the same for the pending-commit observer |
| Fixpoint.JudgedOnce | crates/knotch-storage/src/file_repository.rs:214-258 | after such a batch every one of its proposals would be refused again |
| Fixpoint.FailsAgain | crates/knotch-storage/src/file_repository.rs:260-262 | a rolled-back batch rolls back again under other ids and clock readings |
| Fixpoint.SecondPassAcceptsNothing | crates/knotch-reconciler/src/lib.rs:57-138 | a second pass over an unchanged world records nothing, in both modes, for every completion order, whatever was over budget |
| Gates.PrerequisiteBefore | crates/knotch-kernel/src/event.rs:482-507 | each direct prerequisite was recorded, and not superseded, strictly before |
| Gates.ClosureRecordedEarlier | crates/knotch-kernel/src/event.rs:482-507 | along any chain of prerequisites each gate was recorded strictly before the one needing it |
| Gates.RecordableExactly | crates/knotch-kernel/src/event.rs:482-507 | some run records a gate exactly when its prerequisite chains are bounded |
| Gates.CyclicNeverRecorded | crates/knotch-workflow/src/config.rs:368-373 | no run records a gate on, or depending on, a cycle |
| Gates.RecordableIffNoCycle | crates/knotch-workflow/src/config.rs:368-373 | among finitely many gates, the gates no run records are exactly those that reach a cycle |
| Config.LookupPhases | crates/knotch-workflow/src/config.rs:200-208 | the table holds what each phase declares, or the first repeated id is reported |
| Config.LookupGates | crates/knotch-workflow/src/config.rs:210-217 | the same for gate ids |
| Config.ResolvePrerequisites | crates/knotch-workflow/src/config.rs:218-230 | every prerequisite resolves, or the first undeclared one of the first such gate is reported |
| Config.ResolveRequired | crates/knotch-workflow/src/config.rs:299-314 | the phases of the ids in order, or the first undeclared id |
| Config.ResolveScopes | crates/knotch-workflow/src/config.rs:258-262 | scopes visited in any order: all resolve, or some true fault is reported |
| Config.FromSpec | crates/knotch-workflow/src/config.rs:199-273 | accepts exactly the valid specs; the tables then hold the declarations and nothing else; a refusal names a fault that is there |
| Config.ErrorDeterminedExactly | crates/knotch-workflow/src/config.rs:234-262 | the spec determines which error is reported exactly when an earlier check fails or at most one scope is bad |
| Config.TwoTrueErrors | crates/knotch-workflow/src/config.rs:258-262 | a spec of which two different errors are true |
| Config.RequiredFallsBack | crates/knotch-workflow/src/config.rs:330-340 | every scope gets its own list or the default scope's, of declared phases only |
| Config.ListForScope | crates/knotch-kernel/src/scope.rs:25-32 | where the spec has a list under a scope's name - tiny, standard, epic, or a custom one's own - the scope requires those phases in that order |
| Config.SkipAcceptedExactly | crates/knotch-workflow/src/config.rs:375-391 | a skip is accepted exactly when the phase's one declaration lists its code, or the wildcard for coded skips |
| Config.PrerequisitesExactly | crates/knotch-workflow/src/config.rs:368-373 | a declared gate needs the gates its declaration lists, in order, and an undeclared one needs none |
| Config.SettingsCarry | crates/knotch-workflow/src/config.rs:322-366 | name, version, terminal statuses and rationale floor are the spec's, the floor eight where it sets none |
| Config.ConfiguredGateRecordable | crates/knotch-workflow/src/config.rs:210-230 | a gate of a configured workflow can be recorded in some run exactly when it reaches no cycle |
| Config.LadderRecordable | crates/knotch-workflow/src/config.rs:72-80 | if prerequisites name gates declared earlier, every declared gate can be recorded |
| Config.CyclicSpecAccepted | crates/knotch-workflow/src/config.rs:210-230 | a spec with a self-prerequisite is accepted, and its gate can never be recorded |
| Phases.GuardMatchesViewExactly | crates/knotch-kernel/src/event.rs:664-683 | guard and view name the same phase, except exactly when the creation was superseded while phases were open |
| Phases.FirstScopeOf | crates/knotch-kernel/src/project.rs:27-45 | the scope read from any part of a reachable log is that of its first event, if that is a creation and still there |
| Phases.TerminalBlockedExactly | crates/knotch-kernel/src/event.rs:508-533 | an unforced terminal transition is refused exactly while a phase is next, and the error names it |
| Phases.SupersededCreationDisagrees | crates/knotch-kernel/src/event.rs:664-669 | a reachable log with no next phase on which the guard still refuses |
| Phases.CurrentPhaseCompletable | crates/knotch-kernel/src/event.rs:375-391 | completing the current phase with a body not seen before is never refused |
| Phases.CompletionProgresses | crates/knotch-kernel/src/project.rs:27-45 | it strictly lowers the number of open required phases and leaves the unit open |
| Phases.EndIsReachable | crates/knotch-kernel/src/event.rs:508-533 | from any open unit whose creation stands, that many completions lead to a log admitting every terminal status |

## Left out

- Version-control and file-system probes inside preconditions: the repositories evaluate them with neither attached (crates/knotch-kernel/src/precondition.rs:51-53).
- Real files, directory sync, process probes, and the lock itself with its leases: the theorems about many writers assume that no append is disturbed between its length check and its rename, which a held lock provides and an expired lease does not.
- Whether a file's bytes are text is an input of the load, not computed from the bytes.
- BLAKE3, canonical JSON, serde and UTF-8 validity: the fingerprint keeps its parts, the line codec is abstract, and serialization does not fail in the middle of a batch.
- Fixpoint.SecondPassAcceptsNothing: covers the artifact and pending-commit observers only; observers that walk git history or run child processes are not modelled. Under all-or-nothing the payload check is taken not to depend on ids, stamps or attribution of the log's events; shipped payload types refuse nothing.
- Queue.DrainAll: the drain runs alone; drains beside other writers are the business of Hooks.
- Timeouts are an outcome an observer may have, not measured; the order of observer failures is that of completion.
- Error message texts, the suggestion in the missing-default-scope message, and TOML parsing.
- Several units at once: units do not share state, so one unit is modelled.
- Age-based pruning of the queue, warning thresholds and tracing.
- `subscribe` streams and broadcast fan-out.
- `QueryBuilder`, skip policies, phase ordering, the lifecycle automaton, unit ids and migrations: easy members.
- CLI commands, hook stdin and stdout, active-unit pointers, doctor, init, frontmatter, ADRs, linter and derive macros.
