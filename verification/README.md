# Cortrix: verified models of the task engine and its neighbours

Cortrix ingests documents asynchronously. A submission becomes a row of the `tasks`
table; worker threads dequeue rows, one document at a time, run a handler, write a
terminal status and give up the task's input file. Two mutexes that do not cover each
other guard this: the task manager's makes each of its calls atomic, the scheduler's
spans several of those calls. Cancels, sweeps and finalizations take only the first, so
a scheduler call works on snapshots that can go stale between its own inner steps.

This project models that engine as a transition system over all interleavings, proves
what its design promises on every run, and proves the imperative classes against the
same transition functions. Seven independent components with a protocol or an algorithm
of their own follow: the bounded executor, the reference-count store, child-to-parent
dedup, the Bloom filter, base64url and the JWT codec, signing-secret rotation, and the
token blacklist.

`dafny verify dfyconfig.toml` checks everything.

| file | content |
|---|---|
| `TaskStore.dfy` | the `tasks` table: one function per manager operation |
| `TaskEngine.dfy` | steps, guards, effects, runs |
| `TaskInvariants.dfy` | what every step keeps |
| `TaskLifecycle.dfy` | the task state machine, what one operation's stamps let another do, what a lookup finds and a release gives up |
| `TaskTheorems.dfy` | mutual exclusion, terminal states, cancellation, dispatch |
| `InputRelease.dfy` | when an input may be deleted; what a path-changing refresh breaks |
| `Submission.dfy`, `Overtaking.dfy` | debounced submission; bounded overtaking |
| `Interference.dfy` | what other threads may do between two calls of one thread |
| `TaskManager.dfy`, `TaskScheduler.dfy`, `Workers.dfy` | the manager, finalizer, cancel handler, scheduler and worker loop as mutable objects, with other threads running in between |
| `Strings.dfy`, `Division.dfy`, `Timestamps.dfy` | byte-wise string order; quotients; ISO 8601 stamps |
| `Executor.dfy` | bounded queue, two condition variables, shutdown |
| `ContentRefs.dfy` | reference counts under statement failures |
| `Sorting.dfy`, `Dedup.dfy`, `DedupTheorems.dfy`, `DedupOrder.dfy` | child-to-parent dedup |
| `BloomFilter.dfy`, `BloomHashing.dfy` | double hashing with 64-bit wrap-around over an array of words; what the hashing keeps apart |
| `Base64Url.dfy`, `Jwt.dfy` | the token codec |
| `JwtSecrets.dfy`, `Blacklist.dfy`, `ValidationSecrets.dfy` | secret rotation; revoked tokens; the secrets validation uses |

Time, randomness, hashes, JSON, HMAC and the file system enter as parameters. A statement
or write that can fail is a fault flag on the operation. Instants in the task engine are
milliseconds; `Timestamps.dfy` proves that the table's string comparisons agree with them.

Where code and comments differ, the code is modelled. Ten results state what the code
does rather than what a reader might expect, each with the exact condition and an input
at which it fails:

- A debounce refresh rewrites the input path and leaves the stored identity, so a live
  task's new input can be removed: exactly which refreshes do this is
  `InputRelease.StepKeepsIdentitiesIff` and `InputRelease.RefreshedInputIsProtectedIff`,
  a run is `InputRelease.RefreshRunRemovesLiveInput`.
- A start whose read of the current signing secret fails is taken for an empty table and
  inserts a second current secret: `JwtSecrets.StepKeepsHealthyIff`,
  `JwtSecrets.BlindStartMakesTwo`.
- A scan of the accepted secrets that stops early is taken for a complete one:
  `JwtSecrets.CutScanAccepts`, `JwtSecrets.CutScanRejectsSigner`.
- A logged-out token without an expiry validates again after a cleanup:
  `Blacklist.LogoutIsFinalIff`, `Blacklist.ExpiryFreeTokenReturns`.
- A logged-out token validates again under another spelling of its signature:
  `Blacklist.RespelledTokenValidatesIff`, `Blacklist.PaddedTokenReturns`.
- A logged-out token validates again after a cleanup or restart whose reload of the
  blacklist fails or stops before its row: `Blacklist.ValidatesIffNotListed`,
  `Blacklist.FailedReloadForgets`.
- Tokens are validated against a stored list that no rotation updates, so a retired
  secret can go on being accepted: `ValidationSecrets.FollowsTableIff`,
  `ValidationSecrets.RetiredSecretStillValidates`.
- A reference whose probe or count read fails lets the stored count run ahead of the
  references, by one each time: `ContentRefs.DriftIsSlips`, `ContentRefs.OneSlip`.
- A catalog load whose scan stops early marks the Bloom filter ready all the same, so a
  catalog hash can be reported absent: `BloomFilters.LoadReportsCatalogIff`,
  `BloomFilters.FailedScanReportsNothing`.
- The Bloom filter's sizing wraps around just below 2^61 bytes, to a single word:
  `BloomHashing.WordsCoverCapacityIff`, `BloomHashing.WrappedCapacity`.

## Model

| member | source | states |
|---|---|---|
| `TaskInvariants.StepKeepsReservations` | src/async/task_scheduler.cpp:113-158 | every step of every thread keeps the reservation set equal to the documents in flight, each held by one worker |
| `TaskInvariants.StepKeepsOwned` | src/async/task_manager.cpp:478-857 | every step keeps the status columns in agreement, each worker's hold on its row, the scheduler's snapshot facts, and finished tasks finished |
| `TaskInvariants.RunInvariant` | src/async/worker_pool.cpp:87-149 | both hold in every state of every run |
| `TaskTheorems.ActiveDocsAreTheDocsInFlight` | src/async/task_scheduler.cpp:113-158 | in every interleaving the reservation set is exactly the (namespace, doc) pairs in flight with a non-empty doc, and no two workers share one; a throw or a missing handler leaks none |
| `TaskTheorems.LostMarkKeepsOtherReservations` | src/async/task_scheduler.cpp:128-140 | a Dequeue that loses its row frees no other worker's reservation |
| `TaskTheorems.TerminalIsForever` | src/async/task_manager.cpp:546-698 | on every run a terminal status never changes until the row is deleted, and a deleted task never returns |
| `TaskTheorems.CancelFlagsOnEveryRun` | src/async/task_manager.cpp:608-672 | cancel_requested excludes queued and processing, and cancelling implies it, in every reachable state |
| `TaskTheorems.SeenCancelIsCancelling` | src/async/document_processor.cpp:77-125 | a cancel seen at a checkpoint finds its row in cancelling, and MarkCancelled is accepted until the worker finalizes |
| `TaskTheorems.DispatchIsFaithful` | src/async/task_scheduler.cpp:119-148 | a dispatch is one queued-to-processing edge of an uncancelled task, and the snapshot read in an earlier step agrees with the row on path, hash and document |
| `TaskTheorems.ContentIsStableWhileRunning` | src/async/task_manager.cpp:810-857 | no refresh or merge changes the content of a task while its handler runs |
| `TaskTheorems.EndedIsNeverDispatched` | src/async/task_manager.cpp:478-517 | a cancelled, failed or completed task is never dispatched again |
| `TaskTheorems.SecondDispatchNeedsRequeue` | src/async/task_manager.cpp:961-982 | between two dispatches of a task lies a restart that moved it from processing back to queued |
| `InputRelease.LookupRefinesScan` | src/async/task_manager.cpp:984-1038 | releasing by the two indexed lookups implies that resolving every live input would release too |
| `InputRelease.AgreementIsBackfill` | src/async/task_manager.cpp:293-330 | over resolvable live inputs the lookups and the scan agree on every question if and only if every live input has its identity stored |
| `InputRelease.BackfillFills` | src/async/task_manager.cpp:293-330 | the startup backfill keeps identities right, touches no other column, and leaves every resolvable live identity stored if and only if no such row was skipped by a failing statement |
| `InputRelease.StepKeepsIdentitiesIff` | src/async/task_manager.cpp:810-857 | a step keeps stored identities in agreement with paths if and only if it is not a refresh that writes over a row whose stored identity differs from what the new path resolves to; it keeps the backfill too if and only if the two are equal |
| `InputRelease.LookupIsScanOnEveryRun` | src/async/task_manager.cpp:1040-1067 | from a backfilled table, in every state of a run in which every refresh that writes resolves to the identity stored, lookups and scan agree |
| `InputRelease.RemovedInputIsUnreferenced` | src/async/managed_input.cpp:7-40 | on every run in which no refresh has left a wrong identity behind, rejected refreshes and rows without identity included, a file removed by the finalizer or CancelTask lies directly in the managed directory and no live row, the releasing task's included, resolves to it |
| `InputRelease.RefreshKeepsIdentitiesIff` | src/async/task_manager.cpp:821-827 | a refresh keeps stored identities right if and only if none is stored or the new path resolves to it |
| `InputRelease.RefreshedInputIsProtectedIff` | src/async/task_manager.cpp:821-827 | when nobody else holds the new input, the lookups protect it if and only if it resolves to the identity stored for the old one; the scan always would |
| `InputRelease.RefreshRunRemovesLiveInput` | src/async/document_task_handler.cpp:202-221 | a concrete reachable run in which a cancel removes the input of a queued, refreshed task |
| `Submission.NoSubmissionIsSwallowed` | src/async/task_scheduler.cpp:20-100 | every successful Enqueue has a moment within the call at which the returned task has the submission's namespace, type and hash and is queued, processing or completed |
| `Overtaking.AheadNeverGrows` | src/async/task_manager.cpp:859-887 | with increasing creation stamps no step but a restart adds to the older queued tasks ahead of a queued one |
| `Overtaking.OvertakingFallsAhead` | src/async/task_scheduler.cpp:113-149 | a dispatch that passes over a task whose document was free strictly shrinks the tasks ahead of it |
| `Overtaking.OvertakingIsBounded` | src/async/task_scheduler.cpp:81-149 | over any stretch without restart, overtakings plus tasks still ahead are at most the tasks that were ahead |
| `TaskStore.RequeueAndSweepPartition` | src/async/task_manager.cpp:912-982 | at one instant and threshold, and whatever each writes as its stamp, requeue and zombie sweep send each processing row to exactly one of queued and failed, leave all others alone, and commute |
| `TaskLifecycle.DispatchEdge` | src/async/task_manager.cpp:478-517 | a dispatch goes only from queued to processing, records the worker, changes no content and no other row, and tells a missing row from a moved one |
| `TaskLifecycle.TerminalEdges` | src/async/task_manager.cpp:546-698 | completed and failed are reached only from processing or cancelling, cancelled only from queued or cancelling |
| `TaskLifecycle.CancelEdges` | src/async/task_manager.cpp:608-672 | a cancel ends a queued task, flags a processing one as cancelling, and is refused if and only if the task is cancelling or has ended |
| `TaskLifecycle.DebounceEdges` | src/async/task_manager.cpp:760-857 | a claim takes queued, processing and completed tasks, a refresh only queued ones, each leaving the rest of the table |
| `TaskLifecycle.CancelReachesCheckpoint` | src/async/document_processor.cpp:77-125 | in every reachable state a cancel recorded on a running task enables the worker's checkpoint |
| `TaskLifecycle.DispatchGoesThrough` | src/async/task_scheduler.cpp:113-149 | a select followed by a mark reserves the document and hands the selected row to the worker |
| `TaskLifecycle.SubmissionGoesThrough` | src/async/task_scheduler.cpp:28-100 | a resubmission merges, refreshes or creates according to what the lookup found |
| `TaskLifecycle.OutcomeGoesThrough` | src/async/task_finalizer.cpp:44-88 | an accepted outcome is followed by the release of the releasable input and by the document's freeing |
| `TaskLifecycle.CancelReleaseGoesThrough` | src/async/document_task_handler.cpp:202-221 | a cancelled queued task's releasable input is removed |
| `TaskLifecycle.DispatchedIsTimedOutIff` | src/async/task_manager.cpp:935-959 | a task dispatched at a time is timed out if and only if that time lies before the budget |
| `TaskLifecycle.ProgressPostponesZombieIff` | src/async/task_manager.cpp:425-453 | a progress write decides whether the zombie sweep fails the task and whether a restart requeues it, by the same threshold |
| `TaskLifecycle.EndedIsDeletedIff` | src/async/task_manager.cpp:893-910 | an ended task is deleted if and only if its last write lies before the retention |
| `TaskLifecycle.RetentionKeepsLive` | src/async/task_manager.cpp:893-910 | no task that has not ended is deleted, and kept rows are unchanged |
| `TaskLifecycle.RecentMeans` | src/async/task_manager.cpp:704-738 | a lookup finds a newest task of the identity that is queued, processing or completed and was created within the window in whole seconds, and finds none only if there is none |
| `TaskLifecycle.CreatedIsCandidateIff` | src/async/task_manager.cpp:336-404 | a new task carries the submission and is what a resubmission finds exactly within the window |
| `TaskLifecycle.OldestMeans` | src/async/task_manager.cpp:859-887 | the select finds an oldest queued task whose namespace and document are free, and none only if there is none |
| `TaskLifecycle.ReleasableIff` | src/async/managed_input.cpp:7-40 | a path is given up if and only if it is resolved, directly in the managed directory, not the identity of another live row, while no other live row with an input lacks an identity |
| `TaskLifecycle.StoredIdentityIff` | src/async/task_manager.cpp:383-395 | the identity stored at creation, and by the backfill, is what the path resolves to, none when it is empty or does not resolve |
| `Timestamps.StampOrder` | src/async/task_manager.cpp:52-80 | for four-digit years the rendered stamps compare as strings exactly as their instants do |
| `Timestamps.CutoffOrder` | src/async/task_manager.cpp:71-80 | a stamp sorts before a whole-second cutoff if and only if it is earlier |
| `Timestamps.CreationOrder` | src/async/task_manager.cpp:859-887 | ordering rows by created_at strings is ordering them by creation instant |
| `Timestamps.RequeueOrSweepByString` | src/async/task_manager.cpp:961-982 | the string guards of requeue and zombie sweep are the integer guards of the table model, and exclude each other |
| `Timestamps.DebounceByString` | src/async/task_manager.cpp:710-724 | the lookup's string guard on created_at is the integer guard of the table model |
| `Timestamps.YearTenThousandSortsFirst` | src/async/task_manager.cpp:52-80 | the four-digit bound is needed: every stamp of year 10000 sorts before every stamp of year 9999 |
| `Timestamps.DateOf` | src/async/task_manager.cpp:60-80 | the calendar conversion yields a valid date whose day number is the argument |
| `Interference.StepWhileScheduling` | src/async/task_manager.cpp:425-1038 | every engine step that can fall inside another thread's scheduler call adds no row, keeps content, ends and flags, and queues nothing |
| `Interference.RunWhileScheduling` | src/async/task_scheduler.cpp:20-149 | and so does any number of them |
| `Interference.StepMeanwhile` | src/async/task_manager.cpp:336-1038 | every engine step but a restart, creates and refreshes included, keeps terminal rows, flags, and the content of rows past queued |
| `Interference.RunOnward` | src/async/task_manager.cpp:336-1038 | and so does any number of them: an id that left the table does not return |
| `TaskManagement.TaskManager.Backfill` | src/async/task_manager.cpp:293-330 | the row loop computes the backfilled table, rows whose UPDATE fails skipped |
| `TaskManagement.TaskManager.Recover` | src/server/bootstrap.cpp:736-759 | backfill and requeue at start are the engine's restart, also when the requeue fails |
| `TaskManagement.TaskManager.CreateTask` | src/async/task_manager.cpp:336-404 | a new queued row with its resolved identity, or a storage error, duplicate id or not, and no change |
| `TaskManagement.TaskManager.MarkProcessing` | src/async/task_manager.cpp:478-517 | only a queued row becomes processing; otherwise the error of the failing statement or of the probe, and no change |
| `TaskManagement.TaskManager.MarkTerminal` | src/async/task_manager.cpp:519-698 | the three guarded terminal writes with their errors, a failing statement or probe included |
| `TaskManagement.TaskManager.RequestCancel` | src/async/task_manager.cpp:608-672 | without a fault a processing row becomes cancelling with its flag set and a queued one cancelled, both successfully; only a cancelling or ended row is refused; a failing select, step or update has its own error and no effect |
| `TaskManagement.TaskManager.UpdateProgress` | src/async/task_manager.cpp:425-453 | writes worker and stamp and leaves status and content, or reports the error |
| `TaskManagement.TaskManager.FindRecentTaskByDocId` | src/async/task_manager.cpp:704-738 | returns a newest mergeable task of the same identity created no more than the window's seconds ago, or there is none; a failing step also yields none, a failing prepare the error |
| `TaskManagement.TaskManager.TryClaimDebounceMerge` | src/async/task_manager.cpp:760-808 | claims if and only if the row is still mergeable; a failing read-back reports an error after the claim is written |
| `TaskManagement.TaskManager.UpdateTaskForDebounce` | src/async/task_manager.cpp:810-857 | refreshes only a row still queued and leaves its stored identity; then re-reads it in a section of its own, other threads in between |
| `TaskManagement.TaskManager.SelectOldestQueuedTaskExcluding` | src/async/task_manager.cpp:859-887 | returns an oldest queued task whose document is free, or there is none; a failing step also yields none |
| `TaskManagement.TaskManager.SweepZombies` | src/async/task_manager.cpp:912-933 | afterwards no processing row is older than the cutoff, exactly the moved rows went from processing to failed, every other row is untouched, and the result is their number |
| `TaskManagement.TaskManager.RequeueStaleProcessing` | src/async/task_manager.cpp:961-982 | afterwards every processing row is older than the cutoff, exactly the moved rows went from processing to queued, every other row is untouched, and the result is their number |
| `TaskManagement.TaskManager.ReleaseInputIfUnreferenced` | src/async/task_manager.cpp:984-1038 | removes the file only if both lookups allow it, does so when nothing fails, and keeps it when a lookup or the removal fails |
| `TaskManagement.ReleaseManagedPath` | src/async/managed_input.cpp:7-40 | removes only a resolved path directly inside the resolved managed directory that the lookups release |
| `TaskManagement.FinalizeTask` | src/async/task_finalizer.cpp:44-88 | the input is given up only if the terminal write was accepted, by the rule applied to the table other threads leave, who may have created or refreshed tasks naming the same file |
| `TaskManagement.CancelTask` | src/async/document_task_handler.cpp:202-221 | without a fault a processing task is told to cancel and a queued one ends and stays ended; the latter's input is released, judged on the table other threads leave, the former's is not; only a cancelling or ended task is refused |
| `TaskScheduling.TaskScheduler.Dequeue` | src/async/task_scheduler.cpp:113-149 | nothing is dispatched only if nothing was eligible, the select failed or the mark was refused; a dispatched task was oldest eligible, is processing with the snapshot's content and newly reserved; the mark is the call's only write |
| `TaskScheduling.TaskScheduler.OnTaskCompleted` | src/async/task_scheduler.cpp:151-158 | frees that document only, and leaves every other worker's reservation |
| `TaskScheduling.TaskScheduler.Debounce` | src/async/task_scheduler.cpp:28-79 | claims or refreshes a newest candidate, or says why not: none, in flight with other content, refused on the table it saw, or written and then not read back |
| `TaskScheduling.TaskScheduler.Enqueue` | src/async/task_scheduler.cpp:20-100 | the table changes by the call's own writes and interference only; the last write is the reported claim, refresh or create, the returned task carries the submission right after it and is there at return; a new task is made only when debounce declined or its write on the newest candidate was lost to a failing read-back or a vanished row; an error only when a statement failed |
| `Workers.OthersStepsAreRelied` | src/async/worker_pool.cpp:87-149 | in every reachable state each step of another thread leaves an executing worker's row owned and a recorded cancel recorded |
| `Workers.OthersRunsAreRelied` | src/async/worker_pool.cpp:87-149 | and so does any number of them |
| `Workers.OthersKeepReservation` | src/async/task_scheduler.cpp:113-158 | no other thread's step takes or gives away what a worker has reserved |
| `Workers.ParsePage` | src/async/document_processor.cpp:77-95 | one callback: a recorded cancel is seen if the checkpoint can be read, else progress is written; the row stays owned |
| `Workers.ParsePages` | src/async/document_processor.cpp:77-103 | a cancel is seen at the first readable checkpoint, processed and failed pages are tallied up to it, and after the last page the row carries the worker's stamp if its write went through |
| `Workers.ProcessTask` | src/async/document_processor.cpp:61-167 | one terminal write per normal path, other threads running throughout: success only if parsed and stored, failure only if not, cancellation only where a readable checkpoint saw one and always where one was recorded before; persisted, it is the row's status and decides the input; refused, the input stays; unless the store fails the row has ended or is gone |
| `Workers.WorkerTurn` | src/async/worker_pool.cpp:88-147 | with other workers reserving and releasing throughout, a turn takes an oldest eligible task if the select finds one, holds its document while serving it and gives it back however it ends; with a handler that does not throw, the outcome, the row's status and the released input are those the handler promises; otherwise no input is touched |
| `Workers.WorkerLoop` | src/async/worker_pool.cpp:87-149 | every turn does so on the table and files the previous one left, and at the end the worker holds no reservation |
| `Executor.RunInvariant` | src/common/executor_engine.cpp:7-74 | in every reachable state jobs are accounted for, the queue is bounded, wake-ups are covered and shutdown is orderly |
| `Executor.NoLostWakeup` | src/common/executor_engine.cpp:20-51 | a worker parked beside a queued job, or a producer parked beside a free slot, has a notification pending, an awake colleague, or the stopper about to wake it |
| `Executor.AcceptedJobsRunExactlyOnce` | src/common/executor_engine.cpp:7-74 | accepted jobs are started jobs followed by the queue, in order; the queue never exceeds capacity; when the first Shutdown returns each accepted job has run exactly as often as it was accepted |
| `Executor.NoSubmissionIsLost` | src/common/executor_engine.cpp:20-28 | in every reachable state each submission is accepted, still offered by its producer, or dropped, and nothing is dropped before shutdown |
| `Executor.DrainingDecreases` | src/common/executor_engine.cpp:63-74 | after shutdown begins every step but a new call, spurious wake-ups included, decreases a natural-number measure |
| `Executor.DrainingIsNeverStuck` | src/common/executor_engine.cpp:63-74 | until Shutdown returns some step other than a new call or a spurious wake-up is enabled |
| `Executor.QueuedJobsAreNeverStuck` | src/common/executor_engine.cpp:30-51 | while a job is queued somebody can move without a spurious wake-up |
| `Executor.ExecutorEngine.EnqueueLocked` | src/common/executor_engine.cpp:20-28 | drops if and only if shut down, pushes at the end if and only if there is room and no shutdown, and waits otherwise, as the push step does |
| `Executor.ExecutorEngine.TakeLocked` | src/common/executor_engine.cpp:33-43 | takes the first job if there is one, exits if and only if drained and shut down, parks otherwise, as the take step does |
| `Executor.ExecutorEngine.ShutdownLocked` | src/common/executor_engine.cpp:63-68 | only the first caller goes on |
| `ContentRefs.DefaultContentRefStore.IncrementRef` | src/catalog/default_content_ref_store.cpp:35-117 | the new tables and error for every combination of failing statements |
| `ContentRefs.DefaultContentRefStore.DecrementRef` | src/catalog/default_content_ref_store.cpp:119-197 | the new tables and reported count for every combination of failing statements |
| `ContentRefs.DriftIsSlips` | src/catalog/default_content_ref_store.cpp:35-197 | over any run with any failures the count moves away from the active references by exactly the number of operations that committed after a failed read |
| `ContentRefs.OneSlip` | src/catalog/default_content_ref_store.cpp:35-117 | a concrete slip: one reference, added again with a failing probe, is counted twice |
| `ContentRefs.IncrementTellsTrue` | src/catalog/default_content_ref_store.cpp:35-117 | an increment without an error leaves the reference active and has raised the count unless a readable probe found it active; with one nothing has changed |
| `ContentRefs.DecrementTellsTrue` | src/catalog/default_content_ref_store.cpp:119-197 | a decrement that reports a count leaves the reference inactive and reports the file's count, lowered if the reference was active and the count readable; without failures it is refused if and only if an active reference meets a zero count |
| `ContentRefs.CandidateIff` | src/catalog/default_content_ref_store.cpp:218-240 | a file is offered for collection if and only if it is uncounted and was deleted before the cutoff |
| `ContentRefs.CountCoversReferences` | src/catalog/default_content_ref_store.cpp:35-197 | started equal, the count never falls below the active references, and stays equal on every run whose reads succeed |
| `ContentRefs.NeverNegativeNeverCollected` | src/catalog/default_content_ref_store.cpp:119-240 | DecrementRef never reports a negative count and the collector is never offered a file with an active reference |
| `Sorting.SortedIsUnique` | src/chunker/child_parent_dedup.cpp:39-60 | where only equal elements tie, there is one sorted permutation |
| `Dedup.Accumulate` | src/chunker/child_parent_dedup.cpp:18-32 | the grouping loop: every key of the hits once, each with exactly its hits in input order and its first hit's parent |
| `Dedup.BuildGroup` | src/chunker/child_parent_dedup.cpp:38-52 | a group lists a best-first ordering of its hits and the capped prefix of it |
| `Dedup.DedupChildrenToParents` | src/chunker/child_parent_dedup.cpp:8-63 | one group per key, each presenting exactly the hits with that key under a cap of at least one, groups sorted best first |
| `Dedup.BuildChildrenHitsMeta` | src/chunker/child_parent_dedup.cpp:65-77 | one entry per group, in order, with its parent, its primary child and all its hits |
| `DedupTheorems.GroupIsBestFirst` | src/chunker/child_parent_dedup.cpp:38-52 | every group is ordered by score then child id, its primary is maximal among all hits of its key, and the rerank list is a non-empty prefix cut only by the cap |
| `DedupTheorems.GroupsAreBestFirst` | src/chunker/child_parent_dedup.cpp:55-61 | groups come in falling order of top score, equal ones in the order of the parent id, or of the primary child id without a parent |
| `DedupTheorems.SameKeyIff` | src/chunker/child_parent_dedup.cpp:18-22 | two hits share a group if and only if they have one parent, or are flat hits of one child, or clash through the reserved prefix |
| `DedupTheorems.HitIsGrouped` | src/chunker/child_parent_dedup.cpp:20-52 | every hit is listed in a group of its parent whose top score is at least its own |
| `DedupTheorems.ResultIsUnordered` | src/chunker/child_parent_dedup.cpp:8-63 | any two results for permuted hits are equal, however the sorts treat ties, when hits of one key share a parent and groups with equal best scores are ranked apart |
| `DedupOrder.UnorderedIffUnclashing` | src/chunker/child_parent_dedup.cpp:8-63 | and only then: the result is a function of the multiset of hits if and only if those two conditions, read off the hits, hold |
| `DedupTheorems.DisjointIdsAreUnclashing` | src/chunker/child_parent_dedup.cpp:18-22 | parent and child ids that are disjoint and free of the reserved prefix meet them |
| `DedupOrder.ResultExists` | src/chunker/child_parent_dedup.cpp:8-63 | every list of hits has a result |
| `DedupTheorems.EveryHitIsRecordedOnce` | src/chunker/child_parent_dedup.cpp:8-63 | the groups together record exactly the multiset of hit child ids, whatever the cap |
| `DedupTheorems.MetaRecordsEveryHit` | src/chunker/child_parent_dedup.cpp:65-77 | the response metadata records the same multiset |
| `DedupTheorems.MetaNamesTheParent` | src/chunker/child_parent_dedup.cpp:65-77 | each metadata entry leads with its primary child and each of its ids is that of a hit of the entry's parent |
| `DedupOrder.TiedGroupsMaySwap` | src/chunker/child_parent_dedup.cpp:55-61 | groups the final comparator cannot tell apart may come out in either order |
| `BloomFilters.InterleavedWritesAreSeen` | src/catalog/bloom_filter.cpp:59-83 | once a key's own bit writes have happened, among any others, the key is found |
| `BloomFilters.SetBitIsExact` | src/catalog/bloom_filter.cpp:59-69 | setting a bit sets that bit and no other |
| `BloomFilters.PresentIsCovered` | src/catalog/bloom_filter.cpp:71-102 | after any run a key's bits are all set if and only if each was set before or is a position of a key that entered: nothing else sets a bit and nothing clears one |
| `BloomFilters.NoFalseNegatives` | src/catalog/bloom_filter.cpp:71-102 | after any run of adds, loads and rebuild windows, of any size and hash count, every key that entered is reported |
| `BloomFilters.LoadedKeysAreReported` | src/catalog/bloom_filter.cpp:146-190 | every hash the catalog scan yielded is reported, then and after anything that follows |
| `BloomFilters.LoadReportsCatalogIff` | src/catalog/bloom_filter.cpp:176-189 | a load whose scan stops early reports the whole catalog if and only if every key it missed is covered by bits set before or by the keys it saw |
| `BloomFilters.FailedScanReportsNothing` | src/catalog/bloom_filter.cpp:176-189 | a fresh filter whose scan fails before its first hash is ready and reports no key |
| `BloomFilters.WordCount` | src/catalog/bloom_filter.cpp:36-42 | sizing under 64-bit wrap-around always leaves at least one word and a bit count below 2^64 |
| `BloomHashing.WordsCoverCapacityIff` | src/catalog/bloom_filter.cpp:36-42 | the filter has the bits asked for, rounded up to whole words, if and only if the capacity is at most 2^61 - 8 bytes |
| `BloomHashing.WrappedCapacity` | src/catalog/bloom_filter.cpp:36-42 | for 2^61 - 7 bytes it has one word |
| `BloomHashing.MixInjective` | src/catalog/bloom_filter.cpp:21-24 | a hashing round keeps different states apart, and different bytes |
| `BloomHashing.AvalancheInjective` | src/catalog/bloom_filter.cpp:25-29 | so does the final avalanche |
| `BloomHashing.OneByteTells` | src/catalog/bloom_filter.cpp:19-31 | keys that differ in one byte have different hashes |
| `BloomHashing.StrideIsNotBase` | src/catalog/bloom_filter.cpp:53-57 | a key's stride is not zero, and not its base unless it is the one put in place of zero |
| `BloomHashing.ProbesProgress` | src/catalog/bloom_filter.cpp:71-79 | a key's positions are a progression from its base by its stride in 64-bit arithmetic, reduced to the filter's size |
| `BloomFilters.BloomFilter.constructor` | src/catalog/bloom_filter.cpp:36-51 | a new filter has that many words, no bit set, a clamped hash count, and is not ready |
| `BloomFilters.BloomFilter.Hash` | src/catalog/bloom_filter.cpp:19-31 | the hashing loop computes the folded 64-bit hash |
| `BloomFilters.BloomFilter.Add` | src/catalog/bloom_filter.cpp:71-83 | sets exactly the key's probe positions in the word array |
| `BloomFilters.BloomFilter.MightContain` | src/catalog/bloom_filter.cpp:85-102 | answers maybe in the rebuild window, else whether all probe bits are set |
| `BloomFilters.BloomFilter.LoadFromCatalog` | src/catalog/bloom_filter.cpp:152-190 | the load equals a begin, one add per non-null row the scan yields before it ends or fails, and an end |
| `Base64Url.DecodeUndoesEncode` | src/auth/jwt_utils.cpp:34-98 | decoding undoes encoding on every byte string, and the text holds neither dot nor padding |
| `Base64Url.EncodeIsInjective` | src/auth/jwt_utils.cpp:34-64 | different byte strings have different texts |
| `Base64Url.DecodeAccepts` | src/auth/jwt_utils.cpp:66-98 | a text decodes if and only if it has only alphabet characters and padding and its significant length is not 1 modulo 4 |
| `Base64Url.EncodingIsUrlSafe` | src/auth/jwt_utils.cpp:58-63 | an encoding holds only letters, digits, '-' and '_' |
| `Base64Url.AlphabetIsUrlTable` | src/auth/jwt_utils.cpp:58-63 | each character stands for its value in table 2 of RFC 4648 |
| `Base64Url.GroupsAreBigEndian` | src/auth/jwt_utils.cpp:39-46 | three bytes and their four sextets are the same number, most significant first |
| `Base64Url.TestVectors` | src/auth/jwt_utils.cpp:34-64 | the first vectors of section 10 of RFC 4648, without padding |
| `Base64Url.Base64UrlEncode` | src/auth/jwt_utils.cpp:34-64 | the group loop, the remainder cases and the alphabet pass compute the encoding |
| `Base64Url.Base64UrlDecode` | src/auth/jwt_utils.cpp:66-98 | the value loop, the group loop and the remainder cases compute the decoding or its error |
| `Jwt.SplitUndoesJoin` | src/auth/jwt_utils.cpp:140-152 | three dot-free parts joined by dots are found again |
| `Jwt.JoinUndoesSplit` | src/auth/jwt_utils.cpp:140-152 | segments found are dot-free and make up the token |
| `Jwt.DecodeOfEncode` | src/auth/jwt_utils.cpp:110-209 | decoding an encoded token yields every emitted claim if and only if an accepted secret signs alike and it has not expired, else the matching error |
| `Jwt.AnyAcceptedSecretRecovers` | src/auth/jwt_utils.cpp:166-181 | a token signed with any secret of the accepted list is recovered before expiry |
| `Jwt.AcceptedTokensAreSigned` | src/auth/jwt_utils.cpp:137-209 | whatever decodes was signed by an accepted secret over everything before its last dot and has not expired |
| `Jwt.AcceptedHeaderIsHs256` | src/auth/jwt_utils.cpp:154-164 | a token that decodes has a header whose alg is HS256 |
| `Jwt.ClaimsAreNamed` | src/auth/jwt_utils.cpp:114-129 | the claims of each kind of token, under their names and no others |
| `Jwt.DecodeJwt` | src/auth/jwt_utils.cpp:137-209 | the checks in order with the loop over secrets compute the decoding |
| `Jwt.RespellingDecodesAlike` | src/auth/jwt_utils.cpp:166-181 | texts with the same signed part and signatures that decode alike decode alike |
| `Jwt.PaddingRespells` | src/auth/jwt_utils.cpp:66-75 | a padding character after any token gives another text of it, not the encoder's |
| `Jwt.CanonicalIsUnique` | src/auth/jwt_utils.cpp:34-64 | a token has one text spelled as the encoder spells it |
| `Jwt.EncodedIsCanonical` | src/auth/jwt_utils.cpp:110-135 | and the encoder emits that one |
| `JwtSecrets.StepKeepsHealthyIff` | src/auth/jwt_secret_service.cpp:77-131 | every start, rotation and cleanup, failing or not and also after a failed start, keeps at most one current and one prev secret and the signing secret current, if and only if it is not a start that fails to read the current secret and then inserts |
| `JwtSecrets.BlindStartMakesTwo` | src/auth/jwt_secret_service.cpp:102-131 | a concrete such start of a service that had started once leaves two current secrets |
| `JwtSecrets.AcceptedStartsWithSigningSecret` | src/auth/jwt_secret_service.cpp:135-240 | after any mix of such operations a service that started, or was repaired by a rotation, has one current and at most one prev secret, and the accepted list starts with the in-memory signing secret |
| `JwtSecrets.RetiredIsNeverAccepted` | src/auth/jwt_secret_service.cpp:212-240 | a retired row stays retired for ever and every accepted secret comes from another row, current or unexpired prev |
| `JwtSecrets.CleanupIsInvisible` | src/auth/jwt_secret_service.cpp:242-263 | with or without a cleanup, after any later operations, the same secrets are accepted at every later time |
| `JwtSecrets.RotationOpensWindow` | src/auth/jwt_secret_service.cpp:135-210 | after a rotation the outgoing secret is accepted for exactly the next 24 hours |
| `JwtSecrets.JwtSecretService.Start` | src/auth/jwt_secret_service.cpp:77-131 | environment override, load and first generation, with every failing statement; a failed start leaves the in-memory secret |
| `JwtSecrets.StartLoads` | src/auth/jwt_secret_service.cpp:102-123 | a start over a readable current secret signs with it and writes nothing |
| `JwtSecrets.StartOverrides` | src/auth/jwt_secret_service.cpp:82-100 | an override under a new id that meets no failure is the one current secret and the signing one, the former ones retired |
| `JwtSecrets.StartGenerates` | src/auth/jwt_secret_service.cpp:125-131 | a start that finds no current secret and meets no failure stores a generated one and signs with it |
| `JwtSecrets.StartTellsTrue` | src/auth/jwt_secret_service.cpp:77-131 | a start that succeeds signs with a secret that is current in the table; one that fails keeps its secret |
| `JwtSecrets.JwtSecretService.RotateJwtSecret` | src/auth/jwt_secret_service.cpp:135-210 | succeeds if and only if no statement fails and the id is new; then the demotions and the insert have all happened, else nothing has |
| `JwtSecrets.JwtSecretService.GetAcceptSecrets` | src/auth/jwt_secret_service.cpp:212-240 | the row loop yields the non-empty, unexpired values of the rows scanned, current first, and the whole accepted list when the scan completes |
| `JwtSecrets.CutScanAccepts` | src/auth/jwt_secret_service.cpp:220-238 | for a started service a scan that stops early yields nothing, the signing secret, or everything, according to whether it got to no row, one, or two |
| `JwtSecrets.CutScanRejectsSigner` | src/auth/jwt_secret_service.cpp:220-238 | a concrete such scan leaves out the secret the service signs with |
| `JwtSecrets.JwtSecretService.CleanupExpiredPrev` | src/auth/jwt_secret_service.cpp:242-263 | afterwards no prev secret is expired, exactly those that were are retired, and the result is their number |
| `Blacklist.ValidatesIffNotListed` | src/auth/auth_service.cpp:489-557 | after any run at all, any statement failing and any scan stopping early, a token validates if and only if it decodes as an access token and every operation that put it on the list, a logout or a scan of its row before its expiry, is followed by a cleanup or restart that missed it |
| `Blacklist.CacheIsListed` | src/auth/auth_service.cpp:519-557 | the in-memory set holds exactly the tokens so listed |
| `Blacklist.StepKeepsEntryIff` | src/auth/auth_service.cpp:538-557 | while its row lives, an entry survives an operation if and only if that does not empty the set or sees the row when it reloads |
| `Blacklist.MissedReloadForgets` | src/auth/auth_service.cpp:549-556 | after a cleanup or restart that misses its row, a token is judged as if it had never been logged out |
| `Blacklist.FailedReloadForgets` | src/auth/auth_service.cpp:549-556 | a concrete token, logged out and refused, validates after a cleanup whose reload fails |
| `Blacklist.LogoutIsFinalIff` | src/auth/auth_service.cpp:362-390 | on later runs whose reloads see its hash, a logged-out access token never validates again if and only if it has an expiry and a row, written now or older, that does not expire sooner |
| `Blacklist.ExpiryFreeTokenReturns` | src/auth/auth_service.cpp:538-557 | a token signed without an expiry and logged out validates again after one cleanup |
| `Blacklist.ValidatesIffNeverLoggedOut` | src/auth/auth_service.cpp:489-557 | where rows are written and reloads see them, an unexpired access token with an expiry validates if and only if it was never successfully logged out |
| `Blacklist.RefreshTokenNeverValidates` | src/auth/auth_service.cpp:498-501 | a token of kind refresh never validates as an access token |
| `Blacklist.RespelledTokenValidatesIff` | src/auth/auth_service.cpp:374-379 | after any run, two texts of one token validate each according to its own listing, so one that was never logged out validates whatever happened to the other |
| `Blacklist.PaddedTokenSurvivesLogout` | src/auth/auth_service.cpp:502-508 | so a padding character undoes a logout, after any run |
| `Blacklist.PaddedTokenReturns` | src/auth/auth_service.cpp:502-508 | a concrete token, logged out and refused, is accepted with a padding character |
| `Blacklist.CanonicalLogoutIsComplete` | src/auth/auth_service.cpp:502-508 | and among texts spelled as the encoder spells them one listing decides for all |
| `Blacklist.LogoutRevokesSession` | src/auth/auth_service.cpp:392-408 | a session's logout revokes every refresh token of its user and no other |
| `Blacklist.RefreshStaysRevoked` | src/auth/auth_service.cpp:538-557 | a revoked refresh token stays revoked or is deleted on every run of these operations |
| `Blacklist.AuthService.LogOut` | src/auth/auth_service.cpp:362-411 | a token that decodes enters the cache and, unless the insert fails or a row exists, the table, and its user's refresh tokens are revoked; any other changes nothing |
| `Blacklist.AuthService.ValidateAccessToken` | src/auth/auth_service.cpp:489-517 | accepts exactly decoding access tokens whose hash is not cached |
| `Blacklist.AuthService.LoadBlacklist` | src/auth/auth_service.cpp:519-536 | the row loop adds exactly the unexpired hashes its scan yields; a scan that stops early is a success, one that cannot be prepared adds nothing |
| `Blacklist.AuthService.CleanupExpired` | src/auth/auth_service.cpp:538-557 | two deletes of exactly the expired rows, each failing on its own, then the set rebuilt at a later clock reading from what the reload yields |
| `ValidationSecrets.ValidatesIffStored` | src/auth/auth_service.cpp:489-505 | a token that is not revoked validates if and only if it is unexpired and its secret is in the stored list, whatever the table says of the secret |
| `ValidationSecrets.FollowsTableIff` | src/auth/auth_service.cpp:201-205 | validation answers as the secrets table would if and only if the stored list holds the secrets the table accepts now |
| `ValidationSecrets.RetiredSecretStillValidates` | src/auth/auth_service.cpp:489-505 | a concrete token signed with a secret retired by two rotations still validates |

## Left out

- SQLite itself: statements, indexes, pragmas and DDL; tables are maps, and a transaction commits or restores. A ROLLBACK that fails is not modelled.
- Columns that steer nothing: page counts, progress percentage, error texts, trace ids, file names and metadata.
- HMAC, SHA-256, random bytes and JSON: parameters; JSON is assumed to read back what it wrote, the blacklist theorems over whole runs assume that the token hash does not collide, and those on stored secrets that different secrets sign differently.
- The releaser for unadopted inputs is wired elsewhere: it appears only as an arbitrary change of the file store between steps.
- Rows left in `cancelling` by a crash are not claimed to end, and swept tasks are not claimed to release their input: no sweep touches either.
- Wall-clock fairness and the worker pool's wait: a worker may dequeue at any time.
- Parsing and the storing stages of a document: outcomes chosen from outside.
- Starting a service that has already started: `JwtSecrets.JwtSecretService.Start` covers the call, the run theorems cover starts of a fresh process.
- Issuing and using refresh tokens: only their revocation by a logout and their deletion are modelled.
- `gmtime_r` and `printf` padding are modelled by the proleptic Gregorian calendar and decimal digits.
- Executor jobs that throw: the thread would not return to its loop.
- The executor's threads as running loops: they are steps of a transition system; `Executor.ExecutorEngine` covers their critical sections only.
- Search scores are real numbers: NaN, for which the comparators are not orders, is excluded.
- `std::sort` is any sorted permutation; its own algorithm is not modelled.
- The choice of the Bloom filter's hash count from a logarithm, its counters and its false-positive estimate.
- Concurrent logouts and cleanups in the authentication service: its operations run one at a time.
- Registration, login, refresh, password reset, API keys, the namespace router, the MCP session handler, HTTP bodies, metrics and the Python agent: mostly single-branch validation or tables of text.
