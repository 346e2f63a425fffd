# Loom: verified models of the run engine and its services

Loom queues coding runs, drives each one through a pipeline of agents behind gates, and surrounds that pipeline with
services: rate limiting, usage metering, webhooks, team memory and workspace snapshots. This project models eight of
its parts in Dafny and proves what they are for. `dafny verify dfyconfig.toml` checks everything.

## Layout

| files | part |
|---|---|
| `Text.dfy`, `UnifiedDiff.dfy`, `RevertPatch.dfy` | The patch that undoes a merged patch: `str.splitlines`, structure and meaning of unified diffs, and the index-driven program. |
| `RevertReading.dfy`, `RevertExact.dfy`, `RevertDiff.dfy`, `RevertEmpty.dfy`, `DiffReader.dfy`, `SectionOrder.dfy` | When the program reads a printed diff as it is meant, that its output is right exactly then, when it is empty, a reader of diff text by hunk lengths with the undo stated on texts, and diffs with several sections of one file. |
| `FailurePolicy.dfy`, `JobStore.dfy`, `QueueMachine.dfy`, `QueueSafety.dfy`, `QueueProgress.dfy`, `QueueFailures.dfy`, `Worker.dfy` | The durable job queue: Redis commands as atomic effects, the protocol as a state machine in which a worker may crash or a call may raise between any two commands, safety over all reachable states, progress of a pending message, and the worker program, shown to take only steps of that machine. |
| `RunMachine.dfy`, `RunSafety.dfy`, `TaskGraph.dfy` | The pipeline engine: a state machine with operator controls at every await, safety over all runs, and the program with its retry loop, gates and status ladder, shown to go through runs of that machine. |
| `GraphProximity.dfy`, `BuildOrder.dfy` | Breadth-first proximity of a file, depth-first build order of sub-projects. |
| `SlidingWindow.dfy`, `RateLimiters.dfy`, `RateLimitRace.dfy` | The reference sliding window, the three limiters against it, and many clients racing on one Redis key. |
| `VectorSync.dfy` | Merging team memory between replicas. |
| `UsageLedger.dfy`, `Billing.dfy` | The deduplicating usage log, snapshots and run credits. |
| `Webhooks.dfy`, `Snapshots.dfy` | Webhook delivery with retries and dead letters; pruning of workspace snapshots. |

A part that changes state step by step is a class whose methods are proved against functions of a value (`Next`,
`Apply`, `Revert`, `MergeAll`, `Kept`, ...); the lemmas are about those functions and about runs of them. `Await`
and `WaitFirst` stand for the rest of the world: their callers know nothing but their contracts, which allow any
interference, so the simple bodies given there are one possibility among all. What the calls of a worker raise, and how
the attempts of a pipeline node end, are arbitrary functions that the programs are given.

## What was found

Some promises do not hold of the code as it is. The model keeps the code; each point names the lemma that shows the
failure, the exact condition under which the promise holds, or both.

- A diff that drops a line starting with "-- " (a comment in SQL or Lua) or adds one starting with "++ " is not
  reversed: the line is read as a file header (`HeaderLikeLineFails`). The program also cuts lines where `str.splitlines`
  does, at a form feed, an inner carriage return or U+2028 for instance, and reads what follows as a line of its own: a
  dropped line with a form feed before a plus sign is reversed wrongly (`FormFeed`). `RevertsExactly` says that a diff
  whose lines end at "\n" is reversed rightly if and only if every piece so cut is read as it is meant, and
  `NoChangeExactly` when a diff without a change gives the empty patch.
- A diff that changes one file in two sections is reversed section by section in the original order, and that need not
  undo it (`TwoSectionsNotUndone`); the opposite order always would (`UndoBackwards`). `TwoSectionsExactly` gives the
  exact condition for the program's order, line shifts included; for hunks that move no line it is that no line both
  sections name is changed (`TwoInPlaceExactly`).
- A diff without any added or removed line, read as meant, gives the empty patch. That loses renames, creations and
  deletions, and nothing else (`NothingToUndo`).
- A lost lease is meant to be retried, but an id is part of the message that is searched for words such as "config" or
  "invalid"; the retry happens if and only if the id has none of them (`LeaseLossRetried`). The ids the program makes
  never have one, so for them the promise is kept (`MadeIdRetried`, `LostLeasesRetried`); it fails only for jobs
  enqueued with ids of another kind.
- The success of a retried job can vanish from its job hash without any lease running out, because the successor is
  appended to the stream before it is listed as queued (`ListedAfterSuccess`); `SuccessOverwritten` lists all steps
  that take a success away.
- A rolled-back run can still end MERGED (`RolledBackRunCanMerge`): if and only if a node with a status of its own
  starts after the rollback and the run would have ended MERGED without it (`RollbackExactly`).
- A run resumed at a node that does not exist has an empty sequence and can end MERGED at once (`UnknownResume`).
- The Redis limiter counts a window's admissions exactly if and only if none of them was purged by a client whose clock
  was ahead or lost to the expiry of the set (`CountsExactly`). Stamps out of order let it admit one too many for every
  limit and window (`LateStampOverAdmits`), and so does a transaction more than five seconds under way
  (`SlowTransactionOverAdmits`); with clocks in step it never does (`NeverOverAdmits`).
- `merge_records` takes over a record of another organization whose id is new (`StaysOwnExactly`).
- The deduplication key of a usage event, whose context hash has no "|", identifies its run, step, attempt and input if
  and only if neither its run id nor its step id has a "|" (`KeyIdentifiesExactly`); an event logged by another process
  stays invisible until a restart (`MemoryIsReplay`).
- The pricing text limits a credit to eight agent steps; the code does not count steps (`ManyStepsOneCredit`).
- `max_retries` counts the first post, except that 1 allows two posts (`Ends`, `RetryDelivery`).
- Pruning keeps "only the most recent" snapshots exactly when no entry removed for the limit was fresh or no entry
  after it was expired (`KeepsNewestExactly`).

## Model

| member | source | states |
|---|---|---|
| `RevertPatch.GenerateRevertPatch` | loom/business/post_merge.py:45-98 | for every text the nested index loops give what one pass over the lines gives: an error exactly when some `--- ` line has no `+++ ` partner, else the flipped lines, or nothing when no line was flipped |
| `RevertPatch.ParsePrintHeader` | loom/business/post_merge.py:25 | every printed hunk header, whatever its section text, is read back as its two ranges |
| `RevertReading.ItemsRead` | loom/business/post_merge.py:58-94 | a printed diff all of whose pieces, cut as `str.splitlines` cuts them, are read as they are meant is flipped item by item, and a change is noted exactly when an item has one |
| `RevertExact.ItemsWrong` | loom/business/post_merge.py:58-94 | if some piece is read otherwise, the output is never the reversed text, whatever follows |
| `RevertDiff.RevertPrinted` | loom/business/post_merge.py:45-98 | on a well-formed diff that is read as meant the result is the text of the reversed diff, or empty when nothing changes |
| `DiffReader.RevertUndoes` | loom/business/post_merge.py:45-50 | real undo, on texts: if a patch text, read by its hunk lengths and applied, turns a tree of files into another, the generated text, read and applied in the same way, turns it back; line offsets and empty ranges included |
| `DiffReader.ReadPrinted` | loom/business/post_merge.py:45-50 | every well-formed diff whose lengths fit is read back from its text, the reversed ones included |
| `DiffReader.ParseLossless` | loom/business/post_merge.py:45-50 | whatever text is readable as a diff is the text of that diff |
| `RevertDiff.RevertsExactly` | loom/business/post_merge.py:61-90 | the result for a changing diff is the text of its reverse if and only if every piece of its lines is read as it is meant: no dropped line reads as a `--- ` header, no added one as a `+++ ` header, and no part of a line after a form feed or another `str.splitlines` boundary as a changed line or a header |
| `RevertDiff.HeaderLikeLineFails` | loom/business/post_merge.py:61-68 | no diff that drops a line starting with `-- ` or adds one starting with `++ ` is reversed rightly, whatever else is in it |
| `RevertDiff.FormFeed` | loom/business/post_merge.py:58 | one dropped line with a form feed before a plus sign is reversed wrongly |
| `RevertEmpty.EmptyExactly` | loom/business/post_merge.py:45-98 | for every text the generated patch is empty exactly when no piece of it reads as a change or as half a file header |
| `RevertEmpty.NoChangeExactly` | loom/business/post_merge.py:48-49 | for a diff that adds and removes no line the generated patch is empty exactly when no piece of any of its lines, taken by itself, reads as a changed line or as half a file header |
| `RevertDiff.RevertTwice` | loom/business/post_merge.py:71-75 | reverting twice gives the diff in normal form (explicit lengths, no section text) if and only if the reversed diff too is read as meant |
| `UnifiedDiff.UndoHunks` | loom/business/post_merge.py:72-75 | applying the reversed hunks, with swapped ranges, to the result of the hunks gives the old lines back from any position on |
| `UnifiedDiff.UndoDiff` | loom/business/post_merge.py:46-48 | applying a diff and then its structural reverse restores the tree when each file has one section |
| `UnifiedDiff.DiffTouchesOnlyItsPaths` | loom/business/post_merge.py:65-66 | a diff changes no file but those its headers name |
| `UnifiedDiff.NothingToUndo` | loom/business/post_merge.py:96-97 | a diff that changes no line leaves the tree as it was if and only if no section renames, creates or deletes a file, so the empty patch is right exactly then |
| `UnifiedDiff.TwoSectionsNotUndone` | loom/business/post_merge.py:58-68 | two sections of one file, printed in the original order, are not undone |
| `SectionOrder.UndoBackwards` | loom/business/post_merge.py:58-68 | the reversed sections in reversed order undo every diff, however many sections a file has |
| `SectionOrder.TwoSectionsExactly` | loom/business/post_merge.py:58-68 | two sections of one file, however they shift its lines, are undone in the printed order if and only if the lines each wrote are still at their numbers when its turn comes and the lines put back, with the shifted ones around them, are those of the first file |
| `SectionOrder.HunksFrame` | loom/business/post_merge.py:72-75 | hunks apply to another file exactly when the lines they name are there at the same numbers, and then write the same, with the other file's lines shifted around it |
| `SectionOrder.TwoInPlaceExactly` | loom/business/post_merge.py:58-68 | if the hunks of both move no line: if and only if no line both name is changed by either |
| `FailurePolicy.RetryByWords` | loom/runtime/failure_policy.py:28-51 | the cascade retries exactly the failures whose message has none of nine words and whose type is not a budget one, whatever else the message says |
| `FailurePolicy.LeaseLossRetried` | loom/runtime/failure_policy.py:28-51 | a lost lease, noticed during the run or at its start, is retried if and only if the id in the message contains none of the final words |
| `FailurePolicy.MadeIdRetried` | loom/runtime/production_queue.py:50-75 | for ids the program makes a lost lease is always retried |
| `JobStore.LineageIds` | loom/runtime/worker.py:76-88 | the retries of a job have pairwise different ids and the same run and request, each with one more attempt |
| `QueueMachine.StepInv` | loom/runtime/worker.py:37-102 | every step of every worker, crash and exception included, keeps the invariant: delivered messages pending or acknowledged, acknowledged jobs handled, successors justified, leases in place until their deadlines |
| `QueueMachine.StepOtherLease` | loom/runtime/job_queue.py:70-83 | no acquisition, renewal or release by one worker disturbs the lease of another whose deadline has not passed |
| `QueueMachine.StepAckedHandled` | loom/runtime/worker.py:63-90 | an acknowledgement only follows a recorded success, a dead letter, or the successor in the stream |
| `QueueSafety.NoJobLost` | loom/runtime/worker.py:62-90 | in every reachable state each submitted job's lineage has an unacknowledged entry, a recorded success, or a dead letter |
| `QueueSafety.UnackedIsRecoverable` | loom/runtime/job_queue.py:109-133 | an unacknowledged entry is still undelivered or on the pending list |
| `QueueProgress.PendingIsReclaimed` | loom/runtime/job_queue.py:98-117 | from every reachable state an idle worker that goes on working by itself, without any crash or exception, takes every pending message over in the end, whatever its last consumer did and whatever is pending before it |
| `QueueProgress.TryAll` | loom/runtime/job_queue.py:112-117 | once all leases have run out, the first of the messages taken over that has a job is claimed, and those before it are acknowledged |
| `QueueSafety.OneHolder` | loom/runtime/job_queue.py:70-83 | of two workers with a claim on one job id at least one has outlived its lease |
| `QueueSafety.NoOverlap` | loom/runtime/worker.py:115-121 | if every executing worker renews in time, no two workers execute the same job id at once |
| `QueueSafety.StaleHolderHarmless` | loom/runtime/job_queue.py:75-83 | no step of a stale holder changes the lease of a current one |
| `QueueSafety.EntryLineage` | loom/runtime/worker.py:75-89 | every entry is a submitted job or one of its retries, with attempts below the limit if it is a retry |
| `QueueSafety.AttemptsBounded` | loom/runtime/worker.py:67-69 | with jobs submitted at attempts 0 no entry ever reaches `max_attempts` |
| `QueueSafety.IdsBounded` | loom/runtime/worker.py:75-77 | a job leads to at most `max_attempts` distinct ids, however often workers crash after enqueuing a successor |
| `QueueSafety.SuccessorHasCause` | loom/runtime/worker.py:73-89 | a successor exists only after its predecessor was marked for retry with attempts left |
| `QueueSafety.RetryMarkCause` | loom/runtime/worker.py:69-74 | that mark is written only by a call in the failure branch, after a retryable failure with attempts left |
| `QueueFailures.FinalFailureBuries` | loom/runtime/worker.py:69-72 | after a failure that is not retried, whatever all workers and clients do and as long as the claim lasts, no step of this worker enqueues anything or marks the job for retry, and it acknowledges only after the dead letter |
| `QueueFailures.SuccessorTrace` | loom/runtime/worker.py:69-89 | in every run an entry that was not submitted is the retry of one job, and some step of the run is the call of a worker whose run of that job failed in a retryable way with attempts left |
| `QueueFailures.FinalFailuresEndLineage` | loom/runtime/worker.py:69-72 | a job all of whose failures in a run are final has no successor in it |
| `QueueFailures.LostLeasesRetried` | loom/runtime/worker.py:61-74 | in every reachable state, with ids the program made, the error for a lost lease makes the worker retry the job while attempts are left (an exception the cancelled run lets out is another error) |
| `QueueSafety.SuccessOverwritten` | loom/runtime/job_queue.py:143-162 | exactly which steps replace a `succeeded` in a job hash |
| `QueueSafety.ListedAfterSuccess` | loom/runtime/job_queue.py:85-92 | a reachable state in which a retry has succeeded and everything is acknowledged, yet the hash says `queued` |
| `Worker.Cluster.XAutoClaim` | loom/runtime/job_queue.py:112-113 | takes over the stale messages with the lowest ids, all of them if fewer than the count |
| `Worker.Cluster.CompareExpire` | loom/runtime/job_queue.py:75-78 | extends the lease exactly when the token is the current one |
| `Worker.Cluster.CompareDelete` | loom/runtime/job_queue.py:80-83 | deletes the lease exactly when the token is the current one |
| `Worker.OutsideKeepsWork` | loom/runtime/worker.py:43-62 | whatever other workers, clients, the clock and its own heartbeat do, a worker's claim and phase stay and the store only grows |
| `Worker.JobQueue.DecodeAndClaim` | loom/runtime/job_queue.py:98-107 | a job without a current lease is claimed with a held one, a leased job is passed over, an entry without a job is acknowledged |
| `Worker.JobQueue.ClaimStale` | loom/runtime/job_queue.py:111-119 | the auto-claim part never raises and yields a claim with a held lease on one of the first ten stale messages, or nothing; then an exception was swallowed or each of them had no job or a leased one when it was tried |
| `Worker.JobQueue.ClaimNew` | loom/runtime/job_queue.py:121-133 | the next new message is claimed with a held lease; nothing is claimed only if there was no new message, or the one read had no job or a leased one |
| `Worker.JobQueue.ClaimNext` | loom/runtime/job_queue.py:109-133 | a claim comes with a held lease, on one of the first ten stale messages or on a new one, and on a new one only if a call raised or each stale one had no job or a leased one when it was tried; nothing is claimed only if, besides, no new message with a free job was found |
| `Worker.JobQueue.MarkStarted` | loom/runtime/job_queue.py:143-148 | the run executes only if "running" was written and the lease was current and renewed after that, else the failure branch is taken |
| `Worker.JobQueue.Heartbeat` | loom/runtime/job_queue.py:150-157 | renews the lease of the claim, or reports it lost |
| `Worker.JobQueue.EnqueueSuccessor` | loom/runtime/job_queue.py:85-92 | without an exception the successor was appended first and listed as queued in a later state |
| `Worker.RunWorker.HandleFailure` | loom/runtime/worker.py:65-90 | ends in the finally block; without an exception the message is acknowledged, and the job is a dead letter if it must not be retried, else its successor is in the stream |
| `Worker.RunWorker.RunOnce` | loom/runtime/worker.py:38-102 | whatever interferes and whatever raises, one turn keeps the deployment in a reachable state; an acknowledged job has its success recorded or, after a failure with a reason, a dead letter or a successor; without an acknowledgement some call raised or neither a stale nor a new message had a free job |
| `Worker.RunWorker.RunForever` | loom/runtime/worker.py:36-102 | the loop takes all its turns unless it is stopped or a call raises |
| `RunMachine.AutoMergeExactly` | loom/orchestrator/task_graph.py:66-121 | the decision merges exactly when verification passed, the effective decision is auto_merge, there is no conflict and confidence reaches the threshold; then nobody reviews, and the actor fits |
| `RunMachine.LadderComplete` | loom/orchestrator/task_graph.py:651-668 | the closing else of the status ladder is unreachable |
| `RunMachine.MergedExactly` | loom/orchestrator/task_graph.py:651-668 | the ladder gives MERGED exactly when nothing stopped, cancelled or overspent the run and its data may merge |
| `RunMachine.LadderExactly` | loom/orchestrator/task_graph.py:651-668 | exactly when the ladder gives each of the seven statuses, from the fields of the run |
| `RunMachine.SequenceExactly` | loom/orchestrator/task_graph.py:246-264 | without a resume name a run has the six nodes in order; resumed at one of them it has that one and those after it; resumed at another name it has none |
| `RunMachine.StepKeepsRunInv` | loom/orchestrator/task_graph.py:486-628 | every event keeps the record of passed nodes in sequence order behind open gates, and a run that left early is barred from merging |
| `RunSafety.MergedIff` | loom/orchestrator/task_graph.py:630-668 | over all runs and interleavings: MERGED if and only if the whole sequence was passed, nothing barred the run and its data asks for a merge |
| `RunSafety.MergedRunIsSafe` | loom/orchestrator/task_graph.py:486-668 | a merged run went through every node in order, each that succeeded behind its open gate, the last one succeeding |
| `RunSafety.MergedRunSucceeded` | loom/orchestrator/task_graph.py:612-622 | without an error callback that lets failures go on, every node of a merged run succeeded behind an open gate |
| `RunSafety.GateEnds` | loom/orchestrator/task_graph.py:536-622 | exactly which gates send a run out of the loop and how it then ends: held, waiting for approval, or failed |
| `RunSafety.CancelIsFinal` | loom/orchestrator/task_graph.py:509-518 | after a cancel no node starts and the run does not end MERGED |
| `RunSafety.BegunCancelled` | loom/orchestrator/task_graph.py:509-518 | a run begun cancelled starts no node and does not end MERGED |
| `RunSafety.RefusedIsNotMerged` | loom/orchestrator/task_graph.py:564-580 | a patch refused by the commit gateway is not merged by the run |
| `RunSafety.RollbackHolds` | loom/orchestrator/task_graph.py:235-237 | a rollback keeps the run from merging unless another node starts after it |
| `RunSafety.RollbackForgotten` | loom/orchestrator/task_graph.py:520-522 | the events without the rollback are a run as well, and if a node with a status of its own starts after it, with the same outcome |
| `RunSafety.RollbackExactly` | loom/orchestrator/task_graph.py:235-237 | a rolled-back run ends MERGED if and only if such a node starts afterwards and the run without the rollback ends MERGED |
| `RunSafety.RolledBackRunCanMerge` | loom/orchestrator/task_graph.py:520-522 | a run that was paused, rolled back and resumed at its last node ends MERGED |
| `RunSafety.PauseHolds` | loom/orchestrator/task_graph.py:513-514 | between a pause and the next start of a node there is a resume or a step-over |
| `RunSafety.BegunPaused` | loom/orchestrator/task_graph.py:513-514 | in a run begun paused no node starts before a resume or a step-over |
| `RunSafety.StepOverRunsOneNode` | loom/orchestrator/task_graph.py:225-228 | after a step-over a second node starts only after another resume or step-over |
| `RunSafety.UnknownResume` | loom/orchestrator/task_graph.py:469-484 | a run resumed at an unknown node has nothing to do and ends MERGED at once exactly when it is not cancelled, within budget and its data asks for a merge |
| `TaskGraph.RepeatIsFinal` | loom/orchestrator/task_graph.py:437-444 | a repeated error signature rules out success, so stopping at once loses nothing of the retry rule |
| `TaskGraph.TaskGraph.ComputeBackoff` | loom/orchestrator/task_graph.py:296-300 | each delay lies within thirty percent of min(base * factor^k, max) |
| `TaskGraph.TaskGraph.BackoffBounded` | loom/orchestrator/task_graph.py:296-300 | with non-negative settings no delay is negative or above 1.3 times the maximum |
| `TaskGraph.TaskGraph.BackoffGrows` | loom/orchestrator/task_graph.py:296-300 | the capped delay starts at the base, is multiplied by the factor from attempt to attempt, and stays at the maximum once it gets there |
| `TaskGraph.TaskGraph.ExecuteNodeWithRetry` | loom/orchestrator/task_graph.py:302-467 | succeeds exactly when some attempt within max_retries + 1 does and all failures before it have different signatures; one sleep before each further attempt, the k-th one near its capped exponential, and an end at the success, at a repeated signature or at the last attempt |
| `TaskGraph.TaskGraph.PassGate` | loom/orchestrator/task_graph.py:536-622 | the gates and the error callback do what the state machine's gate does |
| `TaskGraph.TaskGraph.FinalLadder` | loom/orchestrator/task_graph.py:630-668 | the new status is the final status of the state machine |
| `TaskGraph.TaskGraph.ReachNode` | loom/orchestrator/task_graph.py:486-522 | a node starts only within the budget, not cancelled and not paused; the loop is left for the budget or a cancellation, and waits only when paused |
| `TaskGraph.TaskGraph.Run` | loom/orchestrator/task_graph.py:469-668 | the program goes through a run of the state machine over the chosen sequence and ends with that run's outcome, each node ending as its retry rule and each budget check as the budget says; so all run-safety results hold of it |
| `TaskGraph.MergedByRule` | loom/orchestrator/task_graph.py:486-668 | in a merged run every node that counts as succeeded did so by the retry rule, and without an error callback that waves failures on every node did |
| `GraphProximity.HeadIsNearest` | loom/context/budget.py:133-141 | the file at the head of the queue is at its exact shortest distance from the touched files, repeated touched files included |
| `GraphProximity.NothingFound` | loom/context/budget.py:133-143 | when the queue is empty an unvisited file has no path from the touched files |
| `GraphProximity.DistanceExists` | loom/context/budget.py:133-143 | a file with any path has a shortest distance, so the two cases of the score cover all files |
| `GraphProximity.Proximity` | loom/context/budget.py:112-143 | 1 for touched files, 0.5 without a graph, else exactly 1/(1+d) for shortest distance d and 1/6 without a path; terminates on every graph |
| `BuildOrder.TopologicalIffAcyclic` | loom/cli/multi_repo.py:124-143 | a build order puts every dependency first if and only if the dependencies have no cycle |
| `BuildOrder.Planner.Visit` | loom/cli/multi_repo.py:129-138 | keeps the search invariant under recursion on cyclic graphs: each project once, dependencies first unless they depend back |
| `BuildOrder.Planner.Compute` | loom/cli/multi_repo.py:124-143 | lists each project exactly once, with a dependency before its dependent whenever it cannot reach back |
| `SlidingWindow.ReferenceNeverOver` | loom/infra/distributed.py:211-218 | the reference decision never lets any window, wherever it ends, hold more than `limit` admissions |
| `SlidingWindow.RefusesOnlyWhenFull` | loom/infra/distributed.py:215-218 | under a positive limit a request is refused exactly when admitting it would overfill a window, for every window length |
| `RateLimiters.LocalLimiter.Allow` | loom/infra/distributed.py:204-218 | the deque with its pops decides as the reference over the whole past does; refuses to run in production without the fallback flag |
| `RateLimiters.EvictionKeepsMeaning` | loom/api/app.py:146-150 | dropping stale keys changes no later decision |
| `RateLimiters.MiddlewareLimiter.Allow` | loom/api/app.py:138-150 | the filtered list with eviction decides as the reference does; after an admission that made the table too large no stale key is left |
| `RateLimiters.UndoTransact` | loom/infra/distributed.py:226-232 | taking back the entry of a refused request leaves exactly what was counted |
| `RateLimiters.RedisLimiter.Allow` | loom/infra/distributed.py:220-234 | the sorted set with undo and an expiry by the server's clock decides as the reference does, for transactions at most five seconds under way |
| `RateLimiters.SameDecisions` | loom/infra/distributed.py:204-234 | on every trace with a clock that never goes back the three limiters answer alike, as the reference |
| `RateLimitRace.KeptIsLeft` | loom/infra/distributed.py:225-233 | in every run, whatever the clocks say, the set holds for admitted requests exactly the entries that no later transaction purged or found expired |
| `RateLimitRace.CountsExactly` | loom/infra/distributed.py:225-231 | in every run and any order of the clocks a transaction counts all admissions of its window if and only if none of them was lost to a purge by a clock ahead or to an expiry, and never more |
| `RateLimitRace.NeverOverUnlessLost` | loom/infra/distributed.py:225-234 | in any order of the clocks no window is overfilled as long as no transaction has lost an admission of its window |
| `RateLimitRace.TransientsOnlyRefuse` | loom/infra/distributed.py:230-234 | while nothing is lost, entries of refused requests can only cause more refusals, and without them the decision is the reference's |
| `RateLimitRace.NeverOverAdmits` | loom/infra/distributed.py:225-234 | when stamps arrive in order and delays vary by five seconds at most, no window holds more than `limit` admitted requests, under any interleaving and with any offset between the clocks |
| `RateLimitRace.LateStampOverAdmits` | loom/infra/distributed.py:220-221 | for every positive limit and window there is a run with stamps out of order, without any expiry, after which a window holds limit + 1 admissions |
| `RateLimitRace.SlowTransactionOverAdmits` | loom/infra/distributed.py:229 | for every positive limit and window and every delay above five seconds there is a run, all times in order, after which a window holds limit + 1 admissions |
| `VectorSync.MergeRecords` | loom/memory/vector_sync.py:30-41 | the loop over a dictionary gives the merged records, one per id, and the number of conflicts, or an error |
| `VectorSync.ByIdExactly` | loom/memory/vector_sync.py:31 | the dictionary of the local records holds the last record of each id |
| `VectorSync.ConflictsCounted` | loom/memory/vector_sync.py:32-40 | the number reported is the number of remote records that meet a different record of their id |
| `VectorSync.ConflictsExactly` | loom/memory/vector_sync.py:32-40 | if no remote id repeats, that is the number of remote records whose id is known with other contents |
| `VectorSync.MergeIsMax` | loom/memory/vector_sync.py:22-41 | within one organization merging never fails and keeps for each id the greatest record seen by (version, hash) |
| `VectorSync.MergeCommutes` | loom/memory/vector_sync.py:30-41 | merging a into b and b into a give the same records |
| `VectorSync.MergeAssociates` | loom/memory/vector_sync.py:30-41 | merging is associative, whatever order the intermediate results are listed in |
| `VectorSync.MergeIdempotent` | loom/memory/vector_sync.py:38-40 | merging what is known changes nothing and reports no conflict |
| `VectorSync.RefusedExactlyOnClash` | loom/memory/vector_sync.py:23-24 | the merge fails if and only if some id would mix two organizations |
| `VectorSync.StaysOwnExactly` | loom/memory/vector_sync.py:33-37 | an organization's memory stays its own if and only if all remote records are its own |
| `VectorSync.ReplicaInv` | loom/memory/vector_sync.py:30-41 | over any history of writes and syncs a replica holds the maximum of all updates it has received, directly or not |
| `VectorSync.ReplicasConverge` | loom/memory/vector_sync.py:30-41 | replicas that have received the same updates hold the same records, whatever the order and routes |
| `VectorSync.MadeCollisionFree` | loom/memory/vector_sync.py:17-19 | records made with a collision-free digest meet the condition for convergence |
| `UsageLedger.KeysDistinguish` | loom/business/models.py:209-212 | without a bar in run and step ids two events share a key exactly when they agree on run, step, attempt and input |
| `UsageLedger.KeyIdentifiesExactly` | loom/business/models.py:211 | with a hash without bars, the key of an event belongs to its run, step, attempt and input alone if and only if neither id has a bar |
| `UsageLedger.Ledger.LoadExistingEntries` | loom/business/usage_ledger.py:30-50 | a restart restores the replay of the file and its keys |
| `UsageLedger.ReplayExactly` | loom/business/usage_ledger.py:30-50 | the replay holds exactly the first entry of each key in the file |
| `UsageLedger.Ledger.Record` | loom/business/usage_ledger.py:52-97 | an event is accepted exactly when it can be written and neither memory nor a line of the file has its key; then one entry with the event's own fields is appended to both, else nothing changes |
| `UsageLedger.AcceptsExactlyNew` | loom/business/usage_ledger.py:56-72 | an event is accepted exactly when no line of the file carries its key |
| `UsageLedger.MemoryIsReplay` | loom/business/usage_ledger.py:30-97 | after any mix of records, failed writes, restarts and other writers memory equals a replay of the file if and only if no other process logged a new event since the last load; keys are pairwise distinct |
| `UsageLedger.RecordedOnce` | loom/business/usage_ledger.py:70-97 | once recorded, an event is never accepted again |
| `UsageLedger.NothingForgotten` | loom/business/usage_ledger.py:88-97 | later operations only extend the replay of the file |
| `UsageLedger.CountedEntries` | loom/business/usage_ledger.py:30-97 | after any records, failed writes and restarts on an empty file the entries stand, field by field, for the first writable event of each key |
| `Billing.SnapshotsConserve` | loom/business/usage_ledger.py:105-120 | the snapshots of all organizations add up to the usage of the distinct events in the file |
| `Billing.EventsConserve` | loom/business/usage_ledger.py:52-120 | after such a history the snapshots of all organizations add up to the tokens, time and cost of those events |
| `Billing.SnapshotRow` | loom/business/usage_ledger.py:105-125 | what one more row adds to a snapshot: its tokens, time and cost if it is the organization's, and its run if that one is new |
| `Billing.RunMaxRetriesExceeded` | loom/business/billing.py:47-51 | the dictionary of maxima finds exactly the runs with an attempt above three |
| `Billing.ComputeCreditsForRun` | loom/business/billing.py:54-71 | the running sum is the credit function the laws below are about |
| `Billing.CreditsForLedgerEntries` | loom/business/billing.py:74-92 | each run with rows, and no other, gets the credits of its own rows |
| `Billing.CreditsOfRows` | loom/business/billing.py:54-71 | credits do not depend on the order of rows and never fall as rows are added |
| `Billing.LedgerCredits` | loom/business/billing.py:74-92 | the same for every run of a whole ledger |
| `Billing.OneCreditInEnvelope` | loom/business/billing.py:57-71 | a run costs one credit exactly when its retries, tokens and sandbox time are inside the envelope |
| `Billing.CreditsExactly` | loom/business/billing.py:54-71 | the credits of a run from its rows: one, one more for an attempt above three, and the whole blocks of 400,000 tokens and of 2,700 seconds beyond the first |
| `Billing.ManyStepsOneCredit` | loom/business/billing.py:27 | a run of any number of steps can cost one credit |
| `Webhooks.EndIsUnique` | loom/api/webhooks.py:269-284 | a delivery has one possible end, and it is a success exactly when a post within the limit would succeed |
| `Webhooks.Engine.RetryDelivery` | loom/api/webhooks.py:269-284 | after a failed first post: at most max(2, max_retries) posts in all, one when max_retries is not positive; one dead letter unless delivered; r retries sleep base * (2^r - 1) |
| `Webhooks.Engine.Attempt` | loom/api/webhooks.py:322-327 | delivered without a dead letter, or given up at the limit with exactly one |
| `Webhooks.Engine.Dispatch` | loom/api/webhooks.py:190-332 | exactly the active subscriptions of the organization that have the event get one delivery each, in order; with the tasks run in turn the dead letters are exactly the undelivered ones |
| `Webhooks.EveryInterleaving` | loom/api/webhooks.py:322-332 | under every schedule of the concurrent tasks each one that is over has ended as it must, and exactly the failed ones left one dead letter |
| `Webhooks.ScheduleIrrelevant` | loom/api/webhooks.py:322-332 | any two complete schedules end every delivery alike and write the same dead letters in some order |
| `Snapshots.SortSorts` | loom/sandbox/worktree.py:116 | the sort gives an ordered list of the same directories |
| `Snapshots.WalkIsKept` | loom/sandbox/worktree.py:118-127 | the walk over a copy with the shrinking list keeps exactly the unexpired entries among the last `limit`, so never more than the limit |
| `Snapshots.KeepsNewestExactly` | loom/sandbox/worktree.py:100 | what is kept is the newest unexpired entries up to the limit if and only if the limit removes no fresh entry or no expired one comes after |
| `Snapshots.RemovesOldest` | loom/sandbox/worktree.py:118-127 | when modification times agree with name order exactly the oldest max(expired, n - limit) are removed |
| `Snapshots.WorktreeManager.PruneSnapshots` | loom/sandbox/worktree.py:99-131 | what stays, by number in the name and modification time: nothing expired, never more than the limit, fewer than the limit later than any kept one; an unexpired removed one has at least as many others not earlier and is no later than any kept one; with consistent times the oldest max(expired, n - limit) leave; removed ids leave the dictionary |
| `Snapshots.WorktreeManager.CreateSnapshot` | loom/sandbox/worktree.py:149-179 | the same for one directory less than `max_retained_snapshots`, and then the new one; an invalid label fails only after pruning |

## Left out

- HTTP routing, the web and terminal interfaces, Slack and GitHub clients, authentication and the token stores: I/O, or tables that would only add easy members.
- Stream trimming (MAXLEN) is taken never to drop an unacknowledged entry; the expiry of job hashes after seven days and the worker heartbeat hashes are not modelled.
- Stream entries whose job field is not valid JSON: the model's entries carry a job or none.
- Worker.RunWorker.RunForever: runs at most `turns` turns, because a method must terminate; each turn is the whole loop body, and a worker that an exception has ended is not started again.
- TaskGraph.TaskGraph.Run: looks at a paused run at most `polls` times and then returns while still waiting; the state machine itself has no such bound.
- Callbacks, checkpoints, tracing, webhooks and ledger records of the pipeline engine; agents change the data that gates and the decision read, but not the run status itself.
- The lock-free sharing of a TaskGraph by several `run()` calls; approval across separate resumed runs, where the gate of an earlier node is not evaluated again.
- Error signatures are compared as texts: the hash over the first 200 characters is taken to have no collisions; the same holds for deduplication keys and content hashes.
- UnifiedDiff.UndoDiff: asks for one section per file, and so does DiffReader.RevertUndoes; `TwoSectionsExactly` covers two sections of one file, not three or more, nor sections that rename.
- RevertDiff.RevertsExactly: file names with a line boundary of `str.splitlines` inside are not covered, nor are decimal digits outside ASCII in hunk headers, nor text after the last section of a diff.
- Git metadata lines before a section are kept as they are, as the program does; what they mean (modes, renames, index lines) is not modelled.
- FailurePolicy.RetryByWords: lower-casing is modelled for ASCII letters.
- GraphProximity.Proximity: the other parts of the context score (term weights, recency, bug density) are library or floating-point work.
- RateLimiters.RedisLimiter.Allow: the fallback from a Redis error to the in-process list is not modelled; times are exact reals.
- VectorSync.MergeCommutes: holds of the merged records, not of the order in which they are listed.
- UsageLedger.Ledger.Record: row ids, time stamps, model names and sandbox tiers are not part of an entry, and costs are whole micro-dollars, so the rounding of snapshot costs is not modelled.
- Worker.Cluster.XAutoClaim: the server's own bound on how many pending entries one call looks at is not modelled, nor are pending entries whose message was deleted.
- Invoices, tiers, proration and overage prices: small expressions over the totals.
- Webhooks.Engine.Dispatch: runs the deliveries one after the other; `ScheduleIrrelevant` covers the interleavings, with an await only at each post. Payload signing and stored copies of deliveries are left out.
- Snapshots.WorktreeManager.PruneSnapshots: how the number is read from a directory name is not modelled; removal of a directory is taken to succeed, and an exception in the middle of a walk is not modelled; contents of snapshots and git worktrees are not part of this model.
- The rule that triggers an automatic rollback and the monitor around `generate_revert_patch`, the evidence bundler and the sandbox machines.
