# Verified model of the judge's submission, problem and connection logic

This project models the backend of an online judge in Dafny and proves what its services promise together.
`dafny verify dfyconfig.toml` checks it.

Four parts:

- **Submission lifecycle.** The tables `submissions`, `submission_status_history`, `submission_queue`,
  `user_problem_attempt_summary` and `problem_statistics`, and the services that create, lease, mark, requeue, finalize
  and rejudge submissions. `Lifecycle` states every service call as a function of all tables; `LifecycleInvariant`,
  `Rejudge`, `Fencing`, `LeaseOrder`, `EnqueueOrder` and `Stranding` prove what they keep; `SubmissionDatabase` carries
  the statements out in place, with rollback, against those functions.
- **Problems.** Testcases and samples with explicit positions and cached counts, versions and published snapshots.
  `OrderedTable` shows the SQL statements are the plain sequence operations, `ProblemInvariant` what every operation
  does, `ProblemDatabase` carries the operations out in place. `ArchiveNames` and `ArchiveUpload` are the way a testcase
  archive takes from its list of names to the stored testcases.
- **HTTP session.** `SessionProtocol` is one connection under every interleaving of reads, writes, timers and late
  handlers; `HttpSession` the object whose handlers are its steps.
- **Supporting parts.** `RetryLoop`, `WorkerPool`, and the connection pool: `PoolProtocol` is the machine
  of its critical sections under every interleaving, `ConnectionPool` the objects whose calls are its steps.

`System` joins the first two parts into one state machine: any legal interleaving of service calls from an empty
database. `Guarantees` states what its invariant means for a reader.

## How to read the model

- A service call is one atomic transaction. `Err` is a rollback, and `NOW()` is the clock at its start; the clock never
  goes backwards.
- Column defaults, CHECK and UNIQUE constraints are those of `backend/scripts/sql/`. A violated UNIQUE constraint is a
  conflict, a violated CHECK a validation error (`backend/include/db_service/db_service_util.hpp:65-96`).
- An error is the code at the place it arises; the services' translation of repository codes into their own is not applied.
- Lease tokens are fresh: a lease draws one that was never drawn before. The code takes the md5 of random input, the
  clock and the row.
- A user row stands for the rows of `users` and `user_info`.
- The rows other transactions hold locked are a parameter of a lease; ties in its order are broken arbitrarily.
- The judge concludes with a terminal status, as `backend/src/judge_core/policy/judge_policy.cpp:122-143` and
  `backend/src/judge_core/application/submission_lifecycle.cpp:7-21` do.
  `is_valid` does not ask for it, so what finalize does with other statuses is proved beside it, with an example.
- A response has a known length, so it needs the end of the stream exactly when it does not keep the connection alive;
  the read-error and deadline responses never do. `run` is called once. Handlers of one session run on one strand, so
  its steps do not overlap. A completion may also never be delivered.
- A lease of a connection is released and moved by one thread at a time; releasing one and emptying it is one step,
  since no one else can use the lease in between.
- Other clients may commit between the attempts of the retry loop; an attempt that throws is rolled back, also when
  committing throws.

`backend/docs/schema/user_problem_schema.md` lists six failed statuses; the code and the SQL count a seventh,
`build_resource_exceeded`. The model follows the code.

## Model

| member | source | states |
|---|---|---|
| `Guarantees.CountersAreRecounts` | backend/scripts/sql/validate_user_problem_summary_count.sql:1-44 | in every reachable state a summary row exists exactly for attempted pairs and holds the sizes of three explicit sets of submissions: the attempts, the accepted ones, and those with one of the seven failed statuses; a statistics row holds those of a problem and its accepted ones; all CHECK constraints of the counters hold |
| `Guarantees.UserProblemStateExact` | backend/src/db_repository/problem_query_repository.cpp:105-140 | "solved" exactly when the user has an accepted submission; "wrong" exactly when none is accepted and one is wrong_answer, time_limit_exceeded, memory_limit_exceeded, runtime_error, compile_error, build_resource_exceeded or output_exceeded; neither while all are queued, judging or infra_failure |
| `Guarantees.QueuedExactlyWhilePending` | backend/src/db_repository/submission_finalize_repository.cpp:291-368 | a queue row exists exactly while the status is queued or judging, the result columns are then NULL, and a lease always carries an attempt number and a token drawn for it |
| `Guarantees.PendingIsNeverStuck` | backend/src/db_repository/submission_queue_repository.cpp:109-111 | a submission without verdict can always be leased again: at once without a lease, else exactly once its lease has run out |
| `Guarantees.HistoryGrows` | backend/src/db_repository/submission_finalize_repository.cpp:108-138 | over any run a submission keeps its user, problem, pinned version and source; its history is only appended to and stays one unbroken chain from NULL to queued up to the current status |
| `Guarantees.SnapshotsKept` | backend/src/db_repository/problem_snapshot_repository.cpp:130-209 | over any run versions never decrease and every version published so far fetches exactly as before |
| `Guarantees.VersionsPublished` | backend/src/db_repository/problem_snapshot_repository.cpp:52-128 | in every reachable state every version from 1 to the current one fetches, the current one is the live content under positive limits, positions are 1..n and counted exactly, and every testcase row caches the character and line counts of its own input and output |
| `Guarantees.PinResolves` | backend/src/db_repository/problem_snapshot_repository.cpp:113-128 | the pin of every submission resolves in every reachable state: never missing, never inconsistent |
| `Guarantees.PinnedContent` | backend/src/db_repository/submission_queue_repository.cpp:19-43 | through any later edits and rejudges a pin fetches exactly the limits and testcases that were live when the submission was created |
| `System.CommitHolds` | backend/include/db_service/db_service_util.hpp:256-303 | whichever transaction runs, and whether it commits or rolls back, the whole invariant survives |
| `System.RunHolds` | backend/src/db_service/submission_judge_service.cpp:10-117 | every interleaving of the services under a monotone clock keeps the invariant |
| `System.ReachableHolds` | backend/scripts/sql/migrate_submission_schema.sql:52-94 | every state reachable from the empty database satisfies the invariant |
| `System.EditSound` | backend/src/db_service/problem_content_service.cpp:52-305 | every problem edit keeps the problem sound and alters no published version |
| `SubmissionStatus.ToStatus` | backend/src/judge_core/policy/judge_policy.cpp:122-143 | each judge verdict is stored as the status of its name, an invalid output as wrong_answer; all are terminal, and all but accepted count as failed |
| `LifecycleInvariant.CreateExact` | backend/src/db_service/submission_command_service.cpp:11-75 | creation succeeds exactly for a known user whose ban has run out, a non-empty source in cpp, python or java, and an existing problem, with the error for each other case; it then pins the current version, queues at priority 100 with default columns, starts the history, and leaves both counters at their recount |
| `LifecycleInvariant.CreateKeepsInv` | backend/src/db_repository/submission_queue_repository.cpp:10-85 | creation keeps the lifecycle invariant |
| `LifecycleInvariant.LeaseKeepsInv` | backend/src/db_repository/submission_queue_repository.cpp:87-154 | leasing fails only for a non-positive duration and keeps the invariant |
| `LifecycleInvariant.UpdateStatusExact` | backend/src/db_repository/submission_finalize_repository.cpp:169-206 | with a live lease a change to queued or judging always commits and touches no counter, so leaving `accepted_count` alone is right |
| `LifecycleInvariant.RequeueExact` | backend/src/db_service/submission_judge_service.cpp:52-82 | with a live lease requeueing always commits, keeps the invariant, keeps priority, age and attempt number, and makes the row eligible at once |
| `LifecycleInvariant.LiveMeansPending` | backend/src/db_repository/submission_finalize_repository.cpp:30-46 | a live lease implies a submission without verdict and without result |
| `LifecycleInvariant.FinalizeExact` | backend/src/db_service/submission_judge_service.cpp:84-117 | with a live lease and a result in range finalize never meets a guard: the row, its history and the dequeue are committed and both counters end at their recount |
| `LifecycleInvariant.MarkWrites` | backend/src/db_repository/submission_finalize_repository.cpp:169-206 | marking writes the judging status and exactly one history row, without reason |
| `LifecycleInvariant.RequeueWrites` | backend/src/db_repository/submission_finalize_repository.cpp:108-138 | requeueing writes the queued status, exactly one history row with the given reason, and the freed queue row |
| `LifecycleInvariant.FinalizeWrites` | backend/src/db_repository/submission_finalize_repository.cpp:317-350 | finalizing writes status and result, exactly one history row with the given reason, and deletes the queue row |
| `LifecycleInvariant.AcceptanceCounted` | backend/src/db_repository/problem_statistics_repository.cpp:79-102 | the accepted counter always has its row and, against its CHECK, room for one more, and ends at the recount |
| `LifecycleInvariant.FinalizeNeedsVerdict` | backend/src/dto/submission_internal_dto.cpp:21-26 | the invariant survives finalize if and only if the requested status is a verdict, which the request check does not ask |
| `Stranding.FinalizeWithoutVerdictStrands` | backend/src/dto/submission_internal_dto.cpp:21-26 | a finalize into queued or judging commits, and in every state any later run reaches the submission still has that status and no queue row: never eligible, no lease held on it, and a rejudge is a conflict |
| `Stranding.StrandedForever` | backend/src/db_repository/submission_finalize_repository.cpp:208-226 | without verdict and without queue row, no event of any run touches a submission again, the other services and the rejudge loop included |
| `LifecycleInvariant.StrandedExample` | backend/src/dto/submission_internal_dto.cpp:21-26 | a concrete database and request for which finalize breaks the invariant |
| `Counters.InsertKeepsSummaries` | backend/src/db_repository/user_problem_summary_repository.cpp:98-126 | counting a new submission keeps the attempt summary equal to its recount |
| `Counters.InsertKeepsStatistics` | backend/src/db_repository/problem_statistics_repository.cpp:54-77 | counting a new submission keeps the problem statistics equal to their recount |
| `Counters.TransitionKeepsSummaries` | backend/src/db_repository/user_problem_summary_repository.cpp:240-307 | from exact summaries no guard of a status transition fires, for any pair of statuses, and the row ends at its recount |
| `Counters.OwnRow` | backend/src/db_repository/user_problem_summary_repository.cpp:138-237 | the row of a stored submission exists and has exactly the room its guards ask for, so their conflict branches are dead |
| `Counters.StatisticsAfterUpdate` | backend/src/db_repository/problem_statistics_repository.cpp:79-127 | the accepted count must change by exactly what a status change moves into or out of accepted |
| `Counters.GuardsAreTheCheck` | backend/src/db_repository/user_problem_summary_repository.cpp:138-237 | on any table whose rows satisfy their CHECK, a transition between classes commits exactly when the moved row satisfies it too, and is a conflict otherwise |
| `Counters.CountGuardsAreTheCheck` | backend/src/db_repository/problem_statistics_repository.cpp:79-127 | on any such statistics row the accepted count is raised exactly below the submission count and lowered exactly above zero |
| `Recount.RoomForVerdict` | backend/src/db_repository/user_problem_summary_repository.cpp:138-151 | accepted, failed and undecided submissions are disjoint attempts, so an undecided one leaves room for its verdict |
| `Recount.RoomForAccepted` | backend/scripts/sql/migrate_problem_schema.sql:25-33 | a submission not accepted leaves the accepted count below the submission count |
| `Recount.CountAfterUpdate` | backend/src/db_repository/user_problem_summary_repository.cpp:240-307 | changing one row changes the size of a group by that row alone |
| `Rejudge.RejudgeOneExact` | backend/src/db_repository/submission_finalize_repository.cpp:208-289 | single rejudge succeeds exactly on an existing submission that is neither queued nor judging; an undecided one is a conflict, a missing one not found, a non-positive id invalid |
| `Rejudge.AcceptedCountGuardHolds` | backend/src/db_repository/problem_statistics_repository.cpp:104-127 | the `accepted_count > 0` guard never fires for an accepted submission |
| `Rejudge.RejudgeKeepsInv` | backend/src/db_repository/submission_finalize_repository.cpp:208-289 | a rejudge keeps the lifecycle invariant |
| `Rejudge.NeverEnqueuedTwice` | backend/src/db_repository/submission_queue_repository.cpp:57-85 | on any tables, sound or not, no committed creation or rejudge enqueues a submission that has a queue row |
| `Rejudge.RejudgeEachExact` | backend/src/db_service/submission_command_service.cpp:110-119 | the loop commits for any list of distinct decided submissions and resets exactly those |
| `Rejudge.RejudgeProblemExact` | backend/src/db_service/submission_command_service.cpp:94-124 | from every sound state a problem rejudge commits, resets exactly its accepted and wrong submissions to queued at rejudge priority with cleared results, and leaves every other row alone |
| `Rejudge.RejudgeProblemEmpties` | backend/src/db_service/submission_command_service.cpp:94-124 | afterwards the problem has no accepted or wrong submission and its accepted count is 0 |
| `Rejudge.RejudgeProblemIsLocal` | backend/src/db_service/submission_command_service.cpp:94-124 | every other problem keeps its statistics row and all its summary rows |
| `Fencing.OneHolder` | backend/src/db_repository/submission_finalize_repository.cpp:30-46 | at most one attempt number and token can act on a submission |
| `Fencing.StaleConflicts` | backend/src/db_repository/submission_finalize_repository.cpp:48-55 | without the live lease mark, requeue, release and finalize are conflicts, or invalid references when they name no lease, and change nothing |
| `Fencing.HolderSucceeds` | backend/src/db_service/submission_judge_service.cpp:10-117 | with it mark and requeue commit, and finalize commits exactly when the score is 0..100 and time and memory are not negative; each writes its own status and adds exactly one history row with the status found and its own reason, requeue frees the queue row and finalize deletes it |
| `Fencing.DeadForever` | backend/src/db_repository/submission_queue_repository.cpp:115-128 | a lease that cannot act never acts again in any run, even when a rejudge recreates the row and restarts its attempt numbers |
| `Fencing.DeadLeaseConflicts` | backend/src/db_repository/submission_finalize_repository.cpp:48-55 | however a lease came to be unable to act, in every later state mark, requeue, release and finalize with it are conflicts and change nothing |
| `Fencing.FinalizeKills` | backend/src/db_repository/submission_finalize_repository.cpp:347-350 | finalizing ends the lease used |
| `Fencing.RequeueKills` | backend/src/db_repository/submission_queue_repository.cpp:168-193 | giving a submission back ends the lease used |
| `Fencing.ExpiryKills` | backend/src/db_repository/submission_finalize_repository.cpp:43-44 | reaching the deadline ends a lease |
| `Fencing.LeaseSupersedes` | backend/src/db_repository/submission_queue_repository.cpp:115-128 | a new lease ends every earlier one of the row and can itself act |
| `Fencing.LeaseHandsOut` | backend/src/db_repository/submission_queue_repository.cpp:128-153 | a lease returns the language and source submitted, the pinned version, the next attempt number and the stored deadline, and changes nothing but its own row |
| `Fencing.FinalizeOnce` | backend/src/db_repository/submission_finalize_repository.cpp:291-368 | repeating a committed finalize is a conflict in every later state |
| `Fencing.EnqueuesBalance` | backend/src/db_repository/submission_queue_repository.cpp:57-85 | over any run committed finalizes plus the row still queued equal the enqueues: each enqueue ends in at most one finalize and none is lost |
| `LeaseOrder.CandidateExists` | backend/src/db_repository/submission_queue_repository.cpp:97-114 | the candidate query finds a row exactly when an eligible one is not locked |
| `LeaseOrder.CandidateComesFirst` | backend/src/db_repository/submission_queue_repository.cpp:112-112 | what a lease takes has no lower priority than anything waiting unlocked, and at equal priority it is no younger |
| `EnqueueOrder.ArrivalPlaces` | backend/src/db_repository/submission_queue_repository.cpp:57-85 | over any run a waiting row has the place its last enqueue gave it, by creation or by rejudge; leasing and requeueing keep it |
| `EnqueueOrder.NoRejudgeBeforeNormal` | backend/src/db_repository/submission_queue_repository.cpp:112-112 | over any run: while a submission enqueued by its creation waits, eligible and unlocked, no lease takes one enqueued by a rejudge, and of two enqueued alike none takes the later |
| `EnqueueOrder.WaitingHasArrived` | backend/src/db_repository/submission_queue_repository.cpp:57-85 | in every run from the empty database each waiting submission was enqueued by a creation or a rejudge of that run |
| `LeaseOrder.RoundServesLeader` | backend/src/db_repository/submission_queue_repository.cpp:97-128 | a lease-and-finalize round takes the row that leads all ready rows and removes exactly it |
| `LeaseOrder.RoundsServeInOrder` | backend/src/db_repository/submission_queue_repository.cpp:97-128 | with no new arrivals any number of rounds serves distinct ready rows in priority and age order |
| `LeaseOrder.RoundsDecide` | backend/src/db_service/submission_judge_service.cpp:84-117 | every served submission ends with the verdict and result its own round gave |
| `LeaseOrder.RoundsDrain` | backend/src/db_repository/submission_queue_repository.cpp:97-128 | the number of ready rows bounds the rounds; exactly that many empty the queue of ready rows, and after fewer a next lease finds one |
| `SubmissionDatabase.Database.constructor` | backend/scripts/sql/migrate_submission_schema.sql:52-94 | the empty tables are sound |
| `SubmissionDatabase.Database.ApplyStatusTransition` | backend/src/db_repository/user_problem_summary_repository.cpp:240-307 | leaves the class of the old status before entering that of the new one, and does nothing within a class |
| `SubmissionDatabase.Database.FindCandidate` | backend/src/db_repository/submission_queue_repository.cpp:97-114 | returns an eligible unlocked row no other such row precedes, or none when there is none |
| `SubmissionDatabase.Database.Lease` | backend/src/db_service/submission_judge_service.cpp:30-50 | leasing takes the best unlocked candidate, commits the lease and keeps the invariant |
| `SubmissionDatabase.Database.Create` | backend/src/db_service/submission_command_service.cpp:11-75 | commits the new submission or changes nothing, and keeps the invariant |
| `SubmissionDatabase.Database.RejudgeSubmissionById` | backend/src/db_service/submission_command_service.cpp:77-92 | commits exactly on a decided submission, else changes nothing, and answers with the id, the queued status and the pinned version |
| `SubmissionDatabase.Database.RejudgeProblemStored` | backend/src/db_service/submission_command_service.cpp:101-121 | the loop over the selected submissions equals the recursive specification |
| `SubmissionDatabase.Database.RejudgeAllOf` | backend/src/db_service/submission_command_service.cpp:94-124 | all or nothing, and always all from a sound database |
| `SubmissionDatabase.Database.Mark` | backend/src/db_service/submission_judge_service.cpp:10-28 | commits exactly with the live lease, else changes nothing; adds one history row without reason, and keeps the invariant |
| `SubmissionDatabase.Database.RequeueImmediately` | backend/src/db_service/submission_judge_service.cpp:52-82 | commits both halves exactly with the live lease, else changes nothing; adds one history row with the given reason, and keeps the invariant |
| `SubmissionDatabase.Database.FinalizeSubmission` | backend/src/db_service/submission_judge_service.cpp:84-117 | commits all of it exactly with the live lease and a result in range, else changes nothing; adds one history row with the given reason; a sound database stays sound exactly when it fails or the status is a verdict |
| `OrderedTable.InsertAppends` | backend/src/db_repository/testcase_mutation_repository.cpp:31-99 | inserting at the increased count appends |
| `OrderedTable.SetUpdates` | backend/src/db_repository/testcase_mutation_repository.cpp:127-163 | updating a position succeeds exactly for 1..n and replaces that element |
| `OrderedTable.DeleteRemoves` | backend/src/db_repository/testcase_mutation_repository.cpp:165-220 | deleting and shifting succeeds exactly for 1..n and is sequence removal |
| `OrderedTable.MoveExact` | backend/src/db_repository/testcase_order_repository.cpp:9-83 | a move succeeds exactly when source and target lie in 1..n, with the error for each other case; rows and contents are then the sequence with the element taken out and reinserted |
| `OrderedTable.MoveBackRestores` | backend/src/db_repository/testcase_order_repository.cpp:9-83 | moving there and back restores the table, ids included |
| `OrderedTable.MoveBackSeq` | backend/src/db_repository/testcase_order_repository.cpp:9-83 | on sequences, removing and reinserting in reverse is the inverse |
| `OrderedTable.BetweenSize` | backend/src/db_repository/testcase_order_repository.cpp:75-80 | the affected-row check sees one row per existing position of the range |
| `OrderedTable.MovedAt` | backend/src/db_repository/testcase_order_repository.cpp:53-62 | the CASE expression sends every element where removal and reinsertion put it |
| `TextCounts.LineCountCounts` | backend/src/db_repository/testcase_mutation_repository.cpp:46-54 | the cached line count is the number of newline-separated pieces, zero for the empty text |
| `TextCounts.MeasuredCounts` | backend/src/db_repository/testcase_mutation_repository.cpp:46-54 | the cached columns of a testcase row are the character and line counts of the text they are named after |
| `ProblemInvariant.FetchComplete` | backend/src/db_repository/problem_snapshot_repository.cpp:52-110 | a complete snapshot fetches in order and never reports the inconsistency |
| `ProblemInvariant.FetchChecksCount` | backend/src/db_repository/problem_snapshot_repository.cpp:104-108 | on any tables a stored version is inconsistent exactly when its rows are not as many as its manifest says |
| `ProblemInvariant.BumpPublishes` | backend/src/db_service/problem_version_publish_service.cpp:22-44 | bumping adds exactly one version holding the live content, changes no other content and no older version |
| `ProblemInvariant.PublishedIsLive` | backend/src/db_repository/problem_snapshot_repository.cpp:130-209 | a snapshot just copied fetches as the live content |
| `ProblemInvariant.CreateProblemSound` | backend/src/db_service/problem_command_service.cpp:22-82 | a new problem starts at version 1 with 256 MB, 1000 ms, an empty statement and an empty published snapshot, and fails only for an empty title |
| `ProblemInvariant.UpdateProblemSound` | backend/src/db_service/problem_command_service.cpp:84-120 | renaming changes nothing but the title and publishes one version |
| `ProblemInvariant.SetLimitsSound` | backend/src/db_service/problem_content_service.cpp:52-85 | exactly positive limits are stored and published, everything else stays |
| `ProblemInvariant.SetStatementSound` | backend/src/db_repository/problem_content_repository.cpp:70-105 | texts are stored, an empty note as NULL, both cached counts stay |
| `ProblemInvariant.CreateSampleSound` | backend/src/db_service/problem_content_service.cpp:139-173 | a sample is appended without a bump and the published snapshot is still the live content |
| `ProblemInvariant.SetSampleSound` | backend/src/db_service/problem_content_service.cpp:208-254 | exactly an existing sample can be replaced |
| `ProblemInvariant.DeleteSampleSound` | backend/src/db_service/problem_content_service.cpp:256-305 | exactly the last sample is removed, and only an empty list fails |
| `ProblemInvariant.AppendCaseSound` | backend/src/db_repository/testcase_mutation_repository.cpp:31-99 | increasing the count and inserting at it appends |
| `ProblemInvariant.CreateTestcaseSound` | backend/src/db_service/testcase_item_mutation_service.cpp:11-64 | a testcase is appended, its row with the character and line counts of its input and output, and one version published |
| `ProblemInvariant.SetTestcaseSound` | backend/src/db_service/testcase_item_mutation_service.cpp:66-110 | exactly an existing testcase can be replaced, its row with the character and line counts of the new input and output |
| `ProblemInvariant.MoveTestcaseSound` | backend/src/db_service/testcase_item_mutation_service.cpp:112-180 | the move service: exact success condition with the error for each other case, sequence meaning, and a bump only for a real move |
| `ProblemInvariant.MoveThereAndBack` | backend/src/db_service/testcase_item_mutation_service.cpp:112-180 | moving a testcase and moving it back restores the testcases, republishes the original content and alters no version between |
| `ProblemInvariant.DeleteTestcaseSound` | backend/src/db_service/testcase_item_mutation_service.cpp:182-216 | removal from the sequence, with the cached count |
| `ProblemInvariant.CountsStayNonNegative` | backend/src/db_repository/testcase_mutation_repository.cpp:102-125 | on any tables a committed deletion takes one off a cached count that was positive |
| `ProblemInvariant.DeleteAllSound` | backend/src/db_service/testcase_bulk_mutation_service.cpp:35-87 | all testcases go; without any nothing is published |
| `ProblemInvariant.AppendCasesSound` | backend/src/db_service/testcase_bulk_mutation_service.cpp:129-157 | the loop appends the given list |
| `ProblemInvariant.ReplaceSound` | backend/src/db_service/testcase_bulk_mutation_service.cpp:89-190 | exactly the given list in order, for up to 999 testcases; skipping the clear is right because the count is then zero |
| `ProblemDatabase.ProblemStore.PublishCurrentSnapshot` | backend/src/db_repository/problem_snapshot_repository.cpp:130-209 | manifest upsert and replacement of the testcase rows of the current version |
| `ProblemDatabase.ProblemStore.IncreaseVersionAndPublish` | backend/src/db_service/problem_version_publish_service.cpp:22-44 | version bump, then publication |
| `ProblemDatabase.ProblemStore.Fetch` | backend/src/db_repository/problem_snapshot_repository.cpp:52-128 | the row loop and the count check return what the specification says, with every error |
| `ProblemDatabase.ProblemStore.UpdateTitle` | backend/src/db_service/problem_command_service.cpp:84-120 | commits and returns the new version, or changes nothing; keeps the invariant |
| `ProblemDatabase.ProblemStore.UpdateLimits` | backend/src/db_service/problem_content_service.cpp:52-85 | commits and returns the new version, or changes nothing; keeps the invariant |
| `ProblemDatabase.ProblemStore.UpdateStatement` | backend/src/db_service/problem_content_service.cpp:104-137 | commits and returns the new version, or changes nothing; keeps the invariant |
| `ProblemDatabase.ProblemStore.AddSample` | backend/src/db_service/problem_content_service.cpp:139-173 | always commits on a sound problem, at the same version |
| `ProblemDatabase.ProblemStore.UpdateSample` | backend/src/db_service/problem_content_service.cpp:208-254 | commits exactly for an existing sample and returns the new version |
| `ProblemDatabase.ProblemStore.DropSample` | backend/src/db_service/problem_content_service.cpp:256-305 | commits exactly when there is a sample and returns the new version |
| `ProblemDatabase.ProblemStore.AddTestcase` | backend/src/db_service/testcase_item_mutation_service.cpp:11-64 | always commits on a sound problem, appends and returns the new version |
| `ProblemDatabase.ProblemStore.UpdateTestcase` | backend/src/db_service/testcase_item_mutation_service.cpp:66-110 | commits exactly for an existing testcase and returns the new version |
| `ProblemDatabase.ProblemStore.RotateOrders` | backend/src/db_repository/testcase_order_repository.cpp:9-83 | the rotation is reinsertion at the target, and a range with a missing row is a conflict |
| `ProblemDatabase.ProblemStore.MoveCase` | backend/src/db_service/testcase_item_mutation_service.cpp:112-180 | commits exactly between existing positions; the cases are then the moved sequence; returns the version it leaves, and a failure changes nothing |
| `ProblemDatabase.ProblemStore.DropTestcase` | backend/src/db_service/testcase_item_mutation_service.cpp:182-216 | commits exactly for an existing position, removes it and returns the new version |
| `ProblemDatabase.ProblemStore.DropAllTestcases` | backend/src/db_service/testcase_bulk_mutation_service.cpp:35-87 | always commits on a sound problem, leaves no testcase and returns the version it leaves |
| `ProblemDatabase.ProblemStore.AppendAll` | backend/src/db_service/testcase_bulk_mutation_service.cpp:129-157 | the loop equals the recursive specification and returns the last count |
| `ProblemDatabase.ProblemStore.ReplaceAll` | backend/src/db_service/testcase_bulk_mutation_service.cpp:89-190 | commits exactly for at most 999 testcases, leaves exactly those, and returns their number and the version |
| `ProblemDatabase.CreateStored` | backend/src/db_service/problem_command_service.cpp:22-82 | creates a sound problem with its first snapshot, or nothing for an empty title |
| `SessionProtocol.RunHolds` | backend/src/http_core/http_session.cpp:126-461 | every interleaving of completions keeps the session invariant |
| `SessionProtocol.OneOperationPending` | backend/src/http_core/http_session.cpp:126-379 | in every reachable state at most one read or write is pending, and only the kind its phase is about |
| `SessionProtocol.WireIsSound` | backend/src/http_core/http_session.cpp:126-379 | reads and answers alternate, one of each per generation, every answer for the request of its generation or for none read, and every answer but the last is a handler response that keeps the connection |
| `SessionProtocol.NothingAfterClose` | backend/src/http_core/http_session.cpp:428-461 | after close nothing is started, whatever still completes |
| `SessionProtocol.ClosingResponseIsLast` | backend/src/http_core/http_session.cpp:346-352 | a started response the session makes itself, or whose handler asked for the end of stream, is the last operation for ever |
| `SessionProtocol.DeadlineAnswersAndEnds` | backend/src/http_core/http_session.cpp:187-210 | an expired deadline on an unanswered request starts the 503 for that request and nothing ever follows it |
| `SessionProtocol.CurrentTimerMeans` | backend/src/http_core/http_session.cpp:157-214 | a current keep-alive expiry means waiting for a follow-up request, a current deadline means awaiting or writing with a request present, and the session is not closing |
| `SessionProtocol.TimerGuardsNeverFire` | backend/src/http_core/http_session.cpp:162-202 | the closing, phase, kind and request checks behind the match are never needed |
| `SessionProtocol.StaleTimerNeverActs` | backend/src/http_core/http_session.cpp:51-73 | an expiry that is no longer current never acts in any later state |
| `SessionProtocol.ReachableWaitsTimed` | backend/src/http_core/http_session.cpp:381-421 | with the timeouts configured nothing waits untimed: an unanswered request has its deadline armed, a connection reading a follow-up its idle timeout; a timeout not configured is never armed |
| `SessionProtocol.ReadLeadsOn` | backend/src/http_core/http_session.cpp:230-302 | end of stream closes, a malformed request is answered once and a received one handed to its handler; other failures start nothing |
| `SessionProtocol.WriteLeadsOn` | backend/src/http_core/http_session.cpp:346-354 | a completed write is that of the last response: written, it closes the session exactly for responses the session makes itself and for a handler that asked for the end of stream, and starts the read of the next generation otherwise; a failed one starts nothing |
| `SessionProtocol.AwaitedIsAnswered` | backend/src/http_core/http_session.cpp:305-318 | the awaited handler can still answer, and its own answer is the one sent |
| `SessionProtocol.AnswerDecidesConnection` | backend/src/http_core/http_session.cpp:346-366 | from every reachable awaiting session the handler answer starts the one pending write, whose completion closes the session if and only if the answer needs the end of stream; otherwise the operations end with that write and the next read |
| `SessionProtocol.DeadlineResponseCloses` | backend/src/http_core/http_session.cpp:346-352 | the 503 of an expired deadline closes the session once it is written |
| `SessionProtocol.ReadErrorResponseCloses` | backend/src/http_core/http_session.cpp:346-352 | the 400 of an unreadable request closes the session once it is written |
| `SessionProtocol.LateHandlerIsIgnored` | backend/src/http_core/http_session.cpp:309-315 | a handler whose request was already answered, or whose session closes, is ignored for ever |
| `SessionProtocol.TimerHolds` | backend/src/http_core/http_session.cpp:157-214 | a timer callback keeps the session invariant |
| `SessionProtocol.ReadHolds` | backend/src/http_core/http_session.cpp:216-303 | a read completion keeps the session invariant |
| `SessionProtocol.HandlerHolds` | backend/src/http_core/http_session.cpp:305-318 | a handler response keeps the session invariant |
| `SessionProtocol.WriteCompletionHolds` | backend/src/http_core/http_session.cpp:320-355 | a write completion keeps the session invariant |
| `HttpSession.Connection.constructor` | backend/src/http_core/http_session.cpp:91-94 | a new session is sound |
| `HttpSession.Connection.BeginRead` | backend/src/http_core/http_session.cpp:126-155 | one read under the next generation, with the idle timeout armed only for a follow-up and if configured; nothing while closing |
| `HttpSession.Connection.SendResponse` | backend/src/http_core/http_session.cpp:357-379 | while not closing, exactly one write for the given generation, pending as a closing one exactly for responses the session makes itself and for a handler response that needs the end of stream |
| `HttpSession.Connection.CloseConnection` | backend/src/http_core/http_session.cpp:428-438 | closing is done once, drops the request and cancels the timer |
| `HttpSession.Connection.Start` | backend/src/http_core/http_session.cpp:111-118 | `run` starts the first read |
| `HttpSession.Connection.OnTimerFired` | backend/src/http_core/http_session.cpp:157-214 | is the timer step of the protocol and keeps its invariant |
| `HttpSession.Connection.OnReadDone` | backend/src/http_core/http_session.cpp:216-303 | is the read step of the protocol and keeps its invariant |
| `HttpSession.Connection.OnHandlerDone` | backend/src/http_core/http_session.cpp:305-318 | is the handler step of the protocol and keeps its invariant |
| `HttpSession.Connection.OnWriteDone` | backend/src/http_core/http_session.cpp:320-355 | is the write step of the protocol and keeps its invariant |
| `ArchiveNames.FormatDecodes` | backend/src/common/testcase_uploader.cpp:25-37 | decoding a formatted order gives it back |
| `ArchiveNames.DecodeFormats` | backend/src/common/testcase_uploader.cpp:33-37 | a well-formed name is the formatted name of the order it decodes to |
| `ArchiveNames.FormatOrder` | backend/src/common/testcase_uploader.cpp:25-31 | zero padding gives exactly the three digits of an order |
| `ArchiveNames.StoreName` | backend/src/common/testcase_uploader.cpp:117-149 | the loop body collects exactly one more name or names a defect of the listing |
| `ArchiveNames.Collect` | backend/src/common/testcase_uploader.cpp:112-149 | the loop collects distinct well-formed names into their pairs |
| `ArchiveNames.ValidateContinuous` | backend/src/common/testcase_uploader.cpp:68-89 | the ascending walk accepts exactly pairs counting up from 1 |
| `ArchiveNames.Parse` | backend/src/common/testcase_uploader.cpp:112-159 | a listing is accepted exactly when, as a multiset, it is {001.in, 001.out, ..., n.in, n.out} for some n in 0..999; order i then maps to its own pair, and a rejection names a defect the listing has |
| `ArchiveNames.CompleteMeans` | backend/src/common/testcase_uploader.cpp:112-159 | complete means duplicate-free and exactly the expected names |
| `ArchiveNames.CompleteIsNotRejected` | backend/src/common/testcase_uploader.cpp:68-149 | no complete listing has any of the defects reported |
| `ArchiveNames.Load` | backend/src/common/testcase_uploader.cpp:161-193 | the contents come in ascending order of the map, and the first unreadable file is reported |
| `ArchiveNames.LoadArchive` | backend/src/common/testcase_uploader.cpp:161-193 | the i-th testcase comes from file pair i |
| `ArchiveUpload.ReadArchive` | backend/src/common/testcase_zip_service.cpp:96-135 | an archive is rejected exactly when its listing is not complete up to some n, with a defect the listing has; else its testcases are the file pairs 1..n in order, or a listed file cannot be read |
| `ArchiveUpload.Upload` | backend/src/http_handler/testcase_bulk_command_handler.cpp:27-56 | on a sound problem every readable archive is stored, none being too long: the testcases are then its file pairs in order and their number is returned with the new version; any other archive changes nothing |
| `RetryLoop.Tables.WithRetry` | backend/include/db_service/db_service_util.hpp:256-303 | at most `retry_count` attempts; the effect is applied exactly once on success and not at all on an error; every attempt but the last failed with one of the five retryable codes; before the last attempt an interruption, a serialization failure or a deadlock always leads to another, and a lost connection unless its reconnect failed for good; the trailing return is unreachable for a positive count |
| `RetryLoop.RetryOperation` | backend/include/db_service/db_service_util.hpp:128-165 | repeats exactly while the operation fails with one of the five retryable codes and attempts are left, and returns the last result, never a reconnect error |
| `RetryLoop.GoesOnMeans` | backend/src/error/db_error.cpp:21-32 | an attempt is followed by another exactly when its failure, and that of a reconnect after a lost connection, is retryable, and attempts are left |
| `RetryLoop.MapServiceError` | backend/include/db_service/db_service_util.hpp:65-96 | invalid arguments and violated checks become a validation error, a violated unique constraint a conflict, an internal error internal, and all six others unavailable |
| `WorkerPool.NextHolds` | backend/include/common/worker_pool.hpp:28-79 | every atomic step keeps the counter equal to the reserved, not yet started tasks |
| `WorkerPool.RunHolds` | backend/include/common/worker_pool.hpp:28-79 | under every interleaving the counter equals the reserved places not yet started, never exceeds the limit and never goes below zero |
| `WorkerPool.QuietCounterIsWaiting` | backend/include/common/worker_pool.hpp:81-83 | with no thread inside `post` the counter is the number of waiting tasks |
| `WorkerPool.PosterMoves` | backend/include/common/worker_pool.hpp:41-51 | a thread in the loop always has a step: it gives up exactly when the value read is at the limit, else it tries, and a try with the current value can succeed |
| `WorkerPool.Counter.TryReserve` | backend/include/common/worker_pool.hpp:41-51 | one round of the compare-exchange loop, spurious failure included |
| `WorkerPool.Counter.Submit` | backend/include/common/worker_pool.hpp:61-78 | the task takes the reservation over, or a throwing post gives it back |
| `WorkerPool.Counter.BeginTask` | backend/include/common/worker_pool.hpp:55-60 | a starting task gives its place back without wrapping |
| `PoolProtocol.RunHolds` | backend/src/common/db_connection_pool.cpp:183-207 | every interleaving of threads acquiring, reconnecting and giving back with owners releasing and moving leases keeps the pool invariant |
| `PoolProtocol.SlotHasOnePlace` | backend/src/common/db_connection_pool.cpp:9-59 | in every reachable state a slot is free, once and without owner, or in use with exactly one live lease or acquiring thread: no two live leases ever share a slot |
| `PoolProtocol.SlotsAccounted` | backend/src/common/db_connection_pool.cpp:9-59 | in every reachable state free slots, live leases and acquiring threads add up to all slots |
| `PoolProtocol.OthersKeepSlot` | backend/src/common/db_connection_pool.cpp:94-96 | an acquiring thread or a live lease keeps its slot through anything others do |
| `PoolProtocol.FailedReconnectFreesItsSlot` | backend/src/common/db_connection_pool.cpp:191-204 | a failed reconnect makes exactly the slot its thread took free again, whatever others took, released or moved during the reconnect, and touches no other owner |
| `PoolProtocol.TakeHolds` | backend/src/common/db_connection_pool.cpp:38-41 | the front of the free queue is a slot not in use |
| `PoolProtocol.GiveHolds` | backend/src/common/db_connection_pool.cpp:44-53 | the guard of the release never fires for an owner, and its slot becomes free once |
| `PoolProtocol.PassHolds` | backend/src/common/db_connection_pool.cpp:68-84 | a slot passing to another owner stays in use with exactly one |
| `ConnectionPool.Create` | backend/src/common/db_connection_pool.cpp:128-152 | all slots connected and free, or the first failure; size 0 is invalid |
| `ConnectionPool.State.AcquireSlot` | backend/src/common/db_connection_pool.cpp:20-42 | the first critical section of `acquire`: the front slot for this thread, or a timeout exactly while none is free |
| `ConnectionPool.State.AcquireSlotFor` | backend/src/common/db_connection_pool.cpp:158-166 | a negative timeout is invalid and takes nothing |
| `ConnectionPool.State.FinishAcquire` | backend/src/common/db_connection_pool.cpp:197-206 | after the reconnect: a new lease owning exactly the slot taken, or that slot given back |
| `ConnectionPool.State.ReleaseSlot` | backend/src/common/db_connection_pool.cpp:44-53 | gives back the slot of its owner; a slot not in use is left alone |
| `ConnectionPool.Lease.Release` | backend/src/common/db_connection_pool.cpp:118-126 | frees the slot of a live lease, once, and touches no other owner |
| `ConnectionPool.Lease.TakeOver` | backend/src/common/db_connection_pool.cpp:68-72 | the slot of the other lease changes its owner, and no other owner of the pool is touched |
| `ConnectionPool.Lease.MoveFrom` | backend/src/common/db_connection_pool.cpp:74-84 | an own slot is given up before the other is taken over, in one pool or two; self-assignment changes nothing and no third lease is touched |
| `ConnectionPool.NoSharedSlot` | backend/src/common/db_connection_pool.cpp:94-96 | two live leases of a pool object name different slots |

## Left out

- Integer widths: `attempt_no`, versions, counters and generations are unbounded, so wrap-around after 2^31 or 2^63 steps is not modelled.
- `delete_problem` and the cascades of its foreign keys.
- Isolation levels, row locks and serialization failures inside the database: a transaction is one step, a failing one an attempt of the retry loop.
- Ids: submission ids come from one counter that rolls back with its transaction, testcase and sample ids from one counter per problem; gaps and the shared sequences are not modelled.
- `pg_notify`, timestamps other than the queue's, and the queue-wait metric of a lease.
- Per-user status statistics, login, permissions and every ban other than the submission ban checked at creation.
- Query listings, paging, serializers, routing and error texts; of the error mapping only the codes the modelled paths return.
- The sandbox, compilation, output comparison and the caches of the judge: it is an environment that picks a verdict.
- HTTP byte parsing, response bodies and headers, real time, and the error codes a socket close can log.
- Zip extraction and temporary files: an archive is its list of names and a map from name to content.
- `with_service_write_transaction`, `with_write_transaction` and the read transactions: single attempts without a loop.
- WorkerPool: the compare-exchange loop is modelled as steps of threads rather than as a loop, because other threads act between its rounds; that it ends is not claimed, since the weak exchange may fail for ever.
- ConnectionPool.State.AcquireSlot: waiting on the condition variable is not modelled; a call without timeout starts when a slot is free.
- ProblemDatabase.ProblemStore: the tables of one problem; how calls for a missing problem fail is stated on values in `System`.
- SubmissionDatabase.Database.PersistTransition: its own check of the id repeats that of its callers and is left to them.
