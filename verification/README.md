# Oracle Lab: queue, log and lineage in Dafny

Oracle Lab keeps one append-only event log and derives everything else from it. This project models the
parts of it that carry the hard guarantees and proves those guarantees for every input and every run.

* **Job queue** (`Job*.dfy`). Rows plus a log of full snapshots. `JobContract` holds the row, the event and
  the table of statuses; `JobHistory` the automaton of one job's events and what follows from it alone;
  `JobProjection` the guards and replay; `JobQueueSpec` each operation as a function from state to state;
  `JobQueueInvariant`, `JobQueueScheduling`, `JobQueueFairness`, `JobQueueFifo`, `JobQueueIdentity` and
  `JobQueueRecovery` the results over whole runs; `JobQueueOutcome` and `JobQueueEffects` what a caller gets from
  each operation, in the columns of the rows alone; `JobQueueScenarios` short runs to the states where a
  guarantee ends; `JobQueueService` the mutable queue, whose every method is proved to be the step of the
  same name. `ProjectionManagement` applies a projection once per event and rebuilds it.
* **Bundle import** (`Bundle*.dfy`). `BundleLineage` checks a bundle's branches; `BundleOrder` and `BundleSort`
  order its events by dependency (Kahn's algorithm with a sorted ready list); `BundleQuarantine` is the two-pass
  choice of worker jobs to cancel; `BundleImport` what is appended and when the rebuild accepts it;
  `BundleOutcome` what becomes of each row, `BundleEffects` the same in the fields of the bundle;
  `BundleImporter` the whole operation; and `BundleScenarios` follows three bundles through it.
* **Branches** (`Ancestry`, `BranchHistory`, `BranchVisibility`, `Branching`). What a branch sees: the
  ancestor chain of its fork event and its own events.
* **Lineage filters** (`LineageGraph`, `LineageRecords`, `LineageFields`, `MaterialLineage`, `ProjectionLineage`,
  `ExportFilters`). Three walks over citations that are meant to decide the same thing, and the composition of
  the export filters.
* **Automation** (`Automation`, `AutomationOutcome`, `Dispatcher`). The depth and budget counters that bound the
  tool loop, and what a dispatch leaves in the log.
* **Identifiers** (`Ulid`, `Ids`). Monotonic ULIDs: the encoding follows the "Encoding" and "Monotonicity"
  sections of the ULID specification and Crockford's Base32 alphabet, except that ordinary generation bumps
  the millisecond when the random part runs out, as the code does.

`Common` and `Sorting` hold value types and the stable ascending sort shared by all of them.

The contracts of the operations say twice what they do: as a step of the state machine that the results over
runs are about, and in the fields a caller reads, without the functions the step is computed by.

Instants are integers in microseconds. The clock, the generated identifiers and the random bytes are inputs,
so every result holds for arbitrary clock readings, backwards ones included.

## Where the code falls short of its own words

Each of these is proved to happen, by a run or an input that reaches it, and to happen exactly under a stated
condition.

* *Quarantine.* The importer picks the snapshot with the greatest `updated_at`, replay keeps the one with the
  greatest `(created_at, id)`. If a dead-lettered worker job was retried while the caller's clock had fallen
  back, the bundle of that queue is accepted, nothing is quarantined and the rebuilt job is pending
  (`RetryUnderSlowClockStaysArmed`). `ImportDisarmsIff` gives the exact condition on the local log, the bundle
  and the audit time, and `NewJobsAreDisarmedIff` reads it off the bundle for jobs new to the local log; logs of
  a queue without retries always meet it.
* *Finished jobs.* The same disagreement the other way round needs no retry: a job completed while the clock
  had fallen back is cancelled by the import (`CompletedJobIsCancelled`), exactly when its snapshot of greatest
  `updated_at` is runnable (`FinishedRowStaysIff`).
* *Local jobs.* The importer compares event, session and branch identities, not job identities, so a snapshot
  or a cancellation may overwrite a local job (`LocalJobIsReplaced`): exactly when the cancellation, if the job
  is quarantined, else its newest imported snapshot, is newer than the newest local one and differs from it
  (`LocalJobChangesIff`). A job that no imported event names stays (`UnnamedJobsStay`).
* *Synthetic labels.* The exporter and the projections call an event synthetic if any label says so; the
  material module lets the first label decide. `SyntheticTestsAgreeIff` says on which stores they agree.
* *Dispatch.* It is idempotent for every event except a tool result that was adapted: dispatched again, that
  one records a stop for its own repetition (`RedispatchIsIdempotentIff`).
* *Archive recovery.* The recovery lease is bounded only until its first heartbeat: a run in which it is
  requeued is `HeartbeatBreaksTheBound`, and `RecoveryInEveryRun` says that without one its expiry is final
  and with one the attempt budget alone decides.
* *FIFO branches.* A retry can reopen an earlier job after a later one has started (`RetryBreaksTheOrder`). A
  run is in order exactly as long as no enqueue and no retry admits such an overtaken job (`RunOrderlyIff`).
* *Provider limits.* Lowering a limit below the leases held breaks the cap (`NewLimitBreaksTheCap`), nothing
  else does (`ProviderCapsHoldIff`), and until they drain their number never grows (`LeasesDrainToTheLimit`).
* *Identifiers.* When the last millisecond of 48 bits overflows, the generator keeps the state it computed and
  every later ordinary call fails (`OverflowHappens`, `OverflowIff`, `OverflowIsForever`). The ordinary and
  explicit modes can produce the same identifier (`OrdinaryAndExplicitCanCoincide`): a call repeats an earlier
  number exactly when the stretch of numbers the other mode has generated at its millisecond covers the one it
  is about to generate (`RepeatsIff`), and never if explicit timestamps avoid the milliseconds held
  (`DisjointTimestampsNeverClash`).

## Model

| member | source | states |
|---|---|---|
| `JobHistory.LatestIsGreatest` | src/oracle_lab/jobs.py:706-720 | the look-back finds the job's event that is greatest by `(created_at, id)` |
| `JobHistory.LatestIsLast` | src/oracle_lab/jobs.py:811-817 | because a job's timestamps strictly increase, its latest event by timestamp is the one appended last |
| `JobHistory.PathIncreasing` | src/oracle_lab/jobs.py:811-817 | creation times strictly increase along a job's events |
| `JobHistory.PathShape` | src/oracle_lab/_job_contract.py:80-89 | every snapshot carries a status its event type allows, a well-formed row (leased exactly with a deadline and a worker, cancel requested exactly when cancelled), and its job's one context and correlation |
| `JobHistory.PathKeepsTask` | src/oracle_lab/jobs.py:778-837 | what identifies and places a job, its key included, is the same in all its snapshots |
| `JobHistory.EveryEventIsAnEdge` | src/oracle_lab/jobs.py:250-390 | a job's events are a path of the lifecycle automaton from `pending` |
| `JobHistory.CompletedOrCancelledIsLast` | src/oracle_lab/jobs.py:366-390 | nothing follows completion or cancellation |
| `JobHistory.BetweenLeases` | src/oracle_lab/jobs.py:315-364 | between consecutive leases there are heartbeats, exactly one failure or expiry, and a retry exactly when that dead-lettered the job |
| `JobHistory.AttemptAccounting` | src/oracle_lab/jobs.py:210-225 | attempts are the leases since the last reset and stay within budget plus grants plus retries, strictly while pending |
| `JobHistory.LeasesWithoutRetry` | src/oracle_lab/jobs.py:613-627 | a job never retried is leased at most once more than `max_attempts` |
| `JobHistory.RecoveryOnce` | src/oracle_lab/jobs.py:738-757 | at most one recovery grant and one recovery lease in a job's whole life, resets included |
| `JobHistory.RecoveryLeaseSpendsGrant` | src/oracle_lab/jobs.py:227-241 | a recovery lease directly follows the grant and carries its record |
| `JobHistory.ExpiredRecoveryIsFinal` | src/oracle_lab/jobs.py:609-622 | a recovery lease that expires with no heartbeat since is dead-lettered whatever its attempts |
| `JobHistory.HeartbeatForgetsRecovery` | src/oracle_lab/jobs.py:722-736 | after a heartbeat an expired recovery lease is requeued like any other, within the attempt budget |
| `JobQueueRecovery.RecoveryLeasesWereAllowed` | src/oracle_lab/jobs.py:227-241 | every recovery lease in any run was taken by a lease call that allowed recovery, for the worker of that call |
| `JobQueueRecovery.RecoveryInEveryRun` | src/oracle_lab/jobs.py:609-676 | in every reachable history: a recovery lease directly spends its grant, its expiry is final, and after a heartbeat the attempt budget alone decides |
| `JobQueueScenarios.HeartbeatBreaksTheBound` | src/oracle_lab/jobs.py:609-676 | under any configuration a run reaches a recovery lease that was extended once, expired and was requeued |
| `JobProjection.ReplayKeepsLast` | src/oracle_lab/_job_projection.py:65-117 | a replay that succeeds keeps, for each job, the snapshot of its last event |
| `JobProjection.ReplayRefuses` | src/oracle_lab/_job_projection.py:23-117 | replay fails exactly when some event fails a guard or finds its idempotency key held by another job |
| `JobProjection.FreeKeysIff` | src/oracle_lab/store.py:394-395 | where jobs keep their keys, no event finds its key taken, in whatever order, exactly when no two jobs share one |
| `JobProjection.ListedLast` | src/oracle_lab/store.py:2155-2211 | in the store's listing a job's last event is the one with the greatest key |
| `JobProjection.ListingEndsLikeLog` | src/oracle_lab/store.py:2205-2211 | a well-formed history ends with the same event in the listing as in the log |
| `JobQueueSpec.Ranked` | src/oracle_lab/jobs.py:185-193 | candidates come once each, in the order of the query |
| `JobQueueSpec.RankedByColumns` | src/oracle_lab/jobs.py:185-193 | priorities fall along that order, availability rises among equals, and the id among equals of both |
| `JobQueueInvariant.RecordedPasses` | src/oracle_lab/jobs.py:778-837 | every event `_record_transition` writes passes the status, context, causation and correlation guards |
| `JobQueueInvariant.RecordKeeps` | src/oracle_lab/jobs.py:778-837 | recording a legal transition keeps table, log and guards coupled |
| `JobQueueInvariant.EnqueueKeeps` | src/oracle_lab/jobs.py:65-145 | enqueueing keeps the invariant, idempotency keys unique |
| `JobQueueInvariant.RequeueAllEffect` | src/oracle_lab/jobs.py:595-677 | expiry keeps the invariant and its outcome does not depend on the scan order |
| `JobQueueInvariant.LookBack` | src/oracle_lab/jobs.py:722-776 | what the look-back through the log reports is decided by the job's own history |
| `JobQueueInvariant.StepKeeps` | src/oracle_lab/jobs.py:65-477 | every operation keeps the invariant |
| `JobQueueInvariant.RunKeeps` | src/oracle_lab/jobs.py:65-477 | the invariant holds in every state of every run |
| `JobQueueInvariant.LogKeepsKeys` | src/oracle_lab/jobs.py:100-105 | in a queue log every job keeps its idempotency key and no two jobs share one |
| `JobQueueInvariant.LiveTableEqualsReplay` | src/oracle_lab/_job_projection.py:23-117 | in every reachable state, under any clock readings, replaying the log in listing order gives exactly the live table, with no guard and no key in the way |
| `JobQueueInvariant.EveryJobIsAccounted` | src/oracle_lab/jobs.py:210-225 | every reachable row is well formed, its attempts are accounted for, and recovery happened at most once |
| `JobQueueScheduling.LeaseSafe` | src/oracle_lab/jobs.py:174-243 | one lease call keeps branch exclusion, and adds no lease to a provider at or above its limit, with no assumption on the clock |
| `JobQueueScheduling.SerializedJobsNeverOverlap` | src/oracle_lab/jobs.py:556-593 | in every reachable state at most one serialized job of a session and branch is leased |
| `JobQueueScheduling.ProviderCapsHold` | src/oracle_lab/jobs.py:541-554 | in every reachable state no provider's leases exceed its limit, as long as no limit is set below the leases held |
| `JobQueueScheduling.ProviderCapsHoldIff` | src/oracle_lab/jobs.py:535-554 | the caps hold in every state of a run exactly when no operation sets a limit below the leases held |
| `JobQueueScheduling.LeasesDrainToTheLimit` | src/oracle_lab/jobs.py:541-554 | below the leases held, a new limit only waits: they never grow again until they fit |
| `JobQueueScenarios.NewLimitBreaksTheCap` | src/oracle_lab/jobs.py:535-539 | under any configuration a run reaches two leases of a provider whose limit is one |
| `JobQueueScheduling.LimitKeepsCapsIff` | src/oracle_lab/jobs.py:535-539 | setting a limit keeps the caps exactly when it is refused or not below the leases held |
| `JobQueueScheduling.RequeueIsQuiet` | src/oracle_lab/jobs.py:602-608 | after the scan every remaining lease is active at `now`, and none is new |
| `JobQueueFairness.LeaseIsFair` | src/oracle_lab/jobs.py:174-243 | `lease` is work-conserving and inverts no priority: what it leaves behind is still blocked afterwards; what it takes was due, not excluded, and spends a grant only when allowed |
| `JobQueueFairness.StillBlocked` | src/oracle_lab/jobs.py:541-593 | leasing one job never unblocks another |
| `JobQueueFairness.LeaseEffect` | src/oracle_lab/jobs.py:194-243 | exactly the returned jobs move from pending to a lease of this call, and each refused candidate is accounted for |
| `JobQueueOutcome.LeaseOutcome` | src/oracle_lab/jobs.py:174-243 | what a lease call hands out is due, of the kinds asked for, not excluded, within its provider's limit and alone on a serialized branch, with nothing earlier there unfinished, and spends a recovery grant only with permission; what could still run was left only because the call was full, with jobs of higher priority, or equal and available earlier, or equal in both and of smaller id |
| `JobQueueFifo.SerializedBranchIsFifo` | src/oracle_lab/jobs.py:556-593 | once a serialized job is leased in an ordered run, every earlier one of its branch is finished, and is never touched again unless it is itself retried |
| `JobQueueFifo.FinishedStays` | src/oracle_lab/jobs.py:366-390 | the row and the history of a finished job change only by its own retry |
| `JobQueueFifo.RetryKeepsOrderIff` | src/oracle_lab/jobs.py:449-477 | a retry keeps that order exactly when no later serialized job of the branch has started |
| `JobQueueFifo.EnqueueKeepsOrderIff` | src/oracle_lab/jobs.py:65-145 | so does an enqueue that adds a job |
| `JobQueueFifo.StepKeepsOrderlyIff` | src/oracle_lab/jobs.py:65-477 | no other operation can break it |
| `JobQueueFifo.RunOrderlyIff` | src/oracle_lab/jobs.py:556-593 | a started serialized job has only finished predecessors, in every state up to a point of a run, exactly when no operation so far has admitted an overtaken job |
| `JobQueueScenarios.RetryBreaksTheOrder` | src/oracle_lab/jobs.py:449-477 | under any configuration a run reaches an earlier serialized job pending while a later one of its branch is leased |
| `JobQueueIdentity.JobsAndEventsStay` | src/oracle_lab/jobs.py:65-477 | over any run the log only grows, and no job disappears or changes identity |
| `JobQueueIdentity.KeyNamesOneJob` | src/oracle_lab/jobs.py:100-105 | an idempotency key names one job for ever: enqueueing under it again, at any later time, returns that job and changes nothing |
| `JobQueueEffects.EnqueueOutcome` | src/oracle_lab/jobs.py:65-145 | a new job carries every argument of its call, is available when asked or else now, and each refusal has its reason; a call under a key that is held returns that job and changes nothing |
| `JobQueueEffects.KeyAnswersAlike` | src/oracle_lab/jobs.py:100-105 | whatever an enqueue under a key answers, any later enqueue under it in the run answers with the same job and changes nothing |
| `JobQueueEffects.FailOutcome` | src/oracle_lab/jobs.py:315-364 | a failure reopens the job, after its backoff, exactly when it is retryable and attempts are left, and dead-letters it otherwise |
| `JobQueueEffects.RetryOutcome` | src/oracle_lab/jobs.py:449-477 | a retry reopens a dead letter at once, with its attempts at zero exactly when reset |
| `JobQueueEffects.HeartbeatOutcome` | src/oracle_lab/jobs.py:250-284 | a heartbeat of the holder moves the deadline and nothing else |
| `JobQueueEffects.CompleteOutcome` | src/oracle_lab/jobs.py:286-313 | a completion by the holder closes the lease and keeps attempts and task |
| `JobQueueEffects.CancelOutcome` | src/oracle_lab/jobs.py:366-390 | a cancellation ends a pending or leased job and leaves any other as it is |
| `JobQueueIdentity.LeaseRunsItsTerm` | src/oracle_lab/jobs.py:172-243 | a job handed out belongs to that worker and expires exactly when its term is over |
| `JobQueueIdentity.HeartbeatRestartsTheTerm` | src/oracle_lab/jobs.py:263-284 | a heartbeat of the owner restarts the term, even of a lease past it |
| `JobQueueIdentity.ExpiredLeaseIsLost` | src/oracle_lab/jobs.py:595-677 | once an expired lease has been scanned, whoever held it can no longer complete, fail or extend it |
| `JobQueueIdentity.BackoffDoubles` | src/oracle_lab/jobs.py:330-337 | the retry delay starts at the base and doubles up to the cap |
| `JobQueueIdentity.RetryWaitsOutItsBackoff` | src/oracle_lab/jobs.py:315-364 | a failed job that may be retried is pending, and no lease before its backoff has passed takes it |
| `JobQueueService.JobQueue.constructor` | src/oracle_lab/jobs.py:38-63 | an empty queue with positive limits is a valid start |
| `JobQueueService.JobQueue.Project` | src/oracle_lab/_job_projection.py:23-117 | accepts exactly a snapshot that suits its event, source, place and the other keys, and then writes its row; each refusal in the source's order |
| `JobQueueService.JobQueue.Append` | src/oracle_lab/store.py:960-1028 | an event with known references that its projection accepts is appended and projected; any other is refused with its reason and changes nothing |
| `JobQueueService.JobQueue.RecordTransition` | src/oracle_lab/jobs.py:778-837 | the snapshot event is appended and accepted, and projecting it rewrites the same row |
| `JobQueueService.JobQueue.Enqueue` | src/oracle_lab/jobs.py:65-145 | is the enqueue step, keeps the queue valid, and stores what the caller asked for, column by column, or refuses for a stated reason |
| `JobQueueService.JobQueue.Heartbeat` | src/oracle_lab/jobs.py:250-284 | is the heartbeat step; the holder moves the deadline, a non-owner changes nothing |
| `JobQueueService.JobQueue.Complete` | src/oracle_lab/jobs.py:286-313 | is the completion step, in columns too; a non-owner changes nothing |
| `JobQueueService.JobQueue.Fail` | src/oracle_lab/jobs.py:315-364 | is the failure step; pending after the backoff exactly when retryable with attempts left, else dead-lettered; a non-owner changes nothing |
| `JobQueueService.JobQueue.Cancel` | src/oracle_lab/jobs.py:366-390 | is the cancellation step, in columns too; finished jobs stay as they are |
| `JobQueueService.JobQueue.RetryDeadLetter` | src/oracle_lab/jobs.py:449-477 | is the retry step; only dead letters are reopened, with attempts reset exactly when asked for |
| `JobQueueService.JobQueue.SetProviderLimit` | src/oracle_lab/jobs.py:535-539 | sets a positive limit and refuses any other |
| `JobQueueService.JobQueue.RequeueRow` | src/oracle_lab/jobs.py:609-676 | dead-letters an expired recovery lease, else grants recovery once, else requeues within the budget |
| `JobQueueService.JobQueue.RequeueExpired` | src/oracle_lab/jobs.py:595-677 | takes back exactly the leases that ran out, once each: dead-lettered after their one recovery, pending for a recovery asked for and never granted before, else as their attempts decide; leaves every other row |
| `JobQueueService.JobQueue.Consider` | src/oracle_lab/jobs.py:195-242 | one turn of the scheduling loop |
| `JobQueueService.JobQueue.LeaseCandidates` | src/oracle_lab/jobs.py:194-243 | the loop over the candidates, stopping at the limit, is the fold over all of them |
| `JobQueueService.JobQueue.Lease` | src/oracle_lab/jobs.py:147-243 | is the lease step for some order of the expiry scan; and in columns, what it hands out, in which order of preference, and what it leaves |
| `JobQueueService.JobQueue.IsArchiveRecoveryLease` | src/oracle_lab/jobs.py:422-447 | true exactly for a live lease of the given worker whose latest event is the recovery lease |
| `JobQueueService.JobQueue.Rebuild` | src/oracle_lab/projections.py:1487-1498 | clearing the table and replaying the log brings back the same table |
| `ProjectionManagement.ProjectingTwiceIsOnce` | src/oracle_lab/projections.py:1459-1485 | projecting the same events again changes nothing |
| `ProjectionManagement.FreshPassIsReplay` | src/oracle_lab/projections.py:1459-1485 | a pass over fresh events is their replay up to the first one refused |
| `ProjectionManagement.ProjectionManager.Project` | src/oracle_lab/projections.py:1459-1485 | applies each event at most once and stops at a refusal, by a guard or a taken key, keeping what came before |
| `ProjectionManagement.ProjectionManager.Rebuild` | src/oracle_lab/projections.py:1487-1498 | succeeds exactly when every logged event passes the guards and finds its key free in listing order, and then holds the replay of the listing; a refusal leaves the replay up to the event refused |
| `BundleSort.TopologicalEvents` | src/oracle_lab/bundle_import.py:721-766 | succeeds exactly on distinct, resolved, same-session, acyclic events, with the canonical permutation: every reference of an event is to one before it, and among those that could come next the one created first comes; reports a cycle exactly when there is one, naming exactly the events stuck on each other |
| `BundleSort.Link` | src/oracle_lab/bundle_import.py:708-745 | one event's references are registered exactly when they are to other events of the bundle in its session |
| `BundleSort.ReadReferences` | src/oracle_lab/bundle_import.py:730-745 | builds both maps exactly when every reference resolves |
| `BundleSort.Release` | src/oracle_lab/bundle_import.py:756-760 | emitting an event strikes it off its dependants and readies exactly those with nothing outstanding |
| `BundleSort.Emit` | src/oracle_lab/bundle_import.py:747-766 | the loop emits everything, in canonical order, exactly when there is no cycle |
| `BundleOrder.OrderIgnoresInputOrder` | src/oracle_lab/bundle_import.py:747-761 | the order does not depend on the order the events were read in |
| `BundleOrder.RefersWithinIff` | src/oracle_lab/bundle_import.py:708-745 | resolved means, on the fields, that payload, metadata, parent and causation refer to other events of the bundle in the same session |
| `BundleOrder.CanonicalOnFields` | src/oracle_lab/bundle_import.py:747-761 | canonical means that an event follows all it refers to and precedes, by creation time and identifier, whatever could have come instead |
| `BundleOrder.SortedMeansAcyclic` | src/oracle_lab/bundle_import.py:763-765 | a complete order rules out a cycle |
| `BundleOrder.StuckMeansCyclic` | src/oracle_lab/bundle_import.py:763-765 | a leftover whose members each depend inside it contains a cycle |
| `BundleLineage.CheckLineage` | src/oracle_lab/bundle_import.py:289-332 | accepts exactly the bundles with distinct identifiers, one session root on a branch, one fork for each other branch and none for the root's, and no parent on another branch but the one a fork names |
| `BundleLineage.ForksCount` | src/oracle_lab/bundle_import.py:303-314 | counting forks decides whether exactly one event, or none, introduces a branch |
| `BundleLineage.BranchIsLeftOnce` | src/oracle_lab/bundle_import.py:305-332 | in such a bundle parents lead out of each branch at one event only, and never out of the root's |
| `BundleQuarantine.LatestRunnable` | src/oracle_lab/bundle_import.py:1350-1383 | first pass: the newest runnable snapshot of each worker job |
| `BundleQuarantine.LatestOfAll` | src/oracle_lab/bundle_import.py:1385-1405 | second pass: the newest snapshot of any status of each of those jobs |
| `BundleQuarantine.PendingWorkerJobs` | src/oracle_lab/bundle_import.py:1347-1411 | selects, in stamp order and once per job, exactly the worker jobs whose newest snapshot over all lifecycle events is runnable |
| `BundleImport.LatestCreation` | src/oracle_lab/bundle_import.py:1533-1536 | the creation time of the newest imported event |
| `BundleImport.QuarantineEvents` | src/oracle_lab/bundle_import.py:1414-1453 | one cancellation per selected job, a microsecond apart after the audit event, under the identifiers generated |
| `BundleImport.CancellationPasses` | src/oracle_lab/_job_projection.py:23-64 | a cancellation passes the guards whenever the snapshot it cancels does |
| `BundleImport.CancellationIsATransition` | src/oracle_lab/bundle_import.py:1421-1452 | it is an edge of the lifecycle automaton that keeps the job's identity, filed under the snapshot and caused by the audit event |
| `BundleImport.CancelsWhat` | src/oracle_lab/bundle_import.py:1414-1453 | which cancellations are appended, when and under which identifiers, is decided by the bundle, the audit time and the generator |
| `BundleEffects.QuarantineIs` | src/oracle_lab/bundle_import.py:1347-1453 | on the fields: quarantined are the jobs whose last updated snapshot can run and of which some snapshot that can run is named by a worker task or is of a worker kind; each cancellation keeps the task and ends it |
| `BundleEffects.AuditTimeIs` | src/oracle_lab/bundle_import.py:1533-1536 | the audit event is created at the later of now and a microsecond after the newest imported event |
| `BundleImport.RebuildAcceptsIff` | src/oracle_lab/bundle_import.py:1604-1605 | the rebuild accepts the log exactly when the local and imported events pass the guards and each event of the listing finds its key free |
| `BundleImport.KeptKeysRebuildIff` | src/oracle_lab/_job_projection.py:65-117 | if jobs keep their keys, exactly when the local and imported events pass the guards and no two of their jobs share a key |
| `BundleImport.AdditionsAreReferenced` | src/oracle_lab/store.py:987-993 | the audit event and the cancellations refer to events appended before them |
| `BundleImport.RebuiltRow` | src/oracle_lab/_job_projection.py:65-117 | the rebuilt row of a job is its snapshot with the greatest `(created_at, id)` |
| `BundleImport.NewestDecides` | src/oracle_lab/_job_projection.py:65-117 | the snapshot of a job's newest event is its rebuilt row |
| `BundleEffects.RebuiltHoldsNewest` | src/oracle_lab/_job_projection.py:65-117 | the rebuilt table holds, for each job of the log and no other, the snapshot created last, by identifier among equals |
| `BundleOutcome.QuarantinedRow` | src/oracle_lab/bundle_import.py:1439-1440 | a quarantined job is rebuilt as cancelled, unless its newest local event is newer than the cancellation: then it stays as it was |
| `BundleOutcome.StaysArmedIff` | src/oracle_lab/bundle_import.py:1370-1405 | the same, job by job |
| `BundleOutcome.ImportDisarmsIff` | src/oracle_lab/bundle_import.py:1370-1383 | no imported worker job is left runnable exactly when each whose newest local or imported snapshot could run is quarantined at a later time; all of it read off the local log, the bundle, the audit time and the generator |
| `BundleEffects.NothingCanRunIff` | src/oracle_lab/bundle_import.py:1370-1405 | nothing of the bundle that works for a task can run afterwards exactly when each such job ends later than its newest local or imported snapshot |
| `BundleOutcome.NewJobsAreDisarmedIff` | src/oracle_lab/bundle_import.py:1370-1383 | for jobs new to the local log that is: no job finished by update order is runnable by creation order |
| `BundleOutcome.FinishedRowStaysIff` | src/oracle_lab/bundle_import.py:1385-1405 | a new job completed or dead-lettered by creation order is rebuilt so, and not as cancelled, exactly when its snapshot last by update order is not runnable or it is no worker job |
| `BundleOutcome.AgreeingOrdersDisarm` | src/oracle_lab/bundle_import.py:1370-1383 | this holds when the two orders agree job by job |
| `BundleOutcome.QueueLogsWithoutRetriesDisarm` | src/oracle_lab/bundle_import.py:1347-1411 | it holds for any log a queue wrote without retries, whatever the clocks read |
| `JobQueueScenarios.SlowRetry` | src/oracle_lab/jobs.py:449-477 | a run opens a session, dead-letters a worker job at 100 and retries it when the clock shows 50, so that the retry is created after the failure and updated before it |
| `BundleScenarios.RetryUnderSlowClockStaysArmed` | src/oracle_lab/bundle_import.py:1370-1405 | the bundle of that run passes the checks of its lineage, session and references, is imported with no cancellation, and its rebuilt worker job is pending |
| `JobQueueScenarios.SlowCompletion` | src/oracle_lab/jobs.py:286-313 | a run leases a worker job at 100 and completes it when the clock shows 50 |
| `BundleScenarios.CompletedJobIsCancelled` | src/oracle_lab/bundle_import.py:1385-1453 | the bundle of that run passes the same checks and is imported with a cancellation, which makes the completed job a cancelled one |
| `BundleOutcome.UnnamedJobsStay` | src/oracle_lab/bundle_import.py:1604-1605 | a job that no imported event names has the row it had before, or none |
| `BundleOutcome.LocalJobChangesIff` | src/oracle_lab/bundle_import.py:1561-1605 | an import changes a local job exactly when the cancellation due to it, or else its newest imported snapshot, is newer than the newest local one and differs from it |
| `BundleScenarios.LocalJobIsReplaced` | src/oracle_lab/bundle_import.py:1561-1605 | the bundle of another lab's session, with a job of the same identifier, passes the same checks, collides with nothing and replaces the local worker job |
| `BundleImporter.CheckContext` | src/oracle_lab/bundle_import.py:1474-1481 | refuses exactly a bundle not of one session, then one with an event on no branch |
| `BundleImporter.OrderedEvents` | src/oracle_lab/bundle_import.py:1473-1513 | refuses exactly an unsound lineage, then a bundle not of one session, then dangling references or a cycle, else gives the canonical order |
| `BundleImporter.Tip` | src/oracle_lab/bundle_import.py:1526-1530 | the newest event by `(created_at, id)`, of a branch or of all |
| `BundleImporter.AuditEvent` | src/oracle_lab/bundle_import.py:1516-1555 | the audit event follows the newest event of the declared branch, or of the bundle, and is refused only for an unknown branch |
| `BundleImporter.FindsCollision` | src/oracle_lab/bundle_import.py:1561-1592 | finds a local event with an imported identity, session or branch exactly when there is one |
| `BundleImporter.FindsRepeatedId` | src/oracle_lab/store.py:969-1015 | finds two events with one identifier exactly when there are any |
| `BundleImporter.ImportedAreReferenced` | src/oracle_lab/store.py:987-993 | in the sorted order every imported event refers to events before it |
| `BundleImporter.ImportBundle` | src/oracle_lab/bundle_import.py:1462-1605 | a successful import appends a permutation of a sound bundle that shares no identity, session or branch with the log, the audit event and the quarantine, all of whose references the store finds; its tasks are those the bundle names; the rebuilt table holds the newest snapshots, and nothing that works for a task can run exactly under the condition above; unsound lineage, mixed sessions and bad references are each refused exactly when present |
| `Ancestry.Climb` | src/oracle_lab/branching.py:66-76 | the climb finds the whole chain, a missing row or a row met twice; in a rooted table it finds the chain of every known row |
| `Ancestry.ChainStep` | src/oracle_lab/branching.py:108-124 | a row's chain is its parent's chain and the row |
| `Ancestry.ChainOfAncestor` | src/oracle_lab/branching.py:108-124 | an ancestor's chain is where the chain begins |
| `Ancestry.ChainRepeatsNothing` | src/oracle_lab/branching.py:111-115 | in a rooted table no chain meets a row twice |
| `BranchHistory.RowAfter` | src/oracle_lab/projections.py:249-311 | a branch row keeps its origin, and a branch gets a row only by an event of its own |
| `BranchHistory.StepKeeps` | src/oracle_lab/branching.py:167-235 | each step that parents its event on a visible one, or forks, keeps the invariant |
| `BranchHistory.RunKeeps` | src/oracle_lab/branching.py:133-289 | the invariant holds after any sequence of such steps |
| `BranchVisibility.VisibleIsParentClosed` | src/oracle_lab/branching.py:81-94 | the parent of a visible event is visible |
| `BranchVisibility.AncestryIsVisible` | src/oracle_lab/branching.py:108-124 | so is its whole ancestry |
| `BranchVisibility.VisibleStaysOnLineage` | src/oracle_lab/branching.py:96-105 | the ancestry of a visible event stays on the branch's lineage |
| `BranchVisibility.VisibleIsInheritedThenOwn` | src/oracle_lab/branching.py:81-92 | inherited and own events never overlap, so the list is one after the other with nothing dropped |
| `BranchVisibility.BranchIsolation` | src/oracle_lab/branching.py:59-94 | no sequence of steps on other branches changes what a branch shows |
| `BranchVisibility.OwnEventsKeepTheInheritedPrefix` | src/oracle_lab/branching.py:81-92 | an event of the branch itself adds only itself and leaves the inherited prefix |
| `BranchVisibility.NewestIsLast` | src/oracle_lab/branching.py:85-92 | the newest event of a branch is shown last |
| `BranchVisibility.ForkShowsItsOrigin` | src/oracle_lab/branching.py:167-210 | a new fork shows exactly the ancestry of its source event and then itself |
| `Branching.ParentChain` | src/oracle_lab/branching.py:108-124 | the root-first chain, or the missing event, or the event met twice |
| `Branching.VisibleEventIds` | src/oracle_lab/branching.py:51-105 | on any tables, an `until` answer is that event's chain within the climbed lineage; in a sound state the query answers with the inherited chain and then the branch's own events by creation time and identifier, or with the chain, and fails only for an unknown branch or an event that is not visible |
| `Branching.UntilIsOnLineage` | src/oracle_lab/branching.py:96-105 | in a sound state no visible event escapes the lineage |
| `Branching.LastShownIsTip` | src/oracle_lab/branching.py:81-92 | the last event shown is the greatest of the branch's own by creation time and identifier, or else the event forked from |
| `Branching.BranchService.CreateSession` | src/oracle_lab/branching.py:133-165 | appends a root event, and a root branch if there is none, exactly when the session is new |
| `Branching.BranchService.Fork` | src/oracle_lab/branching.py:167-210 | each refusal in the source's order, else one new row and a branch that shows its origin and itself |
| `Branching.BranchService.Checkpoint` | src/oracle_lab/branching.py:212-235 | appends exactly one event after the tip of an existing branch, in its session, and changes no row |
| `Branching.BranchService.MergeMetadata` | src/oracle_lab/branching.py:237-267 | appends exactly one event, after the target's tip, between branches of one session, and changes no row and nothing the source shows |
| `Branching.BranchService.ArchiveBranch` | src/oracle_lab/branching.py:269-289 | marks exactly that branch archived, leaves every other row as it was, and only appends its event |
| `LineageGraph.LineageIsLeast` | src/oracle_lab/exporting.py:203-222 | reaching a seed through citations is the least set that holds the seeds and whatever cites a member, also with cycles and dangling citations |
| `LineageGraph.LineageWithinSurvivors` | src/oracle_lab/exporting.py:610-610 | filtering the survivors of one lineage drops exactly the rest of the other |
| `LineageGraph.MoreSeedsAgreeIff` | src/oracle_lab/exporting.py:180-200 | more seeds reach no further exactly when each extra one already reaches another |
| `LineageRecords.ReferencesAgree` | src/oracle_lab/material.py:39-58 | the three reference lists differ only by the event itself, empty strings, order and repeats |
| `LineageFields.ReachesIsLeadsTo` | src/oracle_lab/exporting.py:158-178 | reaching a seed in the graph is being led, by mentions in envelope and payload, to a record that carries the mark |
| `LineageFields.WorkerLineageIs` | src/oracle_lab/material.py:91-126 | in a store, worker lineage is being led to a record whose kind, actor or artifact origin is a worker's |
| `LineageFields.OriginLineageIs` | src/oracle_lab/material.py:23-36 | and an origin is found exactly when one is led to a record whose payload, or if that is silent whose metadata, is labelled so |
| `LineageRecords.LabelReadingsAgreeIff` | src/oracle_lab/material.py:23-36 | first-label and any-label readings agree on an event unless an earlier label hides a synthetic one |
| `LineageRecords.SyntheticTestsAgreeIff` | src/oracle_lab/material.py:88-89 | the transitive tests agree on a store exactly when each event that hides a synthetic label also cites one that shows it |
| `LineageRecords.TwiceLabelledSplitsTheTests` | src/oracle_lab/exporting.py:123-131 | an event labelled oracle output in its payload and fixture in its metadata splits them |
| `MaterialLineage.Expand` | src/oracle_lab/material.py:121-125 | queues each known cited event not seen, so that what is seen stays covered |
| `MaterialLineage.IsWorkerLineage` | src/oracle_lab/material.py:103-126 | the breadth-first walk decides worker lineage; it gives up only when more events than the limit can be reached from the start, and never denies in that case |
| `MaterialLineage.MaterialOrigins` | src/oracle_lab/material.py:61-85 | returns exactly the explicit labels in the cited ancestry, or unknown alone; gives up exactly when more events than the limit can be reached |
| `MaterialLineage.IsSyntheticLineage` | src/oracle_lab/material.py:88-89 | decides whether the ancestry holds an explicit synthetic label; gives up exactly when more events than the limit can be reached |
| `ProjectionLineage.StoredEventHasWorkerLineage` | src/oracle_lab/projections.py:171-202 | the stack walk decides worker lineage of a stored or unknown id; it gives up only when more than 10,000 ids are mentioned along the way from it, and never denies in that case |
| `ProjectionLineage.WorkerLineage` | src/oracle_lab/projections.py:205-219 | the marker or any reference decides worker lineage of an event being projected; it gives up only when one of its references does |
| `ProjectionLineage.LineageComesFromReferences` | src/oracle_lab/projections.py:205-219 | an event has worker lineage in no other way |
| `ExportFilters.Pass` | src/oracle_lab/exporting.py:213-221 | one pass adds only events that must be dropped and reports no change only at a fixpoint |
| `ExportFilters.Closure` | src/oracle_lab/exporting.py:180-222 | the repeat-until-unchanged loop ends with exactly the lineage of the seeds |
| `ExportFilters.WithoutSyntheticLineage` | src/oracle_lab/exporting.py:180-200 | keeps, in order, what neither is nor reaches a synthetic or unlabelled output |
| `ExportFilters.WithoutWorkerLineage` | src/oracle_lab/exporting.py:203-222 | keeps, in order, what neither is nor reaches a worker artifact |
| `ExportFilters.CompositionIsUnion` | src/oracle_lab/exporting.py:610-610 | filtering twice removes exactly the union of the lineages of the full list |
| `ExportFilters.FiltersCommute` | src/oracle_lab/exporting.py:610-610 | so the filters commute |
| `ExportFilters.SelectedEvents` | src/oracle_lab/exporting.py:609-610 | the composed filter keeps, in order, exactly the events not led to a tainted record, even through dropped events, and refuses exactly a list with a missing id |
| `ExportFilters.DroppedLeads` | src/oracle_lab/exporting.py:123-156 | what the two filters drop is what is led to a record labelled synthetic, to unlabelled oracle output or to something worker-made |
| `ExportFilters.WalksAgree` | src/oracle_lab/exporting.py:203-222 | the exporter's fixpoint decides of every stored event what the other two walks decide |
| `Automation.AutomationIsBounded` | src/oracle_lab/dispatcher.py:348-384 | along every causal chain completed tool cycles number at most the depth limit and half the budget |
| `Automation.EveryEventIsAccounted` | src/oracle_lab/dispatcher.py:542-551 | the counters of every event record exactly the adaptations and cycles on the way to it |
| `Automation.BoundIsTight` | src/oracle_lab/dispatcher.py:347-540 | every number of cycles up to that bound can happen |
| `Automation.DispatchedIsLegal` | src/oracle_lab/dispatcher.py:180-190 | a dispatch with all it cascades only appends what the rules allow |
| `Automation.AdaptedThenRepeated` | src/oracle_lab/dispatcher.py:361-373 | dispatching an adapted tool result again records one stop for the repetition |
| `Automation.RedispatchIsIdempotentIff` | src/oracle_lab/dispatcher.py:568-595 | dispatching twice is dispatching once except for an adapted tool result |
| `AutomationOutcome.OutcomeIs` | src/oracle_lab/dispatcher.py:348-540 | on the fields, kind by kind: a context message or a promotion asks the oracle once; an adapted result does so while its budget lasts and stops otherwise; a tool result stops for depth, budget or repetition, in that order, else is adapted one deeper and one poorer and resumes the oracle |
| `Dispatcher.EventDispatcher.constructor` | src/oracle_lab/dispatcher.py:145-148 | a dispatcher with a non-negative depth and a positive budget starts legal |
| `Dispatcher.EventDispatcher.EmitStop` | src/oracle_lab/dispatcher.py:568-622 | records each stop once for its event and reason |
| `Dispatcher.EventDispatcher.Dispatch` | src/oracle_lab/dispatcher.py:180-190 | runs the matching rule and its cascade with exactly that outcome, refusing a request exactly when no model profile resolves and keeping what was emitted before it; no event of the log ever exceeds the bound |
| `Ulid.EncodeUlid` | src/oracle_lab/ids.py:16-23 | the loop writes the canonical numeral |
| `Ulid.EncodingKeepsOrder` | src/oracle_lab/ids.py:26-31 | the encoding of 128-bit numbers is injective and keeps order |
| `Ulid.EncodingIsWellFormed` | src/oracle_lab/events.py:24-24 | it has 26 characters of the pattern, the first at most 7 |
| `Ulid.DecodeUndoesEncode` | src/oracle_lab/ids.py:16-23 | reading the characters back gives the number |
| `Ids.UlidGenerator.NewId` | src/oracle_lab/ids.py:26-67 | is one step of the generator; its text is the prefix, an underscore and 26 characters that decode to the time and random part then held, and a malformed prefix is refused exactly |
| `Ids.OrdinaryAdvances` | src/oracle_lab/ids.py:50-65 | every ordinary call holds a greater number than before, whatever the clock reads |
| `Ids.OrdinaryIdentifiersIncrease` | src/oracle_lab/ids.py:50-67 | ordinary identifiers of one prefix strictly increase as strings over any sequence of calls |
| `Ids.ExplicitNumbersIncrease` | src/oracle_lab/ids.py:41-49 | explicit identifiers follow their timestamps, and the order of calls within one |
| `Ids.OverflowIff` | src/oracle_lab/ids.py:55-66 | an ordinary call runs out exactly when the held millisecond does not fit or is the last one with no random part left |
| `Ids.OverflowHappens` | src/oracle_lab/ids.py:55-66 | it does happen: the second of two calls in the last millisecond fails when the first drew the last random part |
| `Ids.OverflowIsForever` | src/oracle_lab/ids.py:55-66 | from then on every ordinary call fails |
| `Ids.ExhaustedTimestampStays` | src/oracle_lab/ids.py:42-47 | an exhausted explicit timestamp stays exhausted |
| `Ids.GeneratedEventIdsMatch` | src/oracle_lab/events.py:24-24 | every generated event identifier matches the event pattern |
| `Ids.ExplicitRange` | src/oracle_lab/ids.py:41-49 | the explicit calls at a timestamp generated exactly the numbers from its first to its latest |
| `Ids.HeldRange` | src/oracle_lab/ids.py:50-65 | the ordinary calls at a millisecond generated exactly the numbers from the first held there to the last |
| `Ids.RepeatsIff` | src/oracle_lab/ids.py:41-66 | a call, of either mode, repeats a number generated before it exactly when the other mode's stretch at its millisecond covers the number it is about to generate |
| `Ids.RunIsUniqueIff` | src/oracle_lab/ids.py:41-66 | a whole run generates no number twice exactly when no call of it is covered so |
| `Ids.DisjointTimestampsNeverClash` | src/oracle_lab/ids.py:50-55 | explicit timestamps apart from the milliseconds ordinary calls hold never clash with them |
| `Ids.HistoricalTimestampsAreSafe` | src/oracle_lab/ids.py:50-55 | a run whose explicit timestamps lie before every clock reading repeats nothing |
| `Ids.SameIdentifierIff` | src/oracle_lab/ids.py:66-67 | identifiers are equal exactly when prefixes and numbers are |
| `Ids.OrdinaryAndExplicitCanCoincide` | src/oracle_lab/ids.py:41-66 | two calls, one of each mode, generate the same number |

## Left out

Representation:

* SQLite, transactions as such, locks and concurrency: operations are atomic steps on typed tables. JSON and
  Pydantic encoding, and ISO strings (which order like instants only in UTC), are replaced by typed values.
* Identifiers of the queue, bundle and branch models are integers; `Ids.OrdinaryIdentifiersIncrease` and
  `Ulid.EncodingKeepsOrder` are why their order may stand for the order of strings. The lineage model keeps
  strings, because the empty one matters there.
* The six and ten bytes of a ULID are concatenated as numbers, not as bytes; the prefix check accepts ASCII
  letters and digits where the code accepts any Unicode ones; blank texts are those of ASCII white space.
* Fractional backoff and lease durations, and the overflow of very large ones; non-string label values.
* A repeated event identifier, which the store refuses, is refused by the import model and excluded in the
  branch and projection models by a precondition. The results about the queue hold without it.

Parts of the system:

* `list_jobs`, `expired_leases`, `get` and the other queries of the queue; argument type checks.
* Non-lifecycle projections, apart from branch rows; `_inherit_claim_states`; the sessions table, of which only
  the existence of a session is kept; `archive_session` and `lineage` of the branch service.
* Bundle files: manifest, hashes, paths, archives and their repointing, curation authority, and the check that
  a bundle's context snapshots are sound. The references a payload holds are a field of the
  imported event, not found by walking JSON. Snapshots that do not parse are left out; the rebuild refuses them.
* The projections applied while an import appends its events, and what they might refuse; the rebuild that
  follows replaces their result.
* Runs of the queue that go on after an import. A quarantine cancellation is caused by the audit event, not by
  the job's previous one, and a foreign bundle may hold snapshots no queue would write, so the results over
  every run are about states reached by queue operations and events of other components.
* How the dispatcher finds a model profile and a provider (whether there is one is an input), human approval,
  rules off the tool loop, and dispatchers without a sink. That outside steps copy the automation fields is an
  assumption on the log (src/oracle_lab/oracle_worker.py:267-281 does so).
* `_synthetic_lineage` of the projections is represented by what it decides, `HasSyntheticLineage`, not by its
  loop, which is the worker walk with another marker.
* Choosing kept records for a corpus after the lineage filters; providers, hosts, agents and user interfaces.

Members stated weaker than the source:

- JobQueueScheduling.ProviderCapsHold: assumes that no limit is set below the leases held, because the code allows that and it breaks the cap; `ProviderCapsHoldIff` shows that the assumption is exact.
- JobQueueFifo.SerializedBranchIsFifo: assumes a run that has admitted no overtaken job, because the code admits them and that breaks the order; `RunOrderlyIff` shows that the assumption is exact.
- JobQueueService.JobQueue.Append: does not refuse a repeated event identifier nor run the payload validators of other event types, because the queue's events have generated identifiers and none of those types.
- BranchHistory.StepKeeps: covers the steps that parent an event on one visible from its own branch, as the branch service does; the store alone would accept others.
