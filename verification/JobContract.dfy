/** The job snapshot, the lifecycle events and the table of statuses each event may carry. */
module JobContract {
  import opened Common

  datatype JobStatus = Pending | Leased | Completed | DeadLetter | Cancelled

  /** A queue row; the payload of every lifecycle event is one of these, in full. */
  datatype Job = Job(
    id: Id,
    kind: string,
    status: JobStatus,
    source: Option<Id>,
    availableAt: Time,
    leaseUntil: Option<Time>,
    worker: Option<string>,
    attempts: int,
    payload: string,
    createdAt: Time,
    updatedAt: Time,
    idempotencyKey: Option<string>,
    priority: int,
    provider: Option<string>,
    session: Option<string>,
    branch: Option<string>,
    serialize: bool,
    maxAttempts: int,
    lastError: Option<string>,
    cancelRequested: bool)
  {
    predicate Finished() {
      status == Completed || status == DeadLetter || status == Cancelled
    }

    /** Place in the first-in-first-out order of a serialized branch. */
    function Ordinal(): Key {
      Key(createdAt, id)
    }
  }

  datatype EventKind =
    | JobEnqueued | JobLeased | JobHeartbeat | JobCompleted
    | JobFailed | JobCancelled | JobRequeued | JobRetried

  function AllowedStatuses(kind: EventKind): set<JobStatus> {
    match kind
    case JobEnqueued => {Pending}
    case JobLeased => {Leased}
    case JobHeartbeat => {Leased}
    case JobCompleted => {Completed}
    case JobFailed => {Pending, DeadLetter}
    case JobCancelled => {Cancelled}
    case JobRequeued => {Pending, DeadLetter}
    case JobRetried => {Pending}
  }

  datatype Actor = System(name: string) | Worker(name: string)

  /** The part of an event's metadata the queue reads back. A recovery record carries
      ordinal 1 in the last two forms; only the last one is marked exhausted. */
  datatype Metadata =
    | Plain
    | LeaseExpired
    | RecoveryGranted(previousAttempt: int, previousWorker: Option<string>, previousLeaseUntil: Option<Time>)
    | RecoveryExhausted

  datatype Event =
    | Lifecycle(
        id: Id, createdAt: Time, session: Option<string>, branch: Option<string>,
        parent: Option<Id>, causation: Option<Id>, correlation: Option<Id>,
        kind: EventKind, actor: Actor, job: Job, metadata: Metadata)
    | Other(
        id: Id, createdAt: Time, session: Option<string>, branch: Option<string>,
        parent: Option<Id>, causation: Option<Id>, correlation: Option<Id>)
  {
    function Key(): Key {
      Common.Key(createdAt, id)
    }

    /** A lifecycle event of job `j`. */
    predicate Concerns(j: Id) {
      Lifecycle? && job.id == j
    }

    predicate Is(k: EventKind) {
      Lifecycle? && kind == k
    }

    /** Leaves the job in this status. */
    predicate Leaves(s: JobStatus) {
      Lifecycle? && job.status == s
    }

    predicate CarriesRecovery() {
      Lifecycle? && (metadata.RecoveryGranted? || metadata.RecoveryExhausted?)
    }

    /** The requeue that offers the one archive-recovery lease. */
    predicate IsGrant() {
      Is(JobRequeued) && metadata.RecoveryGranted?
    }

    /** A lease taken as the archive-recovery lease. */
    predicate IsRecoveryLease() {
      Is(JobLeased) && CarriesRecovery()
    }
  }
}
