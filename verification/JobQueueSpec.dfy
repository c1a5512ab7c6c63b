/** The queue's operations as functions from one state to the next.

    A state is the jobs table, the event log and the provider limits. Each operation
    takes the instant its caller passed (`now`); the wall clock, the identifier
    generator and the correlation generator are arbitrary functions of how many events
    have been appended, so any sequence of readings is covered, backwards ones included. */
module JobQueueSpec {
  import opened Common
  import opened JobContract
  import opened JobHistory
  import opened JobProjection

  datatype State = State(jobs: Table, log: seq<Event>, limits: map<string, int>)

  datatype Env = Env(
    clock: nat -> Time,
    eventId: nat -> Id,
    correlationId: nat -> Id,
    backoffBase: nat,
    backoffMax: nat)

  datatype Failure = InvalidArgument | JobNotFound | LeaseError | QueueError | EventNotFound

  datatype EnqueueArgs = EnqueueArgs(
    id: Id, kind: string, payload: string, source: Option<Id>, availableAt: Option<Time>,
    idempotencyKey: Option<string>, priority: int, provider: Option<string>, session: Option<string>,
    branch: Option<string>, serialize: bool, maxAttempts: int, now: Time)

  datatype LeaseArgs = LeaseArgs(
    worker: string, limit: int, duration: Time, kinds: seq<string>, excluded: set<(string, string)>,
    recover: set<Id>, allowRecovery: bool, now: Time)

  /** `not text.strip()`, for ASCII white space. */
  predicate Blank(text: string) {
    forall c | c in text :: c in {' ', '\t', '\n', '\r', 11 as char, 12 as char, 28 as char, 29 as char, 30 as char, 31 as char}
  }

  // ---------------------------------------------------- recording a transition

  const QUEUE_ACTOR := System("job_queue")

  /** The event `_record_transition` appends for a row. */
  function NewEvent(env: Env, log: seq<Event>, kind: EventKind, row: Job, actor: Actor, metadata: Metadata): Event {
    var previous := Latest(log, row.id);
    var source := Source(log, row);
    var parent := if previous.Some? then Some(previous.value.id)
                  else if source.Some? then Some(source.value.id) else None;
    var correlation := if previous.Some? && previous.value.correlation.Some? then previous.value.correlation
                       else if source.Some? && source.value.correlation.Some? then source.value.correlation
                       else Some(env.correlationId(|log|));
    var reading := env.clock(|log|);
    var createdAt := if previous.Some? && reading <= previous.value.createdAt then previous.value.createdAt + 1
                     else reading;
    Lifecycle(env.eventId(|log|), createdAt, ExpectedSession(log, row), ExpectedBranch(log, row),
              parent, parent, correlation, kind, actor, row, metadata)
  }

  /** Write the row and append its snapshot. */
  function Record(env: Env, s: State, kind: EventKind, row: Job, actor: Actor, metadata: Metadata): State {
    s.(jobs := s.jobs[row.id := row], log := s.log + [NewEvent(env, s.log, kind, row, actor, metadata)])
  }

  // ------------------------------------------------------------------- enqueue

  ghost predicate Holds(jobs: Table, j: Id, key: string) {
    j in jobs && jobs[j].idempotencyKey == Some(key)
  }

  /** The row already stored under an idempotency key. */
  ghost function Holder(jobs: Table, key: Option<string>): (r: Option<Id>)
    ensures r.None? <==> key.None? || forall j :: !Holds(jobs, j, key.value)
    ensures r.Some? ==> Holds(jobs, r.value, key.value)
  {
    if key.Some? && exists j :: Holds(jobs, j, key.value) then
      var j :| Holds(jobs, j, key.value);
      Some(j)
    else None
  }

  function NewJob(a: EnqueueArgs): Job {
    Job(a.id, a.kind, Pending, a.source, if a.availableAt.Some? then a.availableAt.value else a.now, None, None, 0,
        a.payload, a.now, a.now, a.idempotencyKey, a.priority, a.provider, a.session, a.branch, a.serialize,
        a.maxAttempts, None, false)
  }

  ghost function Enqueue(env: Env, s: State, a: EnqueueArgs): (State, Result<Job, Failure>) {
    if Blank(a.kind) || a.maxAttempts < 1 || (a.serialize && (a.session.None? || a.branch.None?)) then
      (s, Err(InvalidArgument))
    else if a.source.Some? && Find(s.log, a.source.value).None? then (s, Err(EventNotFound))
    else if Holder(s.jobs, a.idempotencyKey).Some? then (s, Ok(s.jobs[Holder(s.jobs, a.idempotencyKey).value]))
    else if a.id in s.jobs then (s, Err(QueueError))
    else (Record(env, s, JobEnqueued, NewJob(a), QUEUE_ACTOR, Plain), Ok(NewJob(a)))
  }

  // ------------------------------------------------------------ expired leases

  predicate IsExpired(row: Job, now: Time) {
    row.status == Leased && row.leaseUntil.Some? && row.leaseUntil.value <= now
  }

  function Expired(jobs: Table, now: Time): set<Id> {
    set j | j in jobs && IsExpired(jobs[j], now)
  }

  function LeasedAsRecovery(log: seq<Event>, j: Id): bool {
    var latest := Latest(log, j);
    latest.Some? && latest.value.IsRecoveryLease()
  }

  function RecoveryWasGranted(log: seq<Event>, j: Id): bool {
    exists e | e in log :: e.Concerns(j) && e.CarriesRecovery()
  }

  function PendingRecovery(log: seq<Event>, j: Id): Option<Metadata> {
    var latest := Latest(log, j);
    if latest.None? then None else UnspentGrant(latest.value)
  }

  function RequeuedRow(row: Job, exhausted: bool, grant: bool, now: Time): Job {
    var status := if exhausted then DeadLetter
                  else if grant then Pending
                  else if row.attempts >= row.maxAttempts then DeadLetter
                  else Pending;
    var error := if row.lastError.Some? then row.lastError
                 else Some(if exhausted then "lease expired during bounded archive recovery" else "lease expired");
    row.(status := status, availableAt := now, leaseUntil := None, worker := None, lastError := error,
         updatedAt := now)
  }

  function RequeueMetadata(row: Job, exhausted: bool, grant: bool): Metadata {
    if grant then RecoveryGranted(row.attempts, row.worker, row.leaseUntil)
    else if exhausted then RecoveryExhausted
    else LeaseExpired
  }

  function GrantsRecovery(log: seq<Event>, j: Id, recover: set<Id>): bool {
    !LeasedAsRecovery(log, j) && j in recover && !RecoveryWasGranted(log, j)
  }

  function RequeueOne(env: Env, s: State, j: Id, now: Time, recover: set<Id>): State
    requires j in s.jobs
  {
    var row := s.jobs[j];
    var exhausted := LeasedAsRecovery(s.log, j);
    var grant := GrantsRecovery(s.log, j, recover);
    Record(env, s, JobRequeued, RequeuedRow(row, exhausted, grant, now), QUEUE_ACTOR,
           RequeueMetadata(row, exhausted, grant))
  }

  /** The query names no order, so any enumeration of the expired rows may be scanned. */
  ghost predicate IsScan(jobs: Table, now: Time, scan: seq<Id>) {
    && (forall i, k :: 0 <= i < k < |scan| ==> scan[i] != scan[k])
    && (forall j :: j in scan <==> j in Expired(jobs, now))
  }

  function RequeueAll(env: Env, s: State, scan: seq<Id>, now: Time, recover: set<Id>): (r: State)
    requires forall j :: j in scan ==> j in s.jobs
    ensures r.limits == s.limits && s.jobs.Keys <= r.jobs.Keys
  {
    if scan == [] then s
    else
      var n := |scan| - 1;
      assert forall j :: j in scan[..n] ==> j in scan;
      assert scan[n] in scan;
      RequeueOne(env, RequeueAll(env, s, scan[..n], now, recover), scan[n], now, recover)
  }

  // --------------------------------------------------------------------- lease

  /** `ORDER BY priority DESC, available_at ASC, id ASC`. */
  predicate Ahead(jobs: Table, x: Id, y: Id)
    requires x in jobs && y in jobs
  {
    || jobs[x].priority > jobs[y].priority
    || (jobs[x].priority == jobs[y].priority && jobs[x].availableAt < jobs[y].availableAt)
    || (jobs[x].priority == jobs[y].priority && jobs[x].availableAt == jobs[y].availableAt && x < y)
  }

  lemma {:induction false} SomeoneIsFirst(jobs: Table, ids: set<Id>)
    requires ids != {} && ids <= jobs.Keys
    ensures exists m :: m in ids && forall x :: x in ids && x != m ==> Ahead(jobs, m, x)
    decreases |ids|
  {
    var y := SomeMember(ids);
    var others := ids - {y};
    if others == {} {
      assert ids == {y};
      assert y in ids && forall x :: x in ids && x != y ==> Ahead(jobs, y, x);
    } else {
      SomeoneIsFirst(jobs, others);
      var m :| m in others && forall x :: x in others && x != m ==> Ahead(jobs, m, x);
      var first := if Ahead(jobs, m, y) then m else y;
      assert Ahead(jobs, m, y) || Ahead(jobs, y, m);
      forall x | x in ids && x != first ensures Ahead(jobs, first, x) {
        assert x == y || x == m || (x in others && Ahead(jobs, m, x));
      }
    }
  }

  /** The ids in scheduling order. */
  function Ranked(jobs: Table, ids: set<Id>): (r: seq<Id>)
    requires ids <= jobs.Keys
    ensures forall x :: x in r <==> x in ids
    ensures forall i, k :: 0 <= i < k < |r| ==> r[i] != r[k] && Ahead(jobs, r[i], r[k])
  {
    if ids == {} then []
    else
      SomeoneIsFirst(jobs, ids);
      var m :| m in ids && forall x | x in ids :: x != m ==> Ahead(jobs, m, x);
      var rest := Ranked(jobs, ids - {m});
      assert forall x :: x in [m] + rest <==> x == m || x in rest;
      assert forall k :: 0 <= k < |rest| ==> rest[k] in rest;
      [m] + rest
  }

  /** Priorities fall along the list, among equals availability rises, and among equals of both the id. */
  lemma RankedByColumns(jobs: Table, ids: set<Id>, i: nat, k: nat)
    requires ids <= jobs.Keys && i < k < |Ranked(jobs, ids)|
    ensures var r := Ranked(jobs, ids);
            && r[i] in jobs && r[k] in jobs
            && jobs[r[i]].priority >= jobs[r[k]].priority
            && (jobs[r[i]].priority == jobs[r[k]].priority ==> jobs[r[i]].availableAt <= jobs[r[k]].availableAt)
            && (jobs[r[i]].priority == jobs[r[k]].priority && jobs[r[i]].availableAt == jobs[r[k]].availableAt ==>
                  r[i] < r[k])
  {
    assert Ranked(jobs, ids)[i] in Ranked(jobs, ids) && Ranked(jobs, ids)[k] in Ranked(jobs, ids);
  }

  predicate IsDue(row: Job, a: LeaseArgs) {
    && row.status == Pending
    && row.availableAt <= a.now
    && !row.cancelRequested
    && (a.kinds == [] || row.kind in a.kinds)
  }

  function Candidates(jobs: Table, a: LeaseArgs): seq<Id> {
    Ranked(jobs, set j | j in jobs && IsDue(jobs[j], a))
  }

  predicate IsExcluded(row: Job, a: LeaseArgs) {
    row.session.Some? && row.branch.Some? && (row.session.value, row.branch.value) in a.excluded
  }

  predicate IsActive(row: Job, now: Time) {
    row.status == Leased && row.leaseUntil.Some? && row.leaseUntil.value > now
  }

  function ActiveOf(jobs: Table, provider: string, now: Time): set<Id> {
    set j | j in jobs && jobs[j].provider == Some(provider) && IsActive(jobs[j], now)
  }

  predicate WithinLimit(s: State, row: Job, now: Time) {
    row.provider.None? || row.provider.value !in s.limits
    || |ActiveOf(s.jobs, row.provider.value, now)| < s.limits[row.provider.value]
  }

  /** Both rows name the same session and branch. */
  predicate SameLane(x: Job, y: Job) {
    x.session.Some? && x.branch.Some? && x.session == y.session && x.branch == y.branch
  }

  predicate IsEarlierInLane(x: Job, y: Job) {
    SameLane(x, y) && x.serialize && KeyLess(x.Ordinal(), y.Ordinal())
  }

  predicate BranchAvailable(jobs: Table, row: Job, now: Time) {
    !row.serialize
    || ( && (forall j | j in jobs ::
               !(IsEarlierInLane(jobs[j], row) && (jobs[j].status == Pending || jobs[j].status == Leased)))
         && (forall j | j in jobs :: !(SameLane(jobs[j], row) && IsActive(jobs[j], now))))
  }

  /** Why a due pending job is passed over. */
  predicate Blocked(s: State, a: LeaseArgs, j: Id)
    requires j in s.jobs
  {
    || IsExcluded(s.jobs[j], a)
    || (PendingRecovery(s.log, j).Some? && !a.allowRecovery)
    || !WithinLimit(s, s.jobs[j], a.now)
    || !BranchAvailable(s.jobs, s.jobs[j], a.now)
  }

  function LeasedRow(row: Job, a: LeaseArgs): Job {
    row.(status := Leased, leaseUntil := Some(a.now + a.duration), worker := Some(a.worker),
         attempts := row.attempts + 1, updatedAt := a.now)
  }

  /** A recovery lease carries the grant it spends. */
  function LeaseMetadata(recovery: Option<Metadata>): Metadata {
    if recovery.Some? then recovery.value else Plain
  }

  function LeaseOne(env: Env, s: State, a: LeaseArgs, j: Id): State
    requires j in s.jobs
  {
    Record(env, s, JobLeased, LeasedRow(s.jobs[j], a), Worker(a.worker), LeaseMetadata(PendingRecovery(s.log, j)))
  }

  predicate Takes(s: State, taken: nat, a: LeaseArgs, j: Id)
    requires j in s.jobs
  {
    taken < a.limit && !Blocked(s, a, j) && s.jobs[j].status == Pending && !s.jobs[j].cancelRequested
  }

  /** One turn of the scheduling loop. */
  function Turn(env: Env, s: State, leased: seq<Job>, a: LeaseArgs, j: Id): (State, seq<Job>)
    requires j in s.jobs
  {
    if Takes(s, |leased|, a, j) then (LeaseOne(env, s, a, j), leased + [LeasedRow(s.jobs[j], a)])
    else (s, leased)
  }

  /** The scheduling loop after the first `n` candidates. */
  function LeaseUpTo(env: Env, s: State, a: LeaseArgs, candidates: seq<Id>, n: nat): (r: (State, seq<Job>))
    requires n <= |candidates| && forall j :: j in candidates ==> j in s.jobs
    ensures r.0.limits == s.limits && s.jobs.Keys <= r.0.jobs.Keys
  {
    if n == 0 then (s, [])
    else
      var earlier := LeaseUpTo(env, s, a, candidates, n - 1);
      assert candidates[n - 1] in candidates;
      Turn(env, earlier.0, earlier.1, a, candidates[n - 1])
  }

  /** After `n` candidates the loop is in state `p`, having leased `leased`. */
  ghost predicate Reached(env: Env, s: State, a: LeaseArgs, candidates: seq<Id>, n: nat, p: State, leased: seq<Job>)
    requires n <= |candidates| && forall j :: j in candidates ==> j in s.jobs
  {
    LeaseUpTo(env, s, a, candidates, n) == (p, leased)
  }

  lemma ReachedNext(env: Env, s: State, a: LeaseArgs, candidates: seq<Id>, n: nat, p: State, leased: seq<Job>)
    requires n < |candidates| && forall j :: j in candidates ==> j in s.jobs
    requires Reached(env, s, a, candidates, n, p, leased)
    ensures candidates[n] in p.jobs
    ensures var next := Turn(env, p, leased, a, candidates[n]);
            Reached(env, s, a, candidates, n + 1, next.0, next.1)
  {
    var j := candidates[n];
    assert j in candidates;
    assert j in s.jobs.Keys;
    assert p == LeaseUpTo(env, s, a, candidates, n).0;
    assert s.jobs.Keys <= p.jobs.Keys;
    assert j in p.jobs.Keys;
  }

  predicate BadLeaseArgs(a: LeaseArgs) {
    Blank(a.worker) || a.limit < 1 || a.duration <= 0 || exists b | b in a.excluded :: b.0 == "" || b.1 == ""
  }

  function Lease(env: Env, s: State, a: LeaseArgs, scan: seq<Id>): (State, Result<seq<Job>, Failure>)
    requires forall j :: j in scan ==> j in s.jobs
  {
    if BadLeaseArgs(a) then (s, Err(InvalidArgument))
    else
      var cleared := RequeueAll(env, s, scan, a.now, a.recover);
      var candidates := Candidates(cleared.jobs, a);
      var (next, leased) := LeaseUpTo(env, cleared, a, candidates, |candidates|);
      (next, Ok(leased))
  }

  // --------------------------------------------- operations of the lease holder

  predicate Owns(jobs: Table, j: Id, worker: string) {
    j in jobs && jobs[j].status == Leased && jobs[j].worker == Some(worker) && !jobs[j].cancelRequested
  }

  function HeartbeatRow(row: Job, duration: Time, now: Time): Job {
    row.(leaseUntil := Some(now + duration), updatedAt := now)
  }

  function Heartbeat(env: Env, s: State, j: Id, worker: string, duration: Time, now: Time)
    : (State, Result<Job, Failure>)
  {
    if duration <= 0 then (s, Err(InvalidArgument))
    else if !Owns(s.jobs, j, worker) then (s, Err(LeaseError))
    else
      var row := HeartbeatRow(s.jobs[j], duration, now);
      (Record(env, s, JobHeartbeat, row, Worker(worker), Plain), Ok(row))
  }

  /** `_require_row` followed by `_assert_lease`. */
  function LeaseFault(s: State, j: Id, worker: string): Option<Failure> {
    if j !in s.jobs then Some(JobNotFound)
    else if Blank(worker) then Some(InvalidArgument)
    else if !Owns(s.jobs, j, worker) then Some(LeaseError)
    else None
  }

  function CompletedRow(row: Job, now: Time): Job {
    row.(status := Completed, leaseUntil := None, worker := None, updatedAt := now)
  }

  function Complete(env: Env, s: State, j: Id, worker: string, now: Time): (State, Result<Job, Failure>) {
    if LeaseFault(s, j, worker).Some? then (s, Err(LeaseFault(s, j, worker).value))
    else
      var row := CompletedRow(s.jobs[j], now);
      (Record(env, s, JobCompleted, row, Worker(worker), Plain), Ok(row))
  }

  function Pow2(n: nat): nat {
    if n == 0 then 1 else 2 * Pow2(n - 1)
  }

  /** Exponential in the number of earlier attempts, capped. */
  function Backoff(env: Env, attempts: int): nat {
    var delay := env.backoffBase * Pow2(if attempts <= 1 then 0 else attempts - 1);
    if delay < env.backoffMax then delay else env.backoffMax
  }

  function FailedRow(env: Env, row: Job, error: string, retryable: bool, now: Time): Job {
    var again := retryable && row.attempts < row.maxAttempts;
    row.(status := if again then Pending else DeadLetter,
         availableAt := if again then now + Backoff(env, row.attempts) else now,
         leaseUntil := None, worker := None, lastError := Some(error), updatedAt := now)
  }

  function Fail(env: Env, s: State, j: Id, error: string, worker: string, retryable: bool, now: Time)
    : (State, Result<Job, Failure>)
  {
    if LeaseFault(s, j, worker).Some? then (s, Err(LeaseFault(s, j, worker).value))
    else
      var row := FailedRow(env, s.jobs[j], error, retryable, now);
      (Record(env, s, JobFailed, row, Worker(worker), Plain), Ok(row))
  }

  // ----------------------------------------------------- administrative operations

  function CancelledRow(row: Job, now: Time): Job {
    row.(status := Cancelled, cancelRequested := true, leaseUntil := None, worker := None, updatedAt := now)
  }

  function Cancel(env: Env, s: State, j: Id, now: Time): (State, Result<Job, Failure>) {
    if j !in s.jobs then (s, Err(JobNotFound))
    else if s.jobs[j].Finished() then (s, Ok(s.jobs[j]))
    else
      var row := CancelledRow(s.jobs[j], now);
      (Record(env, s, JobCancelled, row, QUEUE_ACTOR, Plain), Ok(row))
  }

  function RetriedRow(row: Job, reset: bool, now: Time): Job {
    row.(status := Pending, attempts := if reset then 0 else row.attempts, availableAt := now,
         lastError := None, updatedAt := now)
  }

  function RetryDeadLetter(env: Env, s: State, j: Id, reset: bool, now: Time): (State, Result<Job, Failure>) {
    if j !in s.jobs then (s, Err(JobNotFound))
    else if s.jobs[j].status != DeadLetter then (s, Err(QueueError))
    else
      var row := RetriedRow(s.jobs[j], reset, now);
      (Record(env, s, JobRetried, row, QUEUE_ACTOR, Plain), Ok(row))
  }

  function SetProviderLimit(s: State, provider: string, limit: int): (State, Result<(), Failure>) {
    if limit < 1 then (s, Err(InvalidArgument)) else (s.(limits := s.limits[provider := limit]), Ok(()))
  }

  // ---------------------------------------------------------------------- runs

  datatype Op =
    | EnqueueOp(a: EnqueueArgs)
    | LeaseOp(la: LeaseArgs, scan: seq<Id>)
    | HeartbeatOp(job: Id, worker: string, duration: Time, now: Time)
    | CompleteOp(job: Id, worker: string, now: Time)
    | FailOp(job: Id, error: string, worker: string, retryable: bool, now: Time)
    | CancelOp(job: Id, now: Time)
    | RequeueOp(recover: set<Id>, now: Time, scan: seq<Id>)
    | RetryOp(job: Id, reset: bool, now: Time)
    | LimitOp(provider: string, limit: int)
    | OutsideOp(e: Event)

  /** `t` follows `s` by one operation; other components append only non-lifecycle events. */
  ghost predicate Step(env: Env, s: State, op: Op, t: State) {
    match op
    case EnqueueOp(a) => t == Enqueue(env, s, a).0
    case LeaseOp(a, scan) => IsScan(s.jobs, a.now, scan) && t == Lease(env, s, a, scan).0
    case HeartbeatOp(j, worker, duration, now) => t == Heartbeat(env, s, j, worker, duration, now).0
    case CompleteOp(j, worker, now) => t == Complete(env, s, j, worker, now).0
    case FailOp(j, error, worker, retryable, now) => t == Fail(env, s, j, error, worker, retryable, now).0
    case CancelOp(j, now) => t == Cancel(env, s, j, now).0
    case RequeueOp(recover, now, scan) => IsScan(s.jobs, now, scan) && t == RequeueAll(env, s, scan, now, recover)
    case RetryOp(j, reset, now) => t == RetryDeadLetter(env, s, j, reset, now).0
    case LimitOp(provider, limit) => t == SetProviderLimit(s, provider, limit).0
    case OutsideOp(e) => e.Other? && t == s.(log := s.log + [e])
  }

  ghost predicate Initial(s: State) {
    && s.jobs == map[] && s.log == []
    && forall p :: p in s.limits ==> s.limits[p] >= 1
  }

  /** `states[i + 1]` follows `states[i]` by `ops[i]`, from an empty queue. */
  ghost predicate Run(env: Env, states: seq<State>, ops: seq<Op>) {
    && |states| == |ops| + 1
    && Initial(states[0])
    && forall i :: 0 <= i < |ops| ==> Step(env, states[i], ops[i], states[i + 1])
  }
}
