/** What each operation on one job does to it, read off the columns of its row and of its new event. */
module JobQueueEffects {
  import opened Common
  import opened JobContract
  import opened JobHistory
  import opened JobProjection
  import opened JobQueueSpec
  import opened JobQueueInvariant
  import opened JobQueueIdentity

  /** White space of ASCII, as `str.strip` sees it. */
  ghost predicate OnlySpace(text: string) {
    forall i :: 0 <= i < |text| ==>
      text[i] == ' ' || 9 as char <= text[i] <= 13 as char || 28 as char <= text[i] <= 31 as char
  }

  /** Nothing but an error comes of it. */
  ghost predicate Refuses<T>(s: State, t: State, r: Result<T, Failure>, error: Failure) {
    r == Err(error) && t == s
  }

  /** One row is written, and one event appended with that row. */
  ghost predicate Writes(s: State, t: State, kind: EventKind, row: Job, actor: Actor) {
    && t.jobs == s.jobs[row.id := row] && t.limits == s.limits
    && |t.log| == |s.log| + 1 && t.log[..|s.log|] == s.log
    && var e := t.log[|s.log|];
       && e.Lifecycle? && e.kind == kind && e.job == row && e.actor == actor && e.metadata == Plain
       && (row.session.Some? ==> e.session == row.session) && (row.branch.Some? ==> e.branch == row.branch)
       && (row.source.None? && row.session.None? ==> e.session.None?)
       && (row.source.None? && row.branch.None? ==> e.branch.None?)
       && (row.source.Some? ==> exists d :: d in s.log && InContextOf(d, e))
  }

  /** The event is filed where its job names no place itself, with the job's source `d`. */
  ghost predicate InContextOf(d: Event, e: Event) {
    e.Lifecycle? && e.job.source == Some(d.id)
    && (e.job.session.None? ==> e.session == d.session) && (e.job.branch.None? ==> e.branch == d.branch)
  }

  lemma RecordWrites(env: Env, s: State, kind: EventKind, row: Job, actor: Actor)
    requires row.source.Some? ==> Find(s.log, row.source.value).Some?
    ensures Writes(s, Record(env, s, kind, row, actor, Plain), kind, row, actor)
  {
    if row.source.Some? {
      FindMembers(s.log, row.source.value);
      assert InContextOf(Find(s.log, row.source.value).value, NewEvent(env, s.log, kind, row, actor, Plain));
    }
  }

  /** The source of a job in the table is in the log. */
  lemma SourceIsKnown(s: State, j: Id)
    requires Inv(s) && j in s.jobs
    ensures s.jobs[j].id == j && RowShape(s.jobs[j])
    ensures s.jobs[j].source.Some? ==> Find(s.log, s.jobs[j].source.value).Some?
  {
    InvAt(s, j);
    assert Passes(s.log, Last(History(s.log, j)));
  }

  // ------------------------------------------------------------------- enqueue

  ghost predicate Malformed(a: EnqueueArgs) {
    OnlySpace(a.kind) || a.maxAttempts <= 0 || (a.serialize && !(a.session.Some? && a.branch.Some?))
  }

  ghost predicate SourceMissing(log: seq<Event>, a: EnqueueArgs) {
    a.source.Some? && forall e :: e in log ==> e.id != a.source.value
  }

  /** Job `j` was stored under the key of the call. */
  ghost predicate KeyedAlike(jobs: Table, j: Id, a: EnqueueArgs) {
    j in jobs && a.idempotencyKey.Some? && jobs[j].idempotencyKey == a.idempotencyKey
  }

  /** A new row carries what the caller asked for. */
  ghost predicate AsAsked(a: EnqueueArgs, row: Job) {
    && row.id == a.id && row.kind == a.kind && row.payload == a.payload && row.source == a.source
    && row.idempotencyKey == a.idempotencyKey && row.priority == a.priority && row.provider == a.provider
    && row.session == a.session && row.branch == a.branch && row.serialize == a.serialize
    && row.maxAttempts == a.maxAttempts
    && (a.availableAt.Some? ==> row.availableAt == a.availableAt.value)
    && (a.availableAt.None? ==> row.availableAt == a.now)
    && row.createdAt == row.updatedAt == a.now
    && row.status == Pending && row.attempts == 0 && row.leaseUntil.None? && row.worker.None?
    && row.lastError.None? && !row.cancelRequested
  }

  ghost predicate Enqueues(s: State, t: State, a: EnqueueArgs, r: Result<Job, Failure>) {
    if Malformed(a) then Refuses(s, t, r, InvalidArgument)
    else if SourceMissing(s.log, a) then Refuses(s, t, r, EventNotFound)
    else if exists j :: KeyedAlike(s.jobs, j, a) then
      t == s && forall j :: KeyedAlike(s.jobs, j, a) ==> r == Ok(s.jobs[j])
    else if a.id in s.jobs then Refuses(s, t, r, QueueError)
    else r.Ok? && AsAsked(a, r.value) && Writes(s, t, JobEnqueued, r.value, System("job_queue"))
  }

  lemma OnlySpaceIsBlank(text: string)
    ensures OnlySpace(text) <==> Blank(text)
  {
    if OnlySpace(text) {
      forall c | c in text ensures Blank([c]) {
        var i :| 0 <= i < |text| && text[i] == c;
      }
      assert forall c :: c in text ==> c in [c] && Blank([c]);
    }
    if Blank(text) {
      forall i | 0 <= i < |text| ensures OnlySpace([text[i]]) {
        assert text[i] in text;
      }
      assert forall i :: 0 <= i < |text| ==> OnlySpace([text[i]]) && [text[i]][0] == text[i];
    }
  }

  lemma EnqueueOutcome(env: Env, s: State, a: EnqueueArgs)
    requires Inv(s)
    ensures Enqueues(s, Enqueue(env, s, a).0, a, Enqueue(env, s, a).1)
  {
    OnlySpaceIsBlank(a.kind);
    if a.source.Some? { FindMembers(s.log, a.source.value); }
    if Enqueue(env, s, a).0 != s { RecordWrites(env, s, JobEnqueued, NewJob(a), QUEUE_ACTOR); }
    var holder := Holder(s.jobs, a.idempotencyKey);
    if a.idempotencyKey.Some? {
      forall j ensures KeyedAlike(s.jobs, j, a) <==> Holds(s.jobs, j, a.idempotencyKey.value) {
      }
    }
    if holder.Some? {
      assert KeyedAlike(s.jobs, holder.value, a);
      forall j | KeyedAlike(s.jobs, j, a) ensures j == holder.value { assert SameKey(s.jobs, j, holder.value); }
    }
  }

  // ------------------------------------------------- the holder's operations

  /** The worker holds a lease of the job, and nobody has asked to cancel it. */
  ghost predicate IsHeldBy(jobs: Table, j: Id, worker: string) {
    j in jobs && jobs[j].status == Leased && jobs[j].worker == Some(worker) && !jobs[j].cancelRequested
  }

  ghost predicate Heartbeats(s: State, t: State, j: Id, worker: string, duration: Time, now: Time,
                             r: Result<Job, Failure>)
  {
    if duration <= 0 then Refuses(s, t, r, InvalidArgument)
    else if !IsHeldBy(s.jobs, j, worker) then Refuses(s, t, r, LeaseError)
    else
      && r.Ok? && Writes(s, t, JobHeartbeat, r.value, Worker(worker)) && r.value.id == j
      && SameTask(s.jobs[j], r.value) && r.value.status == Leased && r.value.worker == Some(worker)
      && r.value.leaseUntil == Some(now + duration) && r.value.updatedAt == now
      && r.value.attempts == s.jobs[j].attempts && r.value.availableAt == s.jobs[j].availableAt
      && r.value.lastError == s.jobs[j].lastError && !r.value.cancelRequested
  }

  lemma HeartbeatOutcome(env: Env, s: State, j: Id, worker: string, duration: Time, now: Time)
    requires Inv(s)
    ensures var (t, r) := Heartbeat(env, s, j, worker, duration, now); Heartbeats(s, t, j, worker, duration, now, r)
  {
    if j in s.jobs {
      SourceIsKnown(s, j);
      RecordWrites(env, s, JobHeartbeat, HeartbeatRow(s.jobs[j], duration, now), Worker(worker));
    }
  }

  /** What a holder's call answers before it looks at anything else. */
  ghost function Fault(s: State, j: Id, worker: string): Option<Failure> {
    if j !in s.jobs then Some(JobNotFound)
    else if OnlySpace(worker) then Some(InvalidArgument)
    else if !IsHeldBy(s.jobs, j, worker) then Some(LeaseError)
    else None
  }

  /** The lease is over, and what it has not touched stays. */
  ghost predicate Closes(x: Job, y: Job, now: Time) {
    && SameTask(x, y) && y.attempts == x.attempts && y.leaseUntil.None? && y.worker.None? && y.updatedAt == now
  }

  ghost predicate Completes(s: State, t: State, j: Id, worker: string, now: Time, r: Result<Job, Failure>) {
    if Fault(s, j, worker).Some? then Refuses(s, t, r, Fault(s, j, worker).value)
    else
      && r.Ok? && Writes(s, t, JobCompleted, r.value, Worker(worker)) && Closes(s.jobs[j], r.value, now)
      && r.value.id == j && r.value.status == Completed && !r.value.cancelRequested
      && r.value.availableAt == s.jobs[j].availableAt && r.value.lastError == s.jobs[j].lastError
  }

  lemma CompleteOutcome(env: Env, s: State, j: Id, worker: string, now: Time)
    requires Inv(s)
    ensures var (t, r) := Complete(env, s, j, worker, now); Completes(s, t, j, worker, now, r)
  {
    OnlySpaceIsBlank(worker);
    if j in s.jobs {
      SourceIsKnown(s, j);
      RecordWrites(env, s, JobCompleted, CompletedRow(s.jobs[j], now), Worker(worker));
    }
  }

  /** A failure puts the job back, after its backoff, exactly when the caller allows it and attempts are left;
      otherwise it is dead-lettered at once. */
  ghost predicate Fails(env: Env, s: State, t: State, j: Id, error: string, worker: string, retryable: bool, now: Time,
                        r: Result<Job, Failure>)
  {
    if Fault(s, j, worker).Some? then Refuses(s, t, r, Fault(s, j, worker).value)
    else
      && r.Ok? && Writes(s, t, JobFailed, r.value, Worker(worker)) && Closes(s.jobs[j], r.value, now)
      && r.value.id == j && r.value.lastError == Some(error) && !r.value.cancelRequested
      && (r.value.status == Pending <==> retryable && s.jobs[j].attempts < s.jobs[j].maxAttempts)
      && (r.value.status == DeadLetter <==> r.value.status != Pending)
      && r.value.availableAt == now + if r.value.status == Pending then Backoff(env, s.jobs[j].attempts) else 0
  }

  lemma FailOutcome(env: Env, s: State, j: Id, error: string, worker: string, retryable: bool, now: Time)
    requires Inv(s)
    ensures var (t, r) := Fail(env, s, j, error, worker, retryable, now);
            Fails(env, s, t, j, error, worker, retryable, now, r)
  {
    OnlySpaceIsBlank(worker);
    if j in s.jobs {
      SourceIsKnown(s, j);
      RecordWrites(env, s, JobFailed, FailedRow(env, s.jobs[j], error, retryable, now), Worker(worker));
    }
  }

  // ----------------------------------------------------- administrative operations

  ghost predicate Cancels(s: State, t: State, j: Id, now: Time, r: Result<Job, Failure>) {
    if j !in s.jobs then Refuses(s, t, r, JobNotFound)
    else if s.jobs[j].status != Pending && s.jobs[j].status != Leased then t == s && r == Ok(s.jobs[j])
    else
      && r.Ok? && Writes(s, t, JobCancelled, r.value, System("job_queue")) && Closes(s.jobs[j], r.value, now)
      && r.value.id == j && r.value.status == Cancelled && r.value.cancelRequested
      && r.value.availableAt == s.jobs[j].availableAt && r.value.lastError == s.jobs[j].lastError
  }

  lemma CancelOutcome(env: Env, s: State, j: Id, now: Time)
    requires Inv(s)
    ensures var (t, r) := Cancel(env, s, j, now); Cancels(s, t, j, now, r)
  {
    if j in s.jobs {
      SourceIsKnown(s, j);
      RecordWrites(env, s, JobCancelled, CancelledRow(s.jobs[j], now), QUEUE_ACTOR);
    }
  }

  /** A retry reopens a dead letter at once; its attempts start again exactly when asked for. */
  ghost predicate Reopens(s: State, t: State, j: Id, reset: bool, now: Time, r: Result<Job, Failure>) {
    if j !in s.jobs then Refuses(s, t, r, JobNotFound)
    else if s.jobs[j].status != DeadLetter then Refuses(s, t, r, QueueError)
    else
      && r.Ok? && Writes(s, t, JobRetried, r.value, System("job_queue")) && SameTask(s.jobs[j], r.value)
      && r.value.id == j && r.value.status == Pending && r.value.availableAt == r.value.updatedAt == now
      && (reset ==> r.value.attempts == 0) && (!reset ==> r.value.attempts == s.jobs[j].attempts)
      && r.value.lastError.None? && r.value.leaseUntil.None? && r.value.worker.None? && !r.value.cancelRequested
  }

  lemma RetryOutcome(env: Env, s: State, j: Id, reset: bool, now: Time)
    requires Inv(s)
    ensures var (t, r) := RetryDeadLetter(env, s, j, reset, now); Reopens(s, t, j, reset, now, r)
  {
    if j in s.jobs {
      SourceIsKnown(s, j);
      RecordWrites(env, s, JobRetried, RetriedRow(s.jobs[j], reset, now), QUEUE_ACTOR);
    }
  }

  // ---------------------------------------------------------------- what is projected

  predicate StatusFits(kind: EventKind, status: JobStatus) {
    && (kind == JobEnqueued || kind == JobRetried ==> status == Pending)
    && (kind == JobLeased || kind == JobHeartbeat ==> status == Leased)
    && (kind == JobFailed || kind == JobRequeued ==> status == Pending || status == DeadLetter)
    && (kind == JobCompleted ==> status == Completed) && (kind == JobCancelled ==> status == Cancelled)
  }

  /** The snapshot suits its event, its source, its place and the keys of the other rows. */
  ghost predicate Fits(jobs: Table, log: seq<Event>, e: Event)
    requires e.Lifecycle?
  {
    var source := if e.job.source.Some? then Find(log, e.job.source.value) else None;
    && StatusFits(e.kind, e.job.status) && e.correlation.Some?
    && (e.job.source.Some? ==> source.Some?)
    && (e.job.session.Some? ==> e.session == e.job.session) && (e.job.branch.Some? ==> e.branch == e.job.branch)
    && (e.job.session.None? ==> e.session == if source.Some? then source.value.session else None)
    && (e.job.branch.None? ==> e.branch == if source.Some? then source.value.branch else None)
    && (source.Some? && source.value.correlation.Some? ==> e.correlation == source.value.correlation)
    && (e.kind == JobEnqueued ==> e.parent == e.job.source && e.causation == e.job.source)
    && (e.job.idempotencyKey.Some? ==>
          forall j :: j in jobs && j != e.job.id ==> jobs[j].idempotencyKey != e.job.idempotencyKey)
  }

  // ------------------------------------------------------------------- one key, one job

  /** Whatever an enqueue under a key answers, any later enqueue under that key answers with the same job,
      as it is by then, and changes nothing. */
  lemma KeyAnswersAlike(env: Env, states: seq<State>, ops: seq<Op>, i: nat, k: nat, a: EnqueueArgs)
    returns (j: Id)
    requires Run(env, states, ops) && i < k < |states|
    requires ops[i].EnqueueOp? && ops[i].a.idempotencyKey.Some? && a.idempotencyKey == ops[i].a.idempotencyKey
    requires Enqueue(env, states[i], ops[i].a).1.Ok?
    requires !Malformed(a) && !SourceMissing(states[k].log, a)
    ensures Enqueue(env, states[i], ops[i].a).1.value.id == j && j in states[k].jobs
    ensures SameTask(Enqueue(env, states[i], ops[i].a).1.value, states[k].jobs[j])
    ensures Enqueue(env, states[k], a) == (states[k], Ok(states[k].jobs[j]))
  {
    RunKeeps(env, states, ops, i);
    RunKeeps(env, states, ops, i + 1);
    RunKeeps(env, states, ops, k);
    assert Step(env, states[i], ops[i], states[i + 1]);
    EnqueueOutcome(env, states[i], ops[i].a);
    var first := Enqueue(env, states[i], ops[i].a).1.value;
    j := first.id;
    if h :| KeyedAlike(states[i].jobs, h, ops[i].a) { InvAt(states[i], h); }
    assert j in states[i + 1].jobs && states[i + 1].jobs[j] == first;
    JobsAndEventsStay(env, states, ops, i + 1, k, j);
    assert KeyedAlike(states[k].jobs, j, a);
    EnqueueOutcome(env, states[k], a);
  }
}
