/** The queue itself: the jobs table, the event log and the provider limits, updated in
    place. Every public method is proved to be the step of the same name. */
module JobQueueService {
  import opened Common
  import opened JobContract
  import opened JobHistory
  import opened JobProjection
  import opened JobQueueSpec
  import opened JobQueueInvariant
  import opened JobQueueScheduling
  import opened JobQueueOutcome
  import opened JobQueueEffects

  datatype AppendError = DanglingReference | Refused(reason: Rejection)

  /** If the state after a recorded transition is good, the store accepts its event. */
  lemma Acceptable(env: Env, s: State, kind: EventKind, row: Job, actor: Actor, metadata: Metadata)
    requires Inv(s) && row.id in s.jobs && SameTask(s.jobs[row.id], row)
    requires Inv(Record(env, s, kind, row, actor, metadata))
    ensures var e := NewEvent(env, s.log, kind, row, actor, metadata);
            Referenced(s.log, e) && Objection(s.jobs[row.id := row], s.log + [e], e).None?
  {
    UniqueKeyIsFree(s.jobs, row);
    RecordedIsChained(env, s, kind, row, actor, metadata);
    var e := NewEvent(env, s.log, kind, row, actor, metadata);
    assert e in Record(env, s, kind, row, actor, metadata).log;
    assert Passes(s.log + [e], e);
  }

  class JobQueue {
    const env: Env
    var jobs: Table
    var log: seq<Event>
    var limits: map<string, int>

    ghost function Model(): State
      reads this
    {
      State(jobs, log, limits)
    }

    ghost predicate Valid()
      reads this
    {
      Inv(Model()) && Exclusive(jobs)
    }

    constructor (env: Env, limits: map<string, int>)
      requires forall p :: p in limits ==> limits[p] >= 1
      ensures Valid() && Initial(Model())
      ensures this.env == env && this.limits == limits
    {
      this.env := env;
      this.limits := limits;
      jobs, log := map[], [];
    }

    /** `JobProjection.apply`: guards first, then the row is overwritten or inserted, unless the
        index finds its key in another row. */
    method Project(e: Event) returns (r: Result<(), Rejection>)
      modifies this`jobs
      ensures match Apply(old(jobs), log, e)
              case Ok(table) => r.Ok? && jobs == table
              case Err(reason) => r == Err(reason) && jobs == old(jobs)
      ensures r.Ok? <==> (e.Lifecycle? ==> Fits(old(jobs), log, e))
      ensures r.Ok? && e.Lifecycle? ==> jobs == old(jobs)[e.job.id := e.job]
    {
      if !e.Lifecycle? { return Ok(()); }
      var job := e.job;
      if job.status !in AllowedStatuses(e.kind) { return Err(WrongStatus); }
      if e.correlation.None? { return Err(NoCorrelation); }
      var source := None;
      if job.source.Some? {
        source := Find(log, job.source.value);
        if source.None? { return Err(MissingSource); }
      }
      var session := if job.session.Some? then job.session
                     else if source.None? then None else source.value.session;
      var branch := if job.branch.Some? then job.branch
                    else if source.None? then None else source.value.branch;
      if e.session != session || e.branch != branch { return Err(WrongContext); }
      if source.Some? && source.value.correlation.Some? && e.correlation != source.value.correlation {
        return Err(WrongCorrelation);
      }
      if e.kind == JobEnqueued && (e.parent != job.source || e.causation != job.source) {
        return Err(WrongCause);
      }
      if job.idempotencyKey.Some?
         && exists j | j in jobs :: j != job.id && jobs[j].idempotencyKey == job.idempotencyKey {
        return Err(KeyTaken);
      }
      jobs := jobs[job.id := job];
      r := Ok(());
    }

    /** Append one event and project it, or leave the store as it was. */
    method Append(e: Event) returns (r: Result<(), AppendError>)
      modifies this`jobs, this`log
      ensures r == if !Referenced(old(log), e) then Err(DanglingReference)
                   else match Objection(old(jobs), old(log) + [e], e)
                        case None => Ok(())
                        case Some(reason) => Err(Refused(reason))
      ensures r.Ok? ==> log == old(log) + [e] && Apply(old(jobs), log, e) == Ok(jobs)
      ensures r.Err? ==> log == old(log) && jobs == old(jobs)
    {
      if (e.parent.Some? && Find(log, e.parent.value).None?)
         || (e.causation.Some? && Find(log, e.causation.value).None?) {
        return Err(DanglingReference);
      }
      var before := log;
      log := log + [e];
      var applied := Project(e);
      if applied.Err? {
        log := before;
        return Err(Refused(applied.error));
      }
      r := Ok(());
    }

    /** Append the snapshot of a row just written to the table. The projection, run inside
        the same transaction, accepts it and writes the same row again. */
    method RecordTransition(kind: EventKind, row: Job, actor: Actor, metadata: Metadata, ghost before: State)
      returns (job: Job)
      requires before.log == log && before.limits == limits && jobs == before.jobs[row.id := row]
      requires Referenced(log, NewEvent(env, log, kind, row, actor, metadata))
      requires Objection(jobs, log + [NewEvent(env, log, kind, row, actor, metadata)],
                         NewEvent(env, log, kind, row, actor, metadata)).None?
      modifies this`jobs, this`log
      ensures Model() == Record(env, before, kind, row, actor, metadata) && job == row
    {
      job := row;
      var previous := Latest(log, job.id);
      var source := Source(log, job);
      var parent := if previous.Some? then Some(previous.value.id)
                    else if source.None? then None else Some(source.value.id);
      var correlation := if previous.Some? then previous.value.correlation else None;
      if correlation.None? && source.Some? { correlation := source.value.correlation; }
      if correlation.None? { correlation := Some(env.correlationId(|log|)); }
      var createdAt := env.clock(|log|);
      if previous.Some? && createdAt <= previous.value.createdAt {
        createdAt := previous.value.createdAt + 1;
      }
      var session := Inherit(job.session, if source.Some? then source.value.session else None);
      var branch := Inherit(job.branch, if source.Some? then source.value.branch else None);
      var e := Lifecycle(env.eventId(|log|), createdAt, session, branch, parent, parent, correlation,
                         kind, actor, job, metadata);
      assert e == NewEvent(env, log, kind, row, actor, metadata);
      var appended := Append(e);
    }

    /** Update one existing row and record it. */
    method Transition(kind: EventKind, row: Job, actor: Actor, metadata: Metadata) returns (job: Job)
      requires Inv(Model()) && row.id in jobs && SameTask(jobs[row.id], row)
      requires Inv(Record(env, Model(), kind, row, actor, metadata))
      modifies this`jobs, this`log
      ensures Model() == Record(env, old(Model()), kind, row, actor, metadata) && job == row
      ensures old(Exclusive(jobs)) && (row.status == Leased ==> old(jobs)[row.id].status == Leased) ==> Exclusive(jobs)
    {
      ghost var before := Model();
      Acceptable(env, before, kind, row, actor, metadata);
      jobs := jobs[row.id := row];
      job := RecordTransition(kind, row, actor, metadata, before);
      if row.status == Leased ==> before.jobs[row.id].status == Leased {
        OneRowQuiet(before.jobs, row);
        QuietKeepsSafety(before, Model());
      }
    }

    method FindByKey(key: Option<string>) returns (r: Option<Id>)
      requires KeysUnique(jobs)
      ensures r == Holder(jobs, key)
    {
      if key.None? { return None; }
      var holders := set j | j in jobs && jobs[j].idempotencyKey == key;
      assert forall j :: Holds(jobs, j, key.value) <==> j in holders;
      if holders == {} { return None; }
      ghost var k := SomeMember(holders);
      var j :| j in holders;
      assert SameKey(jobs, j, Holder(jobs, key).value);
      r := Some(j);
    }

    method Enqueue(a: EnqueueArgs) returns (r: Result<Job, Failure>)
      requires Valid()
      modifies this`jobs, this`log
      ensures Valid()
      ensures (Model(), r) == JobQueueSpec.Enqueue(env, old(Model()), a)
      ensures Enqueues(old(Model()), Model(), a, r)
    {
      ghost var before := Model();
      EnqueueOutcome(env, before, a);
      EnqueueKeeps(env, before, a);
      if Blank(a.kind) { return Err(InvalidArgument); }
      if a.maxAttempts < 1 { return Err(InvalidArgument); }
      if a.serialize && (a.session.None? || a.branch.None?) { return Err(InvalidArgument); }
      if a.source.Some? && Find(log, a.source.value).None? { return Err(EventNotFound); }
      var held := FindByKey(a.idempotencyKey);
      if held.Some? { return Ok(jobs[held.value]); }
      if a.id in jobs { return Err(QueueError); }
      var row := NewJob(a);
      BirthPasses(env, before, a);
      PassesAppend(log, NewEvent(env, log, JobEnqueued, row, QUEUE_ACTOR, Plain),
                   NewEvent(env, log, JobEnqueued, row, QUEUE_ACTOR, Plain));
      jobs := jobs[row.id := row];
      UniqueKeyIsFree(before.jobs, row);
      var job := RecordTransition(JobEnqueued, row, QUEUE_ACTOR, Plain, before);
      r := Ok(job);
      OneRowQuiet(before.jobs, row);
      QuietKeepsSafety(before, Model());
    }

    method Heartbeat(j: Id, worker: string, duration: Time, now: Time) returns (r: Result<Job, Failure>)
      requires Valid()
      modifies this`jobs, this`log
      ensures Valid()
      ensures (Model(), r) == JobQueueSpec.Heartbeat(env, old(Model()), j, worker, duration, now)
      ensures Heartbeats(old(Model()), Model(), j, worker, duration, now, r)
      ensures !Owns(old(jobs), j, worker) ==> r.Err? && Model() == old(Model())
    {
      ghost var before := Model();
      HeartbeatOutcome(env, before, j, worker, duration, now);
      if duration <= 0 { return Err(InvalidArgument); }
      if !Owns(jobs, j, worker) { return Err(LeaseError); }
      InvAt(before, j);
      var row := HeartbeatRow(jobs[j], duration, now);
      HeartbeatKeeps(env, before, j, worker, duration, now);
      var job := Transition(JobHeartbeat, row, Worker(worker), Plain);
      r := Ok(job);
    }

    method Complete(j: Id, worker: string, now: Time) returns (r: Result<Job, Failure>)
      requires Valid()
      modifies this`jobs, this`log
      ensures Valid()
      ensures (Model(), r) == JobQueueSpec.Complete(env, old(Model()), j, worker, now)
      ensures Completes(old(Model()), Model(), j, worker, now, r)
      ensures !Owns(old(jobs), j, worker) ==> r.Err? && Model() == old(Model())
    {
      ghost var before := Model();
      CompleteOutcome(env, before, j, worker, now);
      if j !in jobs { return Err(JobNotFound); }
      if Blank(worker) { return Err(InvalidArgument); }
      if !Owns(jobs, j, worker) { return Err(LeaseError); }
      InvAt(before, j);
      var row := CompletedRow(jobs[j], now);
      CompleteKeeps(env, before, j, worker, now);
      var job := Transition(JobCompleted, row, Worker(worker), Plain);
      r := Ok(job);
    }

    method Fail(j: Id, error: string, worker: string, retryable: bool, now: Time) returns (r: Result<Job, Failure>)
      requires Valid()
      modifies this`jobs, this`log
      ensures Valid()
      ensures (Model(), r) == JobQueueSpec.Fail(env, old(Model()), j, error, worker, retryable, now)
      ensures Fails(env, old(Model()), Model(), j, error, worker, retryable, now, r)
      ensures !Owns(old(jobs), j, worker) ==> r.Err? && Model() == old(Model())
    {
      ghost var before := Model();
      FailOutcome(env, before, j, error, worker, retryable, now);
      if j !in jobs { return Err(JobNotFound); }
      if Blank(worker) { return Err(InvalidArgument); }
      if !Owns(jobs, j, worker) { return Err(LeaseError); }
      InvAt(before, j);
      var row := FailedRow(env, jobs[j], error, retryable, now);
      FailKeeps(env, before, j, error, worker, retryable, now);
      var job := Transition(JobFailed, row, Worker(worker), Plain);
      r := Ok(job);
    }

    method Cancel(j: Id, now: Time) returns (r: Result<Job, Failure>)
      requires Valid()
      modifies this`jobs, this`log
      ensures Valid()
      ensures (Model(), r) == JobQueueSpec.Cancel(env, old(Model()), j, now)
      ensures Cancels(old(Model()), Model(), j, now, r)
    {
      ghost var before := Model();
      CancelOutcome(env, before, j, now);
      if j !in jobs { return Err(JobNotFound); }
      InvAt(before, j);
      if jobs[j].Finished() { return Ok(jobs[j]); }
      var row := CancelledRow(jobs[j], now);
      CancelKeeps(env, before, j, now);
      var job := Transition(JobCancelled, row, QUEUE_ACTOR, Plain);
      r := Ok(job);
    }

    method RetryDeadLetter(j: Id, reset: bool, now: Time) returns (r: Result<Job, Failure>)
      requires Valid()
      modifies this`jobs, this`log
      ensures Valid()
      ensures (Model(), r) == JobQueueSpec.RetryDeadLetter(env, old(Model()), j, reset, now)
      ensures Reopens(old(Model()), Model(), j, reset, now, r)
    {
      ghost var before := Model();
      RetryOutcome(env, before, j, reset, now);
      if j !in jobs { return Err(JobNotFound); }
      InvAt(before, j);
      if jobs[j].status != DeadLetter { return Err(QueueError); }
      var row := RetriedRow(jobs[j], reset, now);
      RetryKeeps(env, before, j, reset, now);
      var job := Transition(JobRetried, row, QUEUE_ACTOR, Plain);
      r := Ok(job);
    }

    method SetProviderLimit(provider: string, limit: int) returns (r: Result<(), Failure>)
      requires Valid()
      modifies this`limits
      ensures Valid()
      ensures (Model(), r) == JobQueueSpec.SetProviderLimit(old(Model()), provider, limit)
    {
      if limit < 1 { return Err(InvalidArgument); }
      limits := limits[provider := limit];
      r := Ok(());
    }

    /** One expired row: dead-letter a recovery lease, else grant recovery once, else requeue
        within the attempt budget. */
    method RequeueRow(j: Id, recover: set<Id>, now: Time)
      requires Inv(Model()) && j in jobs && jobs[j].status == Leased
      modifies this`jobs, this`log
      ensures Model() == RequeueOne(env, old(Model()), j, now, recover) && Inv(Model())
    {
      InvAt(Model(), j);
      RequeueOneKeeps(env, Model(), j, now, recover);
      var row := jobs[j];
      var exhausted := LeasedAsRecovery(log, j);
      var granted := RecoveryWasGranted(log, j);
      var grant := !exhausted && j in recover && !granted;
      var status;
      if exhausted {
        status := DeadLetter;
      } else if grant {
        status := Pending;
      } else {
        status := if row.attempts >= row.maxAttempts then DeadLetter else Pending;
      }
      var error := if exhausted then "lease expired during bounded archive recovery" else "lease expired";
      var next := row.(status := status, availableAt := now, leaseUntil := None, worker := None,
                       lastError := if row.lastError.Some? then row.lastError else Some(error), updatedAt := now);
      assert next == RequeuedRow(row, exhausted, grant, now);
      var metadata := LeaseExpired;
      if grant {
        metadata := RecoveryGranted(row.attempts, row.worker, row.leaseUntil);
      } else if exhausted {
        metadata := RecoveryExhausted;
      }
      assert metadata == RequeueMetadata(row, exhausted, grant);
      var job := Transition(JobRequeued, next, QUEUE_ACTOR, metadata);
    }

    /** Requeue or dead-letter every lease that has run out, in whatever order the query
        returns them; `scan` is that order. */
    method RequeueExpired(recover: set<Id>, now: Time) returns (count: nat, ghost scan: seq<Id>)
      requires Valid()
      modifies this`jobs, this`log
      ensures Valid()
      ensures IsScan(old(jobs), now, scan) && count == |Expired(old(jobs), now)|
      ensures Model() == RequeueAll(env, old(Model()), scan, now, recover)
      ensures Cleared(jobs, now) && jobs.Keys == old(jobs.Keys)
      ensures forall j :: j in old(jobs) ==>
                if RanOut(old(jobs)[j], now) then
                  Reclaims(History(old(log), j), old(jobs)[j], jobs[j], j in recover, now)
                else jobs[j] == old(jobs)[j]
    {
      ghost var before := Model();
      var expired := Expired(jobs, now);
      var todo := expired;
      scan, count := [], |expired|;
      while todo != {}
        invariant todo <= expired && Enumerates(scan, expired, todo)
        invariant Scanned(env, before, Model(), scan, now, recover)
        decreases todo
      {
        ghost var k := SomeMember(todo);
        var j :| j in todo;
        RequeueNext(env, before, Model(), scan, j, now, recover);
        RequeueRow(j, recover, now);
        EnumerateNext(scan, expired, todo, j);
        todo, scan := todo - {j}, scan + [j];
      }
      assert IsScan(before.jobs, now, scan);
      RequeueIsQuiet(env, before, scan, now, recover);
      QuietKeepsSafety(before, Model());
      forall j | j in before.jobs
        ensures j in jobs && if RanOut(before.jobs[j], now) then
                               Reclaims(History(before.log, j), before.jobs[j], jobs[j], j in recover, now)
                             else jobs[j] == before.jobs[j]
      {
        ScannedRow(before, Model(), scan, now, recover, j);
      }
    }

    /** Lease one candidate the loop has decided to take. */
    method TakeLease(j: Id, a: LeaseArgs, recovery: Option<Metadata>) returns (job: Job)
      requires Inv(Model()) && j in jobs && jobs[j].status == Pending
      requires recovery == PendingRecovery(log, j)
      modifies this`jobs, this`log
      ensures Model() == LeaseOne(env, old(Model()), a, j) && job == LeasedRow(old(jobs)[j], a)
    {
      InvAt(Model(), j);
      LeaseOneKeeps(env, Model(), a, j);
      job := Transition(JobLeased, LeasedRow(jobs[j], a), Worker(a.worker), LeaseMetadata(recovery));
    }

    /** One candidate: skip it if anything blocks it, else lease it. */
    method Consider(j: Id, a: LeaseArgs, leased: seq<Job>) returns (next: seq<Job>)
      requires Inv(Model()) && j in jobs && |leased| < a.limit
      modifies this`jobs, this`log
      ensures Turned(env, old(Model()), leased, a, j, Model(), next)
    {
      next := leased;
      if IsExcluded(jobs[j], a) { return; }
      var recovery := PendingRecovery(log, j);
      if recovery.Some? && !a.allowRecovery { return; }
      if !WithinLimit(State(jobs, log, limits), jobs[j], a.now) { return; }
      if !BranchAvailable(jobs, jobs[j], a.now) { return; }
      if jobs[j].status == Pending && !jobs[j].cancelRequested {
        var job := TakeLease(j, a, recovery);
        next := leased + [job];
      }
    }

    /** The turn of candidate `i`. */
    method LeaseNext(a: LeaseArgs, candidates: seq<Id>, i: nat, leased: seq<Job>, ghost before: State)
      returns (next: seq<Job>)
      requires i < |candidates| && |leased| < a.limit && AtTurn(env, before, a, candidates, i, Model(), leased)
      modifies this`jobs, this`log
      ensures AtTurn(env, before, a, candidates, i + 1, Model(), next)
    {
      ghost var s := Model();
      CandidatePresent(env, before, a, candidates, i, s, leased);
      next := Consider(candidates[i], a, leased);
      LoopTurn(env, before, a, candidates, i, s, leased, Model(), next);
    }

    /** The scheduling loop over the due candidates. */
    method LeaseCandidates(a: LeaseArgs, candidates: seq<Id>) returns (leased: seq<Job>)
      requires Inv(Model()) && forall j :: j in candidates ==> j in jobs
      modifies this`jobs, this`log
      ensures AtTurn(env, old(Model()), a, candidates, |candidates|, Model(), leased)
    {
      ghost var before := Model();
      leased := [];
      var i := 0;
      ReachedStart(env, before, a, candidates);
      while i < |candidates| && |leased| < a.limit
        invariant 0 <= i <= |candidates|
        invariant AtTurn(env, before, a, candidates, i, Model(), leased)
      {
        leased := LeaseNext(a, candidates, i, leased, before);
        i := i + 1;
      }
      if i < |candidates| {
        LimitEndsLoop(env, before, a, candidates, i, |candidates|, Model(), leased);
      }
    }

    method Lease(a: LeaseArgs) returns (r: Result<seq<Job>, Failure>, ghost scan: seq<Id>)
      requires Valid()
      modifies this`jobs, this`log
      ensures Valid()
      ensures r.Err? <==> OnlySpace(a.worker) || a.limit <= 0 || a.duration <= 0
                          || exists b :: b in a.excluded && (b.0 == [] || b.1 == [])
      ensures r.Err? ==> r == Err(InvalidArgument) && Model() == old(Model())
      ensures r.Ok? ==> IsScan(old(jobs), a.now, scan) && (Model(), r) == JobQueueSpec.Lease(env, old(Model()), a, scan)
      ensures r.Ok? ==> Hands(old(jobs), Model(), a, r.value) && LeavesOnly(Model(), a, r.value)
      ensures r.Ok? ==> LeavesRows(old(Model()), jobs, a, r.value) && KeepsLimits(old(jobs), Model())
    {
      ghost var before := Model();
      OnlySpaceIsBlank(a.worker);
      scan := [];
      if Blank(a.worker) { return Err(InvalidArgument), scan; }
      if a.limit < 1 { return Err(InvalidArgument), scan; }
      if a.duration <= 0 { return Err(InvalidArgument), scan; }
      if exists b | b in a.excluded :: b.0 == "" || b.1 == "" { return Err(InvalidArgument), scan; }
      var count;
      count, scan := RequeueExpired(a.recover, a.now);
      var candidates := Candidates(jobs, a);
      var leased := LeaseCandidates(a, candidates);
      r := Ok(leased);
      LeaseKeeps(env, before, a, scan);
      ghost var held := HeldBy(before);
      LeaseSafe(env, before, a, scan, held);
      ghost var next, taken := LeaseOutcome(env, before, a, scan);
    }

    method IsArchiveRecoveryLease(j: Id, worker: Option<string>) returns (r: bool)
      requires Valid()
      ensures CoupledAt(jobs, log, j)
      ensures r <==> j in jobs && jobs[j].status == Leased && (worker.Some? ==> jobs[j].worker == worker)
                     && Last(History(log, j)).kind == JobLeased && !Last(History(log, j)).metadata.Plain?
                     && !Last(History(log, j)).metadata.LeaseExpired?
    {
      assert CoupledAt(jobs, log, j);
      if j !in jobs || jobs[j].status != Leased { return false; }
      if worker.Some? && jobs[j].worker != worker { return false; }
      LookBack(Model(), j);
      r := LeasedAsRecovery(log, j);
    }

    /** Clear the table and replay the whole log: the table comes back as it was. */
    method Rebuild() returns (r: Result<(), Rejection>)
      requires Valid()
      modifies this`jobs
      ensures r.Ok? && jobs == old(jobs)
    {
      ghost var before := Model();
      var events := Listing(log);
      StateReplays(before, events);
      jobs := map[];
      var i := 0;
      while i < |events|
        invariant 0 <= i <= |events|
        invariant Replay(events[..i], log) == Ok(jobs)
      {
        ReplayNext(events, i, log);
        var applied := Project(events[i]);
        i := i + 1;
      }
      assert events[..i] == events;
      r := Ok(());
    }
  }

  /** One turn of the loop leads from `s` and `leased` to `t` and `next`. */
  ghost predicate Turned(env: Env, s: State, leased: seq<Job>, a: LeaseArgs, j: Id, t: State, next: seq<Job>)
    requires j in s.jobs
  {
    Turn(env, s, leased, a, j) == (t, next)
  }

  /** After `n` candidates the loop is in a good state `p`. */
  ghost predicate AtTurn(env: Env, s: State, a: LeaseArgs, candidates: seq<Id>, n: nat, p: State, leased: seq<Job>) {
    && n <= |candidates| && (forall j :: j in candidates ==> j in s.jobs)
    && Reached(env, s, a, candidates, n, p, leased) && Inv(p)
  }

  lemma ReachedStart(env: Env, s: State, a: LeaseArgs, candidates: seq<Id>)
    requires Inv(s) && forall j :: j in candidates ==> j in s.jobs
    ensures AtTurn(env, s, a, candidates, 0, s, [])
  {
  }

  lemma CandidatePresent(env: Env, s: State, a: LeaseArgs, candidates: seq<Id>, n: nat, p: State, leased: seq<Job>)
    requires n < |candidates| && forall j :: j in candidates ==> j in s.jobs
    requires Reached(env, s, a, candidates, n, p, leased)
    ensures candidates[n] in p.jobs
  {
    ReachedNext(env, s, a, candidates, n, p, leased);
  }

  lemma LoopTurn(env: Env, before: State, a: LeaseArgs, candidates: seq<Id>, n: nat, s: State, leased: seq<Job>,
                 t: State, next: seq<Job>)
    requires n < |candidates| && forall j :: j in candidates ==> j in before.jobs
    requires Reached(env, before, a, candidates, n, s, leased) && Inv(s) && candidates[n] in s.jobs
    requires Turned(env, s, leased, a, candidates[n], t, next)
    ensures Reached(env, before, a, candidates, n + 1, t, next) && Inv(t)
  {
    ReachedNext(env, before, a, candidates, n, s, leased);
    TurnKeeps(env, s, leased, a, candidates[n]);
  }

  /** Once the limit is reached the remaining candidates change nothing. */
  lemma {:induction false} LimitEndsLoop(env: Env, s: State, a: LeaseArgs, candidates: seq<Id>, i: nat, n: nat,
                                         p: State, leased: seq<Job>)
    requires i <= n <= |candidates| && |leased| >= a.limit && AtTurn(env, s, a, candidates, i, p, leased)
    ensures AtTurn(env, s, a, candidates, n, p, leased)
    decreases n
  {
    if i < n {
      LimitEndsLoop(env, s, a, candidates, i, n - 1, p, leased);
      ReachedNext(env, s, a, candidates, n - 1, p, leased);
    }
  }

  /** `scan` lists, once each, the ids of `all` that are no longer in `todo`. */
  ghost predicate Enumerates(scan: seq<Id>, all: set<Id>, todo: set<Id>) {
    && (forall i, k :: 0 <= i < k < |scan| ==> scan[i] != scan[k])
    && (forall j :: j in scan <==> j in all && j !in todo)
  }

  lemma EnumerateNext(scan: seq<Id>, all: set<Id>, todo: set<Id>, j: Id)
    requires Enumerates(scan, all, todo) && j in todo && todo <= all
    ensures Enumerates(scan + [j], all, todo - {j})
  {
    forall i, k | 0 <= i < k < |scan + [j]| ensures (scan + [j])[i] != (scan + [j])[k] {
      assert scan[i] in scan;
    }
  }

  /** `p` is `s` after the rows of `scan` have been requeued. */
  ghost predicate Scanned(env: Env, s: State, p: State, scan: seq<Id>, now: Time, recover: set<Id>) {
    && (forall j :: j in scan ==> j in s.jobs)
    && p == RequeueAll(env, s, scan, now, recover)
    && Inv(p) && Requeued(s, p, scan, now, recover)
  }

  lemma RequeueNext(env: Env, s: State, p: State, scan: seq<Id>, j: Id, now: Time, recover: set<Id>)
    requires Inv(s) && Scanned(env, s, p, scan, now, recover)
    requires j in s.jobs && s.jobs[j].status == Leased && j !in scan
    ensures j in p.jobs && p.jobs[j].status == Leased
    ensures Scanned(env, s, RequeueOne(env, p, j, now, recover), scan + [j], now, recover)
  {
    assert Untouched(s, p, j);
    RequeueTurn(env, s, p, scan, j, now, recover);
    assert (scan + [j])[..|scan|] == scan;
  }
}
