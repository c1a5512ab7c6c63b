/** Short runs, from an empty queue, that reach the states where a guarantee ends: an order broken by a
    retry, a cap broken by a new limit, a recovery lease requeued after a heartbeat. */
module JobQueueScenarios {
  import opened Common
  import opened JobContract
  import opened JobHistory
  import opened JobProjection
  import opened JobQueueSpec
  import opened JobQueueInvariant
  import opened JobQueueScheduling
  import opened JobQueueFifo

  // ------------------------------------------------------------------ building runs

  datatype Trace = Trace(states: seq<State>, ops: seq<Op>)

  /** A run that ends in `s`. */
  ghost predicate Reaches(env: Env, r: Trace, s: State) {
    Run(env, r.states, r.ops) && r.states[|r.ops|] == s && Inv(s)
  }

  lemma Started(env: Env, limits: map<string, int>) returns (r: Trace)
    requires forall p :: p in limits ==> limits[p] >= 1
    ensures Reaches(env, r, State(map[], [], limits))
  {
    r := Trace([State(map[], [], limits)], []);
    RunKeeps(env, r.states, [], 0);
  }

  lemma Extended(env: Env, r: Trace, s: State, op: Op, t: State) returns (next: Trace)
    requires Reaches(env, r, s) && Step(env, s, op, t)
    ensures Reaches(env, next, t)
  {
    next := Trace(r.states + [t], r.ops + [op]);
    forall i | 0 <= i < |next.ops| ensures Step(env, next.states[i], next.ops[i], next.states[i + 1]) {
      if i < |r.ops| { assert Step(env, r.states[i], r.ops[i], r.states[i + 1]); }
    }
    StepKeeps(env, s, op, t);
  }

  /** `t` is `s` after the row of job `j` has been written and recorded. */
  ghost predicate Wrote(s: State, t: State, j: Id, row: Job, kind: EventKind, metadata: Metadata) {
    && row.id == j && t.jobs == s.jobs[j := row] && t.limits == s.limits
    && |t.log| == |s.log| + 1 && t.log == s.log + [Last(t.log)]
    && Last(t.log).Is(kind) && Last(t.log).job == row && Last(t.log).metadata == metadata
    && History(t.log, j) == History(s.log, j) + [Last(t.log)]
    && forall i :: i != j ==> History(t.log, i) == History(s.log, i)
  }

  lemma RecordWrites(env: Env, s: State, kind: EventKind, row: Job, actor: Actor, metadata: Metadata)
    ensures Wrote(s, Record(env, s, kind, row, actor, metadata), row.id, row, kind, metadata)
  {
    HistoriesAppend(s.log, NewEvent(env, s.log, kind, row, actor, metadata));
  }

  /** How the event `e` recorded in `s` is filed, for a job without a source: under its own context, after
      the job's previous event. */
  ghost predicate Filed(env: Env, s: State, e: Event) {
    && e.Lifecycle? && e.id == env.eventId(|s.log|)
    && e.session == e.job.session && e.branch == e.job.branch
    && var h, reading := History(s.log, e.job.id), env.clock(|s.log|);
       if h == [] then
         e.parent == e.causation == None && e.correlation == Some(env.correlationId(|s.log|)) && e.createdAt == reading
       else
         && e.parent == e.causation == Some(Last(h).id) && e.correlation == Last(h).correlation
         && e.createdAt == if reading <= Last(h).createdAt then Last(h).createdAt + 1 else reading
  }

  /** A row that names its own context and no source. */
  predicate Placed(row: Job) {
    row.source.None? && row.session.Some? && row.branch.Some?
  }

  lemma RecordFiles(env: Env, s: State, kind: EventKind, row: Job, actor: Actor, metadata: Metadata)
    requires Inv(s) && Placed(row)
    ensures Filed(env, s, NewEvent(env, s.log, kind, row, actor, metadata))
  {
    LatestIsGreatest(s.log, row.id);
    HistoryMembers(s.log, row.id);
    if row.id in s.jobs {
      InvAt(s, row.id);
      PathShape(History(s.log, row.id));
      assert Last(History(s.log, row.id)) in History(s.log, row.id);
    } else {
      assert CoupledAt(s.jobs, s.log, row.id);
    }
  }

  lemma AfterEnqueue(env: Env, r: Trace, s: State, a: EnqueueArgs) returns (next: Trace, t: State)
    requires Reaches(env, r, s) && Named(a.kind) && a.maxAttempts >= 1 && a.session.Some? && a.branch.Some?
    requires a.source.None? && a.idempotencyKey.None? && a.id !in s.jobs
    ensures Reaches(env, next, t) && Wrote(s, t, a.id, NewJob(a), JobEnqueued, Plain)
    ensures Filed(env, s, Last(t.log))
  {
    NamedIsNotBlank(a.kind);
    t := Enqueue(env, s, a).0;
    RecordWrites(env, s, JobEnqueued, NewJob(a), QUEUE_ACTOR, Plain);
    RecordFiles(env, s, JobEnqueued, NewJob(a), QUEUE_ACTOR, Plain);
    next := Extended(env, r, s, EnqueueOp(a), t);
  }

  lemma OnlyOneRanked(jobs: Table, j: Id)
    requires j in jobs
    ensures Ranked(jobs, {j}) == [j]
  {
    var r := Ranked(jobs, {j});
    assert j in r;
    forall k | 0 <= k < |r| ensures r[k] == j { assert r[k] in r; }
  }

  /** A name that begins with a letter is not blank. */
  predicate Named(text: string) {
    text != "" && 'a' <= text[0] <= 'z'
  }

  lemma NamedIsNotBlank(text: string)
    requires Named(text)
    ensures !Blank(text)
  {
    assert text[0] in text;
  }

  /** The only due job is not blocked, so a lease takes it. */
  lemma AfterLease(env: Env, r: Trace, s: State, a: LeaseArgs, j: Id) returns (next: Trace, t: State)
    requires Reaches(env, r, s) && Named(a.worker) && a.limit >= 1 && a.duration > 0 && a.excluded == {}
    requires forall i :: i in s.jobs ==> !IsExpired(s.jobs[i], a.now)
    requires forall i :: i in s.jobs ==> (IsDue(s.jobs[i], a) <==> i == j)
    requires j in s.jobs && WithinLimit(s, s.jobs[j], a.now) && BranchAvailable(s.jobs, s.jobs[j], a.now)
    requires History(s.log, j) != [] && (Last(History(s.log, j)).IsGrant() ==> a.allowRecovery)
    ensures Reaches(env, next, t)
    ensures Wrote(s, t, j, LeasedRow(s.jobs[j], a), JobLeased, LeaseMetadata(UnspentGrant(Last(History(s.log, j)))))
    ensures Placed(s.jobs[j]) ==> Filed(env, s, Last(t.log))
  {
    NamedIsNotBlank(a.worker);
    LookBack(s, j);
    forall i ensures i !in Expired(s.jobs, a.now) {
      if i in s.jobs { assert !IsExpired(s.jobs[i], a.now); }
    }
    t := TakeOnly(env, s, a, j);
    next := Extended(env, r, s, LeaseOp(a, []), t);
  }

  lemma TakeOnly(env: Env, s: State, a: LeaseArgs, j: Id) returns (t: State)
    requires Inv(s) && !BadLeaseArgs(a) && Expired(s.jobs, a.now) == {}
    requires forall i :: i in s.jobs && IsDue(s.jobs[i], a) <==> i == j
    requires !Blocked(s, a, j)
    ensures Step(env, s, LeaseOp(a, []), t)
    ensures Wrote(s, t, j, LeasedRow(s.jobs[j], a), JobLeased, LeaseMetadata(PendingRecovery(s.log, j)))
    ensures Placed(s.jobs[j]) ==> Filed(env, s, Last(t.log))
  {
    t := Lease(env, s, a, []).0;
    InvAt(s, j);
    assert (set i | i in s.jobs && IsDue(s.jobs[i], a)) == {j};
    OnlyOneRanked(s.jobs, j);
    assert Candidates(s.jobs, a) == [j];
    assert LeaseUpTo(env, s, a, [j], 0) == (s, []);
    assert LeaseUpTo(env, s, a, [j], 1) == Turn(env, s, [], a, j);
    RecordWrites(env, s, JobLeased, LeasedRow(s.jobs[j], a), Worker(a.worker), LeaseMetadata(PendingRecovery(s.log, j)));
    if Placed(s.jobs[j]) {
      RecordFiles(env, s, JobLeased, LeasedRow(s.jobs[j], a), Worker(a.worker), LeaseMetadata(PendingRecovery(s.log, j)));
    }
  }

  lemma AfterFail(env: Env, r: Trace, s: State, j: Id, worker: string, now: Time) returns (next: Trace, t: State)
    requires Reaches(env, r, s) && Named(worker) && Owns(s.jobs, j, worker)
    ensures Reaches(env, next, t)
    ensures Wrote(s, t, j, FailedRow(env, s.jobs[j], "failed", false, now), JobFailed, Plain)
    ensures Placed(s.jobs[j]) ==> Filed(env, s, Last(t.log))
  {
    InvAt(s, j);
    NamedIsNotBlank(worker);
    t := Fail(env, s, j, "failed", worker, false, now).0;
    RecordWrites(env, s, JobFailed, FailedRow(env, s.jobs[j], "failed", false, now), Worker(worker), Plain);
    if Placed(s.jobs[j]) {
      RecordFiles(env, s, JobFailed, FailedRow(env, s.jobs[j], "failed", false, now), Worker(worker), Plain);
    }
    next := Extended(env, r, s, FailOp(j, "failed", worker, false, now), t);
  }

  lemma AfterComplete(env: Env, r: Trace, s: State, j: Id, worker: string, now: Time) returns (next: Trace, t: State)
    requires Reaches(env, r, s) && Named(worker) && Owns(s.jobs, j, worker)
    ensures Reaches(env, next, t)
    ensures Wrote(s, t, j, CompletedRow(s.jobs[j], now), JobCompleted, Plain)
    ensures Placed(s.jobs[j]) ==> Filed(env, s, Last(t.log))
  {
    InvAt(s, j);
    NamedIsNotBlank(worker);
    t := Complete(env, s, j, worker, now).0;
    RecordWrites(env, s, JobCompleted, CompletedRow(s.jobs[j], now), Worker(worker), Plain);
    if Placed(s.jobs[j]) { RecordFiles(env, s, JobCompleted, CompletedRow(s.jobs[j], now), Worker(worker), Plain); }
    next := Extended(env, r, s, CompleteOp(j, worker, now), t);
  }

  lemma AfterRetry(env: Env, r: Trace, s: State, j: Id, now: Time) returns (next: Trace, t: State)
    requires Reaches(env, r, s) && j in s.jobs && s.jobs[j].status == DeadLetter
    ensures Reaches(env, next, t)
    ensures Wrote(s, t, j, RetriedRow(s.jobs[j], false, now), JobRetried, Plain)
    ensures Placed(s.jobs[j]) ==> Filed(env, s, Last(t.log))
  {
    InvAt(s, j);
    t := RetryDeadLetter(env, s, j, false, now).0;
    RecordWrites(env, s, JobRetried, RetriedRow(s.jobs[j], false, now), QUEUE_ACTOR, Plain);
    if Placed(s.jobs[j]) { RecordFiles(env, s, JobRetried, RetriedRow(s.jobs[j], false, now), QUEUE_ACTOR, Plain); }
    next := Extended(env, r, s, RetryOp(j, false, now), t);
  }

  lemma AfterHeartbeat(env: Env, r: Trace, s: State, j: Id, worker: string, duration: Time, now: Time) returns (next: Trace, t: State)
    requires Reaches(env, r, s) && Owns(s.jobs, j, worker) && duration > 0
    ensures Reaches(env, next, t)
    ensures Wrote(s, t, j, HeartbeatRow(s.jobs[j], duration, now), JobHeartbeat, Plain)
  {
    InvAt(s, j);
    t := Heartbeat(env, s, j, worker, duration, now).0;
    RecordWrites(env, s, JobHeartbeat, HeartbeatRow(s.jobs[j], duration, now), Worker(worker), Plain);
    next := Extended(env, r, s, HeartbeatOp(j, worker, duration, now), t);
  }

  lemma AfterRequeue(env: Env, r: Trace, s: State, j: Id, now: Time, recover: set<Id>) returns (next: Trace, t: State)
    requires Reaches(env, r, s) && j in s.jobs && History(s.log, j) != []
    requires forall i :: i in s.jobs ==> (IsExpired(s.jobs[i], now) <==> i == j)
    ensures Reaches(env, next, t)
    ensures var exhausted := Last(History(s.log, j)).IsRecoveryLease();
            var grant := !exhausted && j in recover && forall e :: e in History(s.log, j) ==> !e.CarriesRecovery();
            Wrote(s, t, j, RequeuedRow(s.jobs[j], exhausted, grant, now), JobRequeued,
                  RequeueMetadata(s.jobs[j], exhausted, grant))
  {
    LookBack(s, j);
    t := RequeueAll(env, s, [j], now, recover);
    OneRequeued(env, s, j, now, recover);
    next := Extended(env, r, s, RequeueOp(recover, now, [j]), t);
  }

  lemma OneRequeued(env: Env, s: State, j: Id, now: Time, recover: set<Id>)
    requires Inv(s) && j in s.jobs && forall i :: i in s.jobs ==> (IsExpired(s.jobs[i], now) <==> i == j)
    ensures IsScan(s.jobs, now, [j])
    ensures var exhausted, grant := LeasedAsRecovery(s.log, j), GrantsRecovery(s.log, j, recover);
            Wrote(s, RequeueAll(env, s, [j], now, recover), j, RequeuedRow(s.jobs[j], exhausted, grant, now),
                  JobRequeued, RequeueMetadata(s.jobs[j], exhausted, grant))
  {
    InvAt(s, j);
    assert [j][..0] == [];
    assert RequeueAll(env, s, [], now, recover) == s;
    var exhausted, grant := LeasedAsRecovery(s.log, j), GrantsRecovery(s.log, j, recover);
    RecordWrites(env, s, JobRequeued, RequeuedRow(s.jobs[j], exhausted, grant, now), QUEUE_ACTOR,
                 RequeueMetadata(s.jobs[j], exhausted, grant));
  }

  function Task(id: Id, kind: string, provider: Option<string>, serialize: bool, maxAttempts: int, now: Time)
    : EnqueueArgs
  {
    EnqueueArgs(id, kind, "", None, None, None, 0, provider, Some("session"), Some("branch"), serialize, maxAttempts, now)
  }

  function Worked(kind: string, allowRecovery: bool, now: Time): LeaseArgs {
    LeaseArgs("w", 1, 10, [kind], {}, {}, allowRecovery, now)
  }

  // ---------------------------------------------------------------- the three failures

  /** Job 1 is enqueued. */
  lemma FirstEnqueue(env: Env, limits: map<string, int>, task: EnqueueArgs) returns (r: Trace, s: State)
    requires task == Task(1, "x", task.provider, task.serialize, task.maxAttempts, 0) && task.maxAttempts >= 1
    requires forall p :: p in limits ==> limits[p] >= 1
    ensures Reaches(env, r, s) && s.limits == limits && s.jobs == map[1 := NewJob(task)]
    ensures var h := History(s.log, 1); |h| == 1 && h[0].Is(JobEnqueued) && h[0].metadata == Plain
  {
    s := State(map[], [], limits);
    r := Started(env, limits);
    r, s := AfterEnqueue(env, r, s, task);
  }

  lemma NothingActive(s: State, j: Id, now: Time)
    requires s.jobs.Keys == {j} && s.jobs[j].status == Pending
    requires forall p :: p in s.limits ==> s.limits[p] >= 1
    ensures WithinLimit(s, s.jobs[j], now)
  {
    var p := s.jobs[j].provider;
    if p.Some? { assert ActiveOf(s.jobs, p.value, now) == {}; }
  }

  /** It is leased at instant 1 until instant 11. */
  lemma FirstLease(env: Env, limits: map<string, int>, task: EnqueueArgs) returns (r: Trace, s: State)
    requires task == Task(1, "x", task.provider, task.serialize, task.maxAttempts, 0) && task.maxAttempts >= 1
    requires forall p :: p in limits ==> limits[p] >= 1
    ensures Reaches(env, r, s) && s.limits == limits
    ensures s.jobs == map[1 := LeasedRow(NewJob(task), Worked("x", false, 1))]
    ensures var h := History(s.log, 1);
            |h| == 2 && h[0].Is(JobEnqueued) && h[1].Is(JobLeased) && h[0].metadata == h[1].metadata == Plain
  {
    r, s := FirstEnqueue(env, limits, task);
    NothingActive(s, 1, 1);
    r, s := AfterLease(env, r, s, Worked("x", false, 1), 1);
  }

  /** Job 1, serialized, is leased once and dead-lettered at instant 2. */
  lemma DeadLettered(env: Env) returns (r: Trace, s: State)
    ensures Reaches(env, r, s) && s.limits == map[]
    ensures s.jobs.Keys == {1} && s.jobs[1].status == DeadLetter && SameTask(NewJob(Task(1, "x", None, true, 1, 0)), s.jobs[1])
  {
    r, s := FirstLease(env, map[], Task(1, "x", None, true, 1, 0));
    r, s := AfterFail(env, r, s, 1, "w", 2);
  }

  /** Then job 2 of the same branch is enqueued at instant 3 and leased. */
  lemma LaterStarted(env: Env) returns (r: Trace, s: State)
    ensures Reaches(env, r, s)
    ensures s.jobs.Keys == {1, 2} && s.jobs[1].status == DeadLetter && s.jobs[2].status == Leased
    ensures IsEarlierInLane(s.jobs[1], s.jobs[2]) && s.jobs[2].serialize && s.jobs[2].attempts == 1
  {
    r, s := DeadLettered(env);
    r, s := AfterEnqueue(env, r, s, Task(2, "y", None, true, 1, 3));
    r, s := AfterLease(env, r, s, Worked("y", false, 4), 2);
  }

  /** A retry breaks the order: an earlier job is pending while a later one has started. */
  lemma RetryBreaksTheOrder(env: Env) returns (r: Trace, s: State)
    ensures Reaches(env, r, s) && !Orderly(s.jobs)
    ensures 1 in s.jobs && 2 in s.jobs && IsEarlierInLane(s.jobs[1], s.jobs[2])
    ensures s.jobs[1].status == Pending && s.jobs[2].status == Leased
  {
    r, s := LaterStarted(env);
    r, s := AfterRetry(env, r, s, 1, 5);
    assert !InOrder(s.jobs[1], s.jobs[2]);
  }

  /** Job 1 is leased and job 2 of the same provider waits. */
  lemma OneLeased(env: Env) returns (r: Trace, s: State)
    ensures Reaches(env, r, s) && s.limits == map["p" := 2] && s.jobs.Keys == {1, 2}
    ensures s.jobs[1].status == Leased && s.jobs[1].leaseUntil == Some(11) && s.jobs[1].provider == Some("p")
    ensures s.jobs[2] == NewJob(Task(2, "y", Some("p"), false, 1, 2))
    ensures History(s.log, 2) != [] && !Last(History(s.log, 2)).IsGrant()
  {
    r, s := FirstLease(env, map["p" := 2], Task(1, "x", Some("p"), false, 1, 0));
    r, s := AfterEnqueue(env, r, s, Task(2, "y", Some("p"), false, 1, 2));
  }

  /** Both are leased, as the limit of two allows. */
  lemma BothLeased(env: Env) returns (r: Trace, s: State)
    ensures Reaches(env, r, s) && s.limits == map["p" := 2] && LeasedOf(s.jobs, "p") == {1, 2}
  {
    r, s := OneLeased(env);
    assert ActiveOf(s.jobs, "p", 3) == {1};
    r, s := AfterLease(env, r, s, Worked("y", false, 3), 2);
  }

  /** A new limit breaks the cap: two leases are held when the limit falls to one. */
  lemma NewLimitBreaksTheCap(env: Env) returns (r: Trace, s: State)
    ensures Reaches(env, r, s) && !WithinCaps(s)
    ensures "p" in s.limits && s.limits["p"] == 1 && LeasedOf(s.jobs, "p") == {1, 2}
  {
    r, s := BothLeased(env);
    var t := SetProviderLimit(s, "p", 1).0;
    r := Extended(env, r, s, LimitOp("p", 1), t);
    s := t;
  }

  /** The lease of job 1 runs out and its one recovery is granted at instant 20. */
  lemma Granted(env: Env) returns (r: Trace, s: State)
    ensures Reaches(env, r, s) && s.jobs.Keys == {1}
    ensures var row := s.jobs[1];
            row.status == Pending && row.availableAt == 20 && row.attempts == 1 && row.maxAttempts == 3
            && row.kind == "x" && row.provider.None? && !row.serialize && !row.cancelRequested
    ensures History(s.log, 1) != [] && Last(History(s.log, 1)).IsGrant()
  {
    r, s := FirstLease(env, map[], Task(1, "x", None, false, 3, 0));
    r, s := AfterRequeue(env, r, s, 1, 20, {1});
  }

  /** The recovery lease is taken at instant 21. */
  lemma RecoveryLeased(env: Env) returns (r: Trace, s: State)
    ensures Reaches(env, r, s) && s.jobs.Keys == {1} && Owns(s.jobs, 1, "w")
    ensures s.jobs[1].attempts == 2 && s.jobs[1].maxAttempts == 3
    ensures s.log != [] && Last(s.log).IsRecoveryLease() && Last(s.log).Concerns(1)
    ensures var h := History(s.log, 1); |h| >= 2 && h[|h| - 2].IsGrant()
  {
    r, s := Granted(env);
    r, s := AfterLease(env, r, s, Worked("x", true, 21), 1);
  }

  /** It is extended by a heartbeat until instant 27. */
  lemma RecoveryExtended(env: Env) returns (r: Trace, s: State, m: nat)
    ensures Reaches(env, r, s) && s.jobs.Keys == {1} && m < |s.log|
    ensures s.log[m].IsRecoveryLease() && s.log[m].Concerns(1)
    ensures var row := s.jobs[1];
            row.status == Leased && row.leaseUntil == Some(27) && row.attempts == 2 && row.maxAttempts == 3
    ensures var h := History(s.log, 1);
            |h| >= 3 && h[|h| - 3].IsGrant() && Last(h).Is(JobHeartbeat)
  {
    r, s := RecoveryLeased(env);
    m := |s.log| - 1;
    r, s := AfterHeartbeat(env, r, s, 1, "w", 5, 22);
  }

  /** A heartbeat breaks the recovery bound: when the recovery lease runs out, the job is pending again. */
  lemma HeartbeatBreaksTheBound(env: Env) returns (r: Trace, s: State, m: nat)
    ensures Reaches(env, r, s)
    ensures m < |s.log| - 1 && s.log[m].IsRecoveryLease() && s.log[m].Concerns(1)
    ensures Last(s.log).Concerns(1) && Last(s.log).Is(JobRequeued) && Last(s.log).Leaves(Pending)
    ensures 1 in s.jobs && s.jobs[1].status == Pending
  {
    r, s, m := RecoveryExtended(env);
    ghost var h := History(s.log, 1);
    assert h[|h| - 3] in h && h[|h| - 3].CarriesRecovery();
    var before := s.log;
    r, s := AfterRequeue(env, r, s, 1, 40, {});
    assert s.log[m] == before[m];
  }

  // ------------------------------------------------------------- a clock that falls back

  /** A clock that shows these readings, one for each event. */
  function Clocked(readings: seq<Time>): Env {
    Env((n: nat) => if n < |readings| then readings[n] else 0, (n: nat) => n + 1, (n: nat) => 9, 0, 0)
  }

  /** The checkpoint that opens the session. */
  const OPENING := Other(1, 5, Some("session"), Some("branch"), None, None, Some(9))

  /** An event of the worker job 7, the only job there is. */
  ghost predicate OfJob7(e: Event, id: Id, kind: EventKind, createdAt: Time, updatedAt: Time, status: JobStatus,
                         parent: Option<Id>)
  {
    && e.Is(kind) && e.id == id && e.createdAt == createdAt && e.job.updatedAt == updatedAt && e.job.status == status
    && e.session == e.job.session == Some("session") && e.branch == e.job.branch == Some("branch")
    && e.parent == e.causation == parent && e.correlation == Some(9)
    && e.job.id == 7 && e.job.kind == "worker.run" && e.job.source.None? && e.job.idempotencyKey.None?
  }

  /** The session is opened, and the job enqueued at instant 10. */
  lemma Opened(env: Env) returns (r: Trace, s: State)
    requires env.eventId(1) == 2 && env.correlationId(1) == 9 && env.clock(1) == 10
    ensures Reaches(env, r, s) && |s.log| == 2 && s.log[0] == OPENING
    ensures OfJob7(s.log[1], 2, JobEnqueued, 10, 10, Pending, None) && s.log[1].metadata == Plain
    ensures s.jobs == map[7 := NewJob(Task(7, "worker.run", None, false, 1, 10))] && History(s.log, 7) == s.log[1..]
  {
    r := Started(env, map[]);
    s := State(map[], [OPENING], map[]);
    r := Extended(env, r, State(map[], [], map[]), OutsideOp(OPENING), s);
    assert History([OPENING][..0], 7) == [] && History([OPENING], 7) == [];
    r, s := AfterEnqueue(env, r, s, Task(7, "worker.run", None, false, 1, 10));
    assert History(s.log, 7) == s.log[1..];
  }

  /** It is leased when the clock shows `at`. */
  lemma OpenedAndLeased(env: Env, at: Time) returns (r: Trace, s: State)
    requires env.eventId(1) == 2 && env.correlationId(1) == 9 && env.clock(1) == 10
    requires env.eventId(2) == 3 && env.clock(2) == at > 10
    ensures Reaches(env, r, s) && |s.log| == 3 && s.log[0] == OPENING
    ensures OfJob7(s.log[1], 2, JobEnqueued, 10, 10, Pending, None)
    ensures OfJob7(s.log[2], 3, JobLeased, at, at, JobStatus.Leased, Some(2))
    ensures s.jobs.Keys == {7} && Owns(s.jobs, 7, "w") && s.jobs[7] == s.log[2].job && History(s.log, 7) == s.log[1..]
  {
    r, s := Opened(env);
    var log := s.log;
    r, s := AfterLease(env, r, s, Worked("worker.run", false, at), 7);
    assert s.log[0] == log[0] && s.log[1] == log[1];
  }

  const SLOW := Clocked([0, 10, 20, 100, 50])

  lemma SlowFail() returns (r: Trace, s: State)
    ensures Reaches(SLOW, r, s) && |s.log| == 4 && s.log[0] == OPENING
    ensures OfJob7(s.log[1], 2, JobEnqueued, 10, 10, Pending, None)
    ensures OfJob7(s.log[2], 3, JobLeased, 20, 20, JobStatus.Leased, Some(2))
    ensures OfJob7(s.log[3], 4, JobFailed, 100, 100, DeadLetter, Some(3))
    ensures s.jobs.Keys == {7} && s.jobs[7] == s.log[3].job && History(s.log, 7) == s.log[1..]
  {
    r, s := OpenedAndLeased(SLOW, 20);
    var log := s.log;
    r, s := AfterFail(SLOW, r, s, 7, "w", 100);
    assert s.log[0] == log[0] && s.log[1] == log[1] && s.log[2] == log[2];
  }

  /** A run that dead-letters a worker job at instant 100 and retries it when the clock shows 50: the retry
      is created after the failure and updated before it. */
  lemma SlowRetry() returns (r: Trace, s: State)
    ensures Reaches(SLOW, r, s) && |s.log| == 5 && s.log[0] == OPENING
    ensures OfJob7(s.log[1], 2, JobEnqueued, 10, 10, Pending, None)
    ensures OfJob7(s.log[2], 3, JobLeased, 20, 20, JobStatus.Leased, Some(2))
    ensures OfJob7(s.log[3], 4, JobFailed, 100, 100, DeadLetter, Some(3))
    ensures OfJob7(s.log[4], 5, JobRetried, 101, 50, Pending, Some(4))
  {
    r, s := SlowFail();
    var log := s.log;
    r, s := AfterRetry(SLOW, r, s, 7, 50);
    assert s.log[0] == log[0] && s.log[1] == log[1] && s.log[2] == log[2] && s.log[3] == log[3];
  }

  const FALLEN := Clocked([0, 10, 100, 50])

  /** A run that leases a worker job at instant 100 and completes it when the clock shows 50: the completion
      is created after the lease and updated before it. */
  lemma SlowCompletion() returns (r: Trace, s: State)
    ensures Reaches(FALLEN, r, s) && |s.log| == 4 && s.log[0] == OPENING
    ensures OfJob7(s.log[1], 2, JobEnqueued, 10, 10, Pending, None)
    ensures OfJob7(s.log[2], 3, JobLeased, 100, 100, JobStatus.Leased, Some(2))
    ensures OfJob7(s.log[3], 4, JobCompleted, 101, 50, Completed, Some(3))
    ensures 7 in s.jobs && s.jobs[7].status == Completed
  {
    r, s := OpenedAndLeased(FALLEN, 100);
    var log := s.log;
    r, s := AfterComplete(FALLEN, r, s, 7, "w", 50);
    assert s.log[0] == log[0] && s.log[1] == log[1] && s.log[2] == log[2];
  }
}
