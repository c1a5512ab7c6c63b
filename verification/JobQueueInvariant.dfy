/** What every queue operation keeps, and what follows for every run. */
module JobQueueInvariant {
  import opened Common
  import opened Sorting
  import opened JobContract
  import opened JobHistory
  import opened JobProjection
  import opened JobQueueSpec

  /** The table has job `j` if the log speaks of it; its row is its last snapshot, and its
      events are a path of the lifecycle automaton. */
  ghost predicate CoupledAt(jobs: Table, log: seq<Event>, j: Id) {
    var h := History(log, j);
    if j in jobs then Path(h) && Last(h).job == jobs[j] else h == []
  }

  ghost predicate Coupled(s: State) {
    forall j :: CoupledAt(s.jobs, s.log, j)
  }

  ghost predicate SameKey(jobs: Table, i: Id, j: Id) {
    i in jobs && j in jobs && jobs[i].idempotencyKey.Some? && jobs[i].idempotencyKey == jobs[j].idempotencyKey
  }

  /** An idempotency key belongs to one row. */
  ghost predicate KeysUnique(jobs: Table) {
    forall i, j :: SameKey(jobs, i, j) ==> i == j
  }

  ghost predicate Inv(s: State) {
    && Coupled(s)
    && AllPass(s.log, s.log)
    && KeysUnique(s.jobs)
  }

  lemma InvAt(s: State, j: Id)
    requires Inv(s) && j in s.jobs
    ensures CoupledAt(s.jobs, s.log, j)
    ensures Path(History(s.log, j)) && Last(History(s.log, j)).job == s.jobs[j]
    ensures Last(History(s.log, j)) in s.log && Last(History(s.log, j)).Concerns(j)
    ensures Latest(s.log, j) == Some(Last(History(s.log, j)))
    ensures s.jobs[j].id == j && RowShape(s.jobs[j])
  {
    assert CoupledAt(s.jobs, s.log, j);
    LatestIsLast(s.log, j);
    HistoryMembers(s.log, j);
    PathShape(History(s.log, j));
    assert Last(History(s.log, j)) in History(s.log, j);
  }

  /** A recorded event is later than, and caused by, the job's previous one. */
  lemma RecordedIsChained(env: Env, s: State, kind: EventKind, row: Job, actor: Actor, metadata: Metadata)
    requires Inv(s) && row.id in s.jobs && SameTask(s.jobs[row.id], row)
    ensures CoupledAt(s.jobs, s.log, row.id)
    ensures var e := NewEvent(env, s.log, kind, row, actor, metadata);
            Chained(Last(History(s.log, row.id)), e) && Referenced(s.log, e)
  {
    InvAt(s, row.id);
    var p := Last(History(s.log, row.id));
    PathShape(History(s.log, row.id));
    assert p in History(s.log, row.id);
    assert Passes(s.log, p);
    FoundById(s.log, p);
  }

  lemma FoundById(log: seq<Event>, e: Event)
    requires e in log
    ensures Find(log, e.id).Some?
  {
    FindMembers(log, e.id);
  }

  /** A recorded event passes all of the projection's guards. */
  lemma RecordedPasses(env: Env, s: State, kind: EventKind, row: Job, actor: Actor, metadata: Metadata)
    requires Inv(s) && row.id in s.jobs && SameTask(s.jobs[row.id], row)
    requires row.status in AllowedStatuses(kind) && kind != JobEnqueued
    ensures Passes(s.log, NewEvent(env, s.log, kind, row, actor, metadata))
  {
    InvAt(s, row.id);
    RecordedIsChained(env, s, kind, row, actor, metadata);
    var p := Last(History(s.log, row.id));
    PathShape(History(s.log, row.id));
    assert p in History(s.log, row.id);
    assert Passes(s.log, p);
    assert Check(s.log, p).None?;
  }

  lemma PassesAppend(log: seq<Event>, e: Event, x: Event)
    requires Passes(log, x)
    ensures Passes(log + [e], x)
  {
    if x.Lifecycle? && x.job.source.Some? {
      FindAppend(log, e, x.job.source.value);
    }
  }

  lemma AllPassAppend(log: seq<Event>, e: Event)
    requires AllPass(log, log)
    requires Passes(log, e)
    ensures AllPass(log + [e], log + [e])
  {
    forall x | x in log + [e] ensures Passes(log + [e], x) {
      assert x == e || (x in log && Passes(log, x));
      PassesAppend(log, e, x);
    }
  }

  lemma HistoriesAppend(log: seq<Event>, e: Event)
    ensures forall j :: History(log + [e], j) == if e.Concerns(j) then History(log, j) + [e] else History(log, j)
  {
    forall j ensures History(log + [e], j) == if e.Concerns(j) then History(log, j) + [e] else History(log, j) {
      HistoryAppend(log, e, j);
    }
  }

  /** Adding one event with its row to a coupled state leaves it coupled. */
  lemma CoupledAppend(s: State, e: Event)
    requires Coupled(s) && e.Lifecycle?
    requires var h := History(s.log, e.job.id); Path(h + [e])
    ensures Coupled(s.(jobs := s.jobs[e.job.id := e.job], log := s.log + [e]))
  {
    var t := s.(jobs := s.jobs[e.job.id := e.job], log := s.log + [e]);
    HistoriesAppend(s.log, e);
    forall j ensures CoupledAt(t.jobs, t.log, j) {
      assert CoupledAt(s.jobs, s.log, j);
    }
  }

  /** Appending one legal event for a job keeps the invariant and touches no other job. */
  lemma RecordKeeps(env: Env, s: State, kind: EventKind, row: Job, actor: Actor, metadata: Metadata)
    requires Inv(s) && row.id in s.jobs
    requires History(s.log, row.id) != [] && Last(History(s.log, row.id)).Lifecycle?
    requires Moves(History(s.log, row.id), kind, row, actor, metadata)
    ensures Inv(Record(env, s, kind, row, actor, metadata))
    ensures Passes(s.log, NewEvent(env, s.log, kind, row, actor, metadata))
    ensures Referenced(s.log, NewEvent(env, s.log, kind, row, actor, metadata))
  {
    var e := NewEvent(env, s.log, kind, row, actor, metadata);
    var h := History(s.log, row.id);
    InvAt(s, row.id);
    MovesKeepTask(h, kind, row, actor, metadata);
    RecordedIsChained(env, s, kind, row, actor, metadata);
    RecordedPasses(env, s, kind, row, actor, metadata);
    PathExtends(h, e);
    CoupledAppend(s, e);
    AllPassAppend(s.log, e);
    OldKeyUnique(s.jobs, row);
  }

  lemma OutsideKeeps(s: State, e: Event)
    requires Inv(s) && e.Other?
    ensures Inv(s.(log := s.log + [e]))
    ensures forall j :: History(s.log + [e], j) == History(s.log, j)
  {
    HistoriesAppend(s.log, e);
    AllPassAppend(s.log, e);
    var t := s.(log := s.log + [e]);
    forall j ensures CoupledAt(t.jobs, t.log, j) {
      assert CoupledAt(s.jobs, s.log, j);
    }
  }

  /** A new row's event is caused by its source and passes every guard. */
  lemma BirthPasses(env: Env, s: State, a: EnqueueArgs)
    requires Inv(s) && a.id !in s.jobs && a.maxAttempts >= 1
    requires a.serialize ==> a.session.Some? && a.branch.Some?
    requires a.source.Some? ==> Find(s.log, a.source.value).Some?
    ensures var e := NewEvent(env, s.log, JobEnqueued, NewJob(a), QUEUE_ACTOR, Plain);
            Birth(e) && Passes(s.log, e) && Referenced(s.log, e)
  {
    assert CoupledAt(s.jobs, s.log, a.id);
    HistoryMembers(s.log, a.id);
    LatestIsGreatest(s.log, a.id);
    if a.source.Some? { FindMembers(s.log, a.source.value); }
  }

  lemma NewKeyUnique(jobs: Table, row: Job)
    requires KeysUnique(jobs)
    requires row.idempotencyKey.Some? ==> forall j :: !Holds(jobs, j, row.idempotencyKey.value)
    ensures KeysUnique(jobs[row.id := row])
  {
    var t := jobs[row.id := row];
    forall i, j | SameKey(t, i, j) ensures i == j {
      if i == row.id && j != row.id {
        assert !Holds(jobs, j, row.idempotencyKey.value);
      } else if j == row.id && i != row.id {
        assert !Holds(jobs, i, row.idempotencyKey.value);
      } else if i != row.id {
        assert SameKey(jobs, i, j);
      }
    }
  }

  lemma OldKeyUnique(jobs: Table, row: Job)
    requires KeysUnique(jobs) && row.id in jobs && jobs[row.id].idempotencyKey == row.idempotencyKey
    ensures KeysUnique(jobs[row.id := row])
  {
    var next := jobs[row.id := row];
    forall i, j | SameKey(next, i, j) ensures i == j {
      assert SameKey(jobs, i, j);
    }
  }

  /** Where keys are unique, the projection finds the key of a row free. */
  lemma UniqueKeyIsFree(jobs: Table, row: Job)
    requires KeysUnique(jobs[row.id := row])
    ensures !KeyHeldByOther(jobs[row.id := row], row)
  {
    var next := jobs[row.id := row];
    forall j | j in next && j != row.id && row.idempotencyKey.Some?
      ensures next[j].idempotencyKey != row.idempotencyKey
    {
      assert !SameKey(next, j, row.id);
    }
  }

  lemma BirthKeeps(env: Env, s: State, a: EnqueueArgs)
    requires Inv(s) && a.id !in s.jobs && a.maxAttempts >= 1
    requires a.serialize ==> a.session.Some? && a.branch.Some?
    requires a.source.Some? ==> Find(s.log, a.source.value).Some?
    requires a.idempotencyKey.Some? ==> forall j :: !Holds(s.jobs, j, a.idempotencyKey.value)
    ensures Inv(Record(env, s, JobEnqueued, NewJob(a), QUEUE_ACTOR, Plain))
  {
    var e := NewEvent(env, s.log, JobEnqueued, NewJob(a), QUEUE_ACTOR, Plain);
    BirthPasses(env, s, a);
    assert CoupledAt(s.jobs, s.log, a.id);
    assert History(s.log, a.id) + [e] == [e];
    CoupledAppend(s, e);
    AllPassAppend(s.log, e);
    NewKeyUnique(s.jobs, NewJob(a));
  }

  // --------------------------------------------------------- operation by operation

  lemma EnqueueKeeps(env: Env, s: State, a: EnqueueArgs)
    requires Inv(s)
    ensures Inv(Enqueue(env, s, a).0)
  {
    if Enqueue(env, s, a).0 != s {
      BirthKeeps(env, s, a);
    }
  }

  lemma HeartbeatKeeps(env: Env, s: State, j: Id, worker: string, duration: Time, now: Time)
    requires Inv(s) && Owns(s.jobs, j, worker)
    ensures Inv(Record(env, s, JobHeartbeat, HeartbeatRow(s.jobs[j], duration, now), Worker(worker), Plain))
  {
    InvAt(s, j);
    var row := HeartbeatRow(s.jobs[j], duration, now);
    HeartbeatMoves(History(s.log, j), worker, row);
    RecordKeeps(env, s, JobHeartbeat, row, Worker(worker), Plain);
  }

  lemma HeartbeatMoves(h: seq<Event>, worker: string, row: Job)
    requires h != [] && Last(h).Leaves(Leased) && Last(h).job.worker == Some(worker) && row.leaseUntil.Some?
    requires row == Last(h).job.(leaseUntil := row.leaseUntil, updatedAt := row.updatedAt)
    ensures Moves(h, JobHeartbeat, row, Worker(worker), Plain)
  {
  }

  lemma CompleteKeeps(env: Env, s: State, j: Id, worker: string, now: Time)
    requires Inv(s) && Owns(s.jobs, j, worker)
    ensures Inv(Record(env, s, JobCompleted, CompletedRow(s.jobs[j], now), Worker(worker), Plain))
  {
    InvAt(s, j);
    RecordKeeps(env, s, JobCompleted, CompletedRow(s.jobs[j], now), Worker(worker), Plain);
  }

  lemma FailKeeps(env: Env, s: State, j: Id, error: string, worker: string, retryable: bool, now: Time)
    requires Inv(s) && Owns(s.jobs, j, worker)
    ensures Inv(Record(env, s, JobFailed, FailedRow(env, s.jobs[j], error, retryable, now), Worker(worker), Plain))
  {
    InvAt(s, j);
    RecordKeeps(env, s, JobFailed, FailedRow(env, s.jobs[j], error, retryable, now), Worker(worker), Plain);
  }

  lemma CancelKeeps(env: Env, s: State, j: Id, now: Time)
    requires Inv(s) && j in s.jobs && !s.jobs[j].Finished()
    ensures Inv(Record(env, s, JobCancelled, CancelledRow(s.jobs[j], now), QUEUE_ACTOR, Plain))
  {
    InvAt(s, j);
    RecordKeeps(env, s, JobCancelled, CancelledRow(s.jobs[j], now), QUEUE_ACTOR, Plain);
  }

  lemma RetryKeeps(env: Env, s: State, j: Id, reset: bool, now: Time)
    requires Inv(s) && j in s.jobs && s.jobs[j].status == DeadLetter
    ensures Inv(Record(env, s, JobRetried, RetriedRow(s.jobs[j], reset, now), QUEUE_ACTOR, Plain))
  {
    InvAt(s, j);
    RecordKeeps(env, s, JobRetried, RetriedRow(s.jobs[j], reset, now), QUEUE_ACTOR, Plain);
  }

  /** Where a requeue looks back through the log, only the job's own history matters. */
  lemma LookBack(s: State, j: Id)
    requires Inv(s) && j in s.jobs
    ensures CoupledAt(s.jobs, s.log, j)
    ensures LeasedAsRecovery(s.log, j) == Last(History(s.log, j)).IsRecoveryLease()
    ensures RecoveryWasGranted(s.log, j) == exists e :: e in History(s.log, j) && e.CarriesRecovery()
    ensures PendingRecovery(s.log, j) == UnspentGrant(Last(History(s.log, j)))
  {
    InvAt(s, j);
    HistoryMembers(s.log, j);
  }

  lemma RequeueOneKeeps(env: Env, s: State, j: Id, now: Time, recover: set<Id>)
    requires Inv(s) && j in s.jobs && s.jobs[j].status == Leased
    ensures Inv(RequeueOne(env, s, j, now, recover))
  {
    InvAt(s, j);
    LookBack(s, j);
    var row := s.jobs[j];
    var exhausted := LeasedAsRecovery(s.log, j);
    var grant := GrantsRecovery(s.log, j, recover);
    RecordKeeps(env, s, JobRequeued, RequeuedRow(row, exhausted, grant, now), QUEUE_ACTOR,
                RequeueMetadata(row, exhausted, grant));
  }

  /** A job's row and history are the same in both states. */
  ghost predicate Untouched(s: State, t: State, j: Id) {
    && (j in s.jobs <==> j in t.jobs)
    && (j in s.jobs ==> s.jobs[j] == t.jobs[j])
    && History(s.log, j) == History(t.log, j)
  }

  /** The row a scanned job ends with. */
  ghost function AfterExpiry(s: State, j: Id, now: Time, recover: set<Id>): Job
    requires j in s.jobs
  {
    RequeuedRow(s.jobs[j], LeasedAsRecovery(s.log, j), GrantsRecovery(s.log, j, recover), now)
  }

  lemma AfterExpiryLocal(s: State, p: State, j: Id, now: Time, recover: set<Id>)
    requires Inv(s) && Inv(p) && j in s.jobs && Untouched(s, p, j)
    ensures AfterExpiry(s, j, now, recover) == AfterExpiry(p, j, now, recover)
  {
    LookBack(s, j);
    LookBack(p, j);
  }

  lemma RecordTouchesOne(env: Env, s: State, kind: EventKind, row: Job, actor: Actor, metadata: Metadata)
    ensures forall j :: j != row.id ==> Untouched(s, Record(env, s, kind, row, actor, metadata), j)
  {
    HistoriesAppend(s.log, NewEvent(env, s.log, kind, row, actor, metadata));
  }

  /** `t` is `s` with the rows of `scan`, and only those, requeued. */
  ghost predicate Requeued(s: State, t: State, scan: seq<Id>, now: Time, recover: set<Id>) {
    && t.jobs.Keys == s.jobs.Keys
    && (forall j :: j !in scan ==> Untouched(s, t, j))
    && (forall j :: j in scan && j in s.jobs ==> t.jobs[j] == AfterExpiry(s, j, now, recover))
  }

  lemma RequeuedOneMore(s: State, p: State, t: State, scan: seq<Id>, j: Id, now: Time, recover: set<Id>)
    requires Requeued(s, p, scan, now, recover) && j in s.jobs
    requires t.jobs == p.jobs[j := AfterExpiry(s, j, now, recover)]
    requires forall i :: i != j ==> Untouched(p, t, i)
    ensures Requeued(s, t, scan + [j], now, recover)
  {
    forall i | i !in scan + [j] ensures Untouched(s, t, i) {
      assert i !in scan && i != j;
      assert Untouched(s, p, i) && Untouched(p, t, i);
    }
  }

  /** Scanning expired rows keeps the invariant; what becomes of a row does not depend on
      the order of the scan, and rows not scanned keep their row and their history. */
  lemma {:induction false} RequeueAllEffect(env: Env, s: State, scan: seq<Id>, now: Time, recover: set<Id>)
    requires Inv(s)
    requires forall i, k :: 0 <= i < k < |scan| ==> scan[i] != scan[k]
    requires forall j :: j in scan ==> j in s.jobs && s.jobs[j].status == Leased
    ensures Inv(RequeueAll(env, s, scan, now, recover))
    ensures Requeued(s, RequeueAll(env, s, scan, now, recover), scan, now, recover)
  {
    if scan != [] {
      var n := |scan| - 1;
      var j := scan[n];
      var earlier := scan[..n];
      assert scan == earlier + [j] && j in scan;
      assert forall i :: i in earlier ==> i in scan;
      RequeueAllEffect(env, s, earlier, now, recover);
      var p := RequeueAll(env, s, earlier, now, recover);
      RequeueTurn(env, s, p, earlier, j, now, recover);
    }
  }

  lemma RequeueTurn(env: Env, s: State, p: State, earlier: seq<Id>, j: Id, now: Time, recover: set<Id>)
    requires Inv(s) && Inv(p) && j in s.jobs && s.jobs[j].status == Leased && j !in earlier
    requires Requeued(s, p, earlier, now, recover)
    ensures Inv(RequeueOne(env, p, j, now, recover))
    ensures Requeued(s, RequeueOne(env, p, j, now, recover), earlier + [j], now, recover)
  {
    assert Untouched(s, p, j);
    InvAt(s, j);
    RequeueOneKeeps(env, p, j, now, recover);
    RequeueStepEffect(env, s, p, j, now, recover);
    RequeuedOneMore(s, p, RequeueOne(env, p, j, now, recover), earlier, j, now, recover);
  }

  lemma RequeueStepEffect(env: Env, s: State, p: State, j: Id, now: Time, recover: set<Id>)
    requires Inv(s) && Inv(p) && j in s.jobs && s.jobs[j].id == j && Untouched(s, p, j)
    requires p.jobs.Keys == s.jobs.Keys
    ensures var t := RequeueOne(env, p, j, now, recover);
            && t.jobs == p.jobs[j := AfterExpiry(s, j, now, recover)]
            && forall i :: i != j ==> Untouched(p, t, i)
  {
    AfterExpiryLocal(s, p, j, now, recover);
    var exhausted := LeasedAsRecovery(p.log, j);
    var grant := GrantsRecovery(p.log, j, recover);
    RecordTouchesOne(env, p, JobRequeued, RequeuedRow(p.jobs[j], exhausted, grant, now), QUEUE_ACTOR,
                     RequeueMetadata(p.jobs[j], exhausted, grant));
  }

  lemma LeaseOneKeeps(env: Env, s: State, a: LeaseArgs, j: Id)
    requires Inv(s) && j in s.jobs && s.jobs[j].status == Pending
    ensures Inv(Record(env, s, JobLeased, LeasedRow(s.jobs[j], a), Worker(a.worker),
                       LeaseMetadata(PendingRecovery(s.log, j))))
  {
    InvAt(s, j);
    RecordKeeps(env, s, JobLeased, LeasedRow(s.jobs[j], a), Worker(a.worker),
                LeaseMetadata(PendingRecovery(s.log, j)));
  }

  lemma TurnKeeps(env: Env, s: State, leased: seq<Job>, a: LeaseArgs, j: Id)
    requires Inv(s) && j in s.jobs
    ensures Inv(Turn(env, s, leased, a, j).0)
  {
    if Takes(s, |leased|, a, j) {
      LeaseOneKeeps(env, s, a, j);
    }
  }

  lemma {:induction false} LeaseUpToKeeps(env: Env, s: State, a: LeaseArgs, candidates: seq<Id>, n: nat)
    returns (p: State, leased: seq<Job>)
    requires Inv(s) && n <= |candidates| && forall j :: j in candidates ==> j in s.jobs
    ensures Reached(env, s, a, candidates, n, p, leased)
    ensures Inv(p)
  {
    if n == 0 {
      p, leased := s, [];
    } else {
      p, leased := LeaseUpToKeeps(env, s, a, candidates, n - 1);
      var j := candidates[n - 1];
      ReachedNext(env, s, a, candidates, n - 1, p, leased);
      TurnKeeps(env, p, leased, a, j);
      var next := Turn(env, p, leased, a, j);
      p, leased := next.0, next.1;
    }
  }

  lemma LeaseKeeps(env: Env, s: State, a: LeaseArgs, scan: seq<Id>)
    requires Inv(s) && IsScan(s.jobs, a.now, scan)
    ensures Inv(Lease(env, s, a, scan).0)
  {
    if !BadLeaseArgs(a) {
      RequeueAllEffect(env, s, scan, a.now, a.recover);
      var cleared := RequeueAll(env, s, scan, a.now, a.recover);
      var candidates := Candidates(cleared.jobs, a);
      var p, leased := LeaseUpToKeeps(env, cleared, a, candidates, |candidates|);
    }
  }

  /** Every operation but `lease` and `requeue_expired` writes at most one row. */
  lemma SingleStep(env: Env, s: State, op: Op, t: State) returns (row: Job)
    requires Inv(s) && Step(env, s, op, t) && t != s
    requires !op.LeaseOp? && !op.RequeueOp? && !op.OutsideOp? && !op.LimitOp?
    ensures t.log != [] && t == s.(jobs := s.jobs[row.id := row], log := s.log + [Last(t.log)])
    ensures Last(t.log).Concerns(row.id)
    ensures if op.EnqueueOp? then row == NewJob(op.a) && row.id !in s.jobs
            else row.id == op.job && op.job in s.jobs && WrittenOver(s.jobs[op.job], row, op)
  {
    if op.EnqueueOp? {
      row := NewJob(op.a);
    } else {
      if op.job in s.jobs { InvAt(s, op.job); }
      row := t.jobs[op.job];
    }
  }

  /** How one operation's row differs from the row it replaces. */
  ghost predicate WrittenOver(x: Job, row: Job, op: Op) {
    && SameTask(x, row)
    && (row.status == Leased ==> x.status == Leased)
    && (!op.RetryOp? ==> !x.Finished() && row.attempts == x.attempts)
  }

  lemma StepKeeps(env: Env, s: State, op: Op, t: State)
    requires Inv(s) && Step(env, s, op, t)
    ensures Inv(t)
  {
    if t != s {
      match op
      case EnqueueOp(a) => EnqueueKeeps(env, s, a);
      case LeaseOp(a, scan) => LeaseKeeps(env, s, a, scan);
      case HeartbeatOp(j, worker, duration, now) => HeartbeatKeeps(env, s, j, worker, duration, now);
      case CompleteOp(j, worker, now) => CompleteKeeps(env, s, j, worker, now);
      case FailOp(j, error, worker, retryable, now) => FailKeeps(env, s, j, error, worker, retryable, now);
      case CancelOp(j, now) => CancelKeeps(env, s, j, now);
      case RequeueOp(recover, now, scan) => RequeueAllEffect(env, s, scan, now, recover);
      case RetryOp(j, reset, now) => RetryKeeps(env, s, j, reset, now);
      case LimitOp(provider, limit) =>
      case OutsideOp(e) => OutsideKeeps(s, e);
    }
  }

  /** Every state of every run satisfies the invariant. */
  lemma {:induction false} RunKeeps(env: Env, states: seq<State>, ops: seq<Op>, k: nat)
    requires Run(env, states, ops) && k < |states|
    ensures Inv(states[k])
  {
    if k > 0 {
      RunKeeps(env, states, ops, k - 1);
      StepKeeps(env, states[k - 1], ops[k - 1], states[k]);
    } else {
      assert forall j :: CoupledAt(states[0].jobs, states[0].log, j);
    }
  }

  // -------------------------------------------------------------- run-level results

  /** The snapshots of a queue keep their job's key, and no two jobs share one. */
  lemma LogKeepsKeys(s: State)
    requires Inv(s)
    ensures KeysKept(s.log) && OneJobPerKey(s.log)
  {
    forall e | e in s.log && e.Lifecycle? ensures e.job.id in s.jobs && SameTask(e.job, s.jobs[e.job.id]) {
      assert CoupledAt(s.jobs, s.log, e.job.id);
      HistoryMembers(s.log, e.job.id);
      assert e in History(s.log, e.job.id);
      PathKeepsTask(History(s.log, e.job.id));
    }
    forall e, f | e in s.log && f in s.log && SharesKey(e, f) ensures e.job.id == f.job.id {
      assert SameKey(s.jobs, e.job.id, f.job.id);
    }
  }

  lemma StateReplays(s: State, listing: seq<Event>)
    requires Inv(s)
    requires multiset(listing) == multiset(s.log) && Sorted(listing, (e: Event) => e.Key())
    ensures Replay(listing, s.log) == Ok(s.jobs)
  {
    SameMembers(listing, s.log);
    LogKeepsKeys(s);
    FreeKeysIff(listing);
    ReplayRefuses(listing, s.log);
    ReplayKeepsLast(listing, s.log);
    var t := Replay(listing, s.log).value;
    forall j ensures j in t <==> j in s.jobs {
      assert CoupledAt(s.jobs, s.log, j);
      HistoryMembers(listing, j);
      HistoryMembers(s.log, j);
      if j in t {
        assert Last(History(listing, j)) in History(listing, j);
        assert Last(History(listing, j)) in History(s.log, j);
      }
      if j in s.jobs {
        ListingEndsLikeLog(s.log, listing, j);
      }
    }
    forall j | j in s.jobs ensures t[j] == s.jobs[j] {
      assert CoupledAt(s.jobs, s.log, j);
      ListingEndsLikeLog(s.log, listing, j);
    }
    assert t == s.jobs;
  }

  /** In every state of every run, under any clock readings, replaying the events in
      `(created_at, id)` order from an empty table rebuilds exactly the live table: no
      guard refuses, no key is taken, and every row is the one the queue holds. */
  lemma LiveTableEqualsReplay(env: Env, states: seq<State>, ops: seq<Op>, k: nat, listing: seq<Event>)
    requires Run(env, states, ops) && k < |states|
    requires multiset(listing) == multiset(states[k].log) && Sorted(listing, (e: Event) => e.Key())
    ensures Replay(listing, states[k].log) == Ok(states[k].jobs)
  {
    RunKeeps(env, states, ops, k);
    StateReplays(states[k], listing);
  }

  /** Every row of every reachable table: its columns agree, its attempts are the leases since
      the last reset and stay within the budget, and recovery was granted and leased at most
      once in the job's whole life. */
  lemma EveryJobIsAccounted(env: Env, states: seq<State>, ops: seq<Op>, k: nat, j: Id)
    requires Run(env, states, ops) && k < |states| && j in states[k].jobs
    ensures var row := states[k].jobs[j];
            var h := History(states[k].log, j);
            && RowShape(row)
            && row.attempts == LeasesSinceReset(h)
            && row.attempts <= row.maxAttempts + Grants(h) + Retries(h)
            && (row.status == Pending ==> row.attempts < row.maxAttempts + Grants(h) + Retries(h))
            && (Retries(h) == 0 ==> Leases(h) <= row.maxAttempts + 1)
            && RecoveryLeases(h) <= Grants(h) <= 1
  {
    RunKeeps(env, states, ops, k);
    InvAt(states[k], j);
    var h := History(states[k].log, j);
    AttemptAccounting(h);
    RecoveryOnce(h);
    if Retries(h) == 0 { LeasesWithoutRetry(h); }
  }
}
