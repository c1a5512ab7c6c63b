/** What no operation ever changes: the log is only appended to, a job keeps its identity, and an
    idempotency key names one job for ever. Also how retries are spaced. */
module JobQueueIdentity {
  import opened Common
  import opened JobContract
  import opened JobHistory
  import opened JobQueueSpec
  import opened JobQueueInvariant
  import opened JobQueueFairness

  // --------------------------------------------------------------- append-only

  lemma {:induction false} RequeueAppends(env: Env, s: State, scan: seq<Id>, now: Time, recover: set<Id>)
    requires forall j :: j in scan ==> j in s.jobs
    ensures s.log <= RequeueAll(env, s, scan, now, recover).log
  {
    if scan != [] {
      var n := |scan| - 1;
      assert forall j :: j in scan[..n] ==> j in scan;
      RequeueAppends(env, s, scan[..n], now, recover);
    }
  }

  lemma {:induction false} LeaseAppends(env: Env, s: State, a: LeaseArgs, candidates: seq<Id>, n: nat)
    requires n <= |candidates| && forall j :: j in candidates ==> j in s.jobs
    ensures s.log <= LeaseUpTo(env, s, a, candidates, n).0.log
  {
    if n > 0 {
      LeaseAppends(env, s, a, candidates, n - 1);
      var earlier := LeaseUpTo(env, s, a, candidates, n - 1);
      assert candidates[n - 1] in candidates;
      assert earlier.0.log <= Turn(env, earlier.0, earlier.1, a, candidates[n - 1]).0.log;
    }
  }

  lemma StepAppends(env: Env, s: State, op: Op, t: State)
    requires Inv(s) && Step(env, s, op, t)
    ensures s.log <= t.log
  {
    if op.LeaseOp? {
      if !BadLeaseArgs(op.la) {
        var cleared := RequeueAll(env, s, op.scan, op.la.now, op.la.recover);
        RequeueAppends(env, s, op.scan, op.la.now, op.la.recover);
        LeaseAppends(env, cleared, op.la, Candidates(cleared.jobs, op.la), |Candidates(cleared.jobs, op.la)|);
      }
    } else if op.RequeueOp? {
      RequeueAppends(env, s, op.scan, op.now, op.recover);
    } else if t != s && !op.OutsideOp? && !op.LimitOp? {
      var row := SingleStep(env, s, op, t);
    }
  }

  // ------------------------------------------------------------------- identity

  lemma RequeueKeepsTask(env: Env, s: State, scan: seq<Id>, now: Time, recover: set<Id>, j: Id)
    requires Inv(s) && IsScan(s.jobs, now, scan) && j in s.jobs
    ensures var t := RequeueAll(env, s, scan, now, recover); j in t.jobs && SameTask(s.jobs[j], t.jobs[j])
  {
    RequeueAllEffect(env, s, scan, now, recover);
    var t := RequeueAll(env, s, scan, now, recover);
    assert j in scan <==> j in Expired(s.jobs, now);
    if j !in scan { assert Untouched(s, t, j); }
  }

  lemma LeaseKeepsTask(env: Env, s: State, a: LeaseArgs, scan: seq<Id>, j: Id)
    requires Inv(s) && IsScan(s.jobs, a.now, scan) && j in s.jobs
    ensures var t := Lease(env, s, a, scan).0; j in t.jobs && SameTask(s.jobs[j], t.jobs[j])
  {
    if !BadLeaseArgs(a) {
      RequeueKeepsTask(env, s, scan, a.now, a.recover, j);
      var cleared, next, leased := LeaseIsFair(env, s, a, scan, j);
      if j !in Taken(leased) { assert Untouched(cleared, next, j); }
    }
  }

  lemma StepKeepsTask(env: Env, s: State, op: Op, t: State, j: Id)
    requires Inv(s) && Step(env, s, op, t) && j in s.jobs
    ensures j in t.jobs && SameTask(s.jobs[j], t.jobs[j])
  {
    if op.LeaseOp? {
      LeaseKeepsTask(env, s, op.la, op.scan, j);
    } else if op.RequeueOp? {
      RequeueKeepsTask(env, s, op.scan, op.now, op.recover, j);
    } else if t != s && !op.OutsideOp? && !op.LimitOp? {
      var row := SingleStep(env, s, op, t);
    }
  }

  /** Over any stretch of any run the log only grows, and a job stays, as the same task. */
  lemma {:induction false} JobsAndEventsStay(env: Env, states: seq<State>, ops: seq<Op>, i: nat, k: nat, j: Id)
    requires Run(env, states, ops) && i <= k < |states|
    ensures states[i].log <= states[k].log
    ensures j in states[i].jobs ==> j in states[k].jobs && SameTask(states[i].jobs[j], states[k].jobs[j])
    decreases k
  {
    if i < k {
      JobsAndEventsStay(env, states, ops, i, k - 1, j);
      RunKeeps(env, states, ops, k - 1);
      StepAppends(env, states[k - 1], ops[k - 1], states[k]);
      if j in states[i].jobs { StepKeepsTask(env, states[k - 1], ops[k - 1], states[k], j); }
    }
  }

  /** The arguments pass every check that comes before the look-up by key. */
  predicate Enqueueable(s: State, a: EnqueueArgs) {
    && !Blank(a.kind) && a.maxAttempts >= 1 && (a.serialize ==> a.session.Some? && a.branch.Some?)
    && (a.source.Some? ==> Find(s.log, a.source.value).Some?)
  }

  /** Once a job has been stored under an idempotency key, enqueueing under that key at any later time,
      with any other arguments, returns that job and changes nothing. */
  lemma KeyNamesOneJob(env: Env, states: seq<State>, ops: seq<Op>, i: nat, k: nat, j: Id, a: EnqueueArgs)
    requires Run(env, states, ops) && i <= k < |states|
    requires j in states[i].jobs && a.idempotencyKey.Some?
    requires states[i].jobs[j].idempotencyKey == a.idempotencyKey && Enqueueable(states[k], a)
    ensures j in states[k].jobs && Enqueue(env, states[k], a) == (states[k], Ok(states[k].jobs[j]))
  {
    JobsAndEventsStay(env, states, ops, i, k, j);
    RunKeeps(env, states, ops, k);
    var s := states[k];
    var key := a.idempotencyKey.value;
    assert Holds(s.jobs, j, key);
    var holder := Holder(s.jobs, a.idempotencyKey);
    assert SameKey(s.jobs, j, holder.value);
  }

  // ------------------------------------------------------------- the term of a lease

  /** A job that `lease` hands out belongs to that worker, for exactly the term asked for: until then no
      scan touches it, from then on every scan takes it back. */
  lemma LeaseRunsItsTerm(env: Env, s: State, a: LeaseArgs, scan: seq<Id>, c: Id, at: Time)
    returns (next: State, leased: seq<Job>)
    requires Inv(s) && IsScan(s.jobs, a.now, scan) && !BadLeaseArgs(a)
    ensures Lease(env, s, a, scan) == (next, Ok(leased)) && Inv(next)
    ensures c in Taken(leased) ==>
              && Owns(next.jobs, c, a.worker) && IsActive(next.jobs[c], a.now)
              && (c in Expired(next.jobs, at) <==> at >= a.now + a.duration)
              && Complete(env, next, c, a.worker, at).1.Ok?
  {
    var cleared;
    cleared, next, leased := LeaseIsFair(env, s, a, scan, c);
    LeaseKeeps(env, s, a, scan);
    if c in Taken(leased) {
      InvAt(next, c);
      assert next.jobs[c] == LeasedRow(cleared.jobs[c], a);
      InvAt(cleared, c) by { RequeueAllEffect(env, s, scan, a.now, a.recover); }
    }
  }

  /** A heartbeat of the owner restarts the term, even of a lease already past it. */
  lemma HeartbeatRestartsTheTerm(env: Env, s: State, j: Id, worker: string, duration: Time, now: Time, at: Time)
    requires Inv(s) && Owns(s.jobs, j, worker) && duration > 0
    ensures var t := Heartbeat(env, s, j, worker, duration, now).0;
            Owns(t.jobs, j, worker) && t.jobs[j].attempts == s.jobs[j].attempts
            && (j in Expired(t.jobs, at) <==> at >= now + duration)
  {
    InvAt(s, j);
  }

  /** Whoever let a lease run out has lost it: after the scan its completion, failure and heartbeat are
      refused and change nothing. */
  lemma ExpiredLeaseIsLost(env: Env, s: State, scan: seq<Id>, now: Time, recover: set<Id>, j: Id, worker: string,
                           at: Time)
    requires Inv(s) && IsScan(s.jobs, now, scan) && j in Expired(s.jobs, now)
    ensures var t := RequeueAll(env, s, scan, now, recover);
            && !Owns(t.jobs, j, worker)
            && Complete(env, t, j, worker, at).1.Err? && Complete(env, t, j, worker, at).0 == t
            && (forall error, retryable :: Fail(env, t, j, error, worker, retryable, at).0 == t)
            && (forall duration :: Heartbeat(env, t, j, worker, duration, at).0 == t)
  {
    RequeueAllEffect(env, s, scan, now, recover);
    assert j in scan;
    assert RequeueAll(env, s, scan, now, recover).jobs[j] == AfterExpiry(s, j, now, recover);
  }

  // -------------------------------------------------------------------- backoff

  /** The delay before a retry starts at the base and doubles with each attempt up to the cap. */
  lemma BackoffDoubles(env: Env, attempts: nat)
    requires attempts >= 1
    ensures Backoff(env, 1) == Least(env.backoffBase, env.backoffMax)
    ensures Backoff(env, attempts + 1) == Least(2 * Backoff(env, attempts), env.backoffMax)
  {
    var p := Pow2(attempts - 1);
    assert Pow2(attempts) == 2 * p;
    assert env.backoffBase * Pow2(attempts) == 2 * (env.backoffBase * p);
  }

  /** A failed attempt that may be retried makes the job pending again, and no lease whose clock has
      not passed the backoff takes it. */
  lemma RetryWaitsOutItsBackoff(env: Env, s: State, j: Id, error: string, worker: string, now: Time, a: LeaseArgs,
                                scan: seq<Id>)
    requires Inv(s) && LeaseFault(s, j, worker).None? && s.jobs[j].attempts < s.jobs[j].maxAttempts
    requires var t := Fail(env, s, j, error, worker, true, now).0; IsScan(t.jobs, a.now, scan)
    requires a.now < now + Backoff(env, s.jobs[j].attempts)
    ensures var t := Fail(env, s, j, error, worker, true, now).0;
            j in t.jobs && t.jobs[j].status == Pending && t.jobs[j].lastError == Some(error)
            && Untouched(t, Lease(env, t, a, scan).0, j)
  {
    InvAt(s, j);
    FailKeeps(env, s, j, error, worker, true, now);
    var t := Fail(env, s, j, error, worker, true, now).0;
    if !BadLeaseArgs(a) {
      RequeueAllEffect(env, t, scan, a.now, a.recover);
      assert j in scan <==> j in Expired(t.jobs, a.now);
      var cleared, next, leased := LeaseIsFair(env, t, a, scan, j);
      assert Untouched(t, cleared, j);
      assert j !in Taken(leased) && Untouched(cleared, next, j);
    }
  }
}
