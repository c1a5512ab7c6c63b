/** The one archive recovery over whole runs: who may take it, and what ends it. */
module JobQueueRecovery {
  import opened Common
  import opened JobContract
  import opened JobHistory
  import opened JobQueueSpec
  import opened JobQueueInvariant
  import opened JobQueueIdentity

  /** A recovery lease among the events appended to `before` was allowed by `a` and taken by its worker. */
  ghost predicate RecoveryAllowed(before: seq<Event>, after: seq<Event>, a: LeaseArgs) {
    before <= after
    && forall m :: |before| <= m < |after| && after[m].IsRecoveryLease() ==>
                     a.allowRecovery && after[m].actor == Worker(a.worker)
  }

  /** Nothing appended to `before` is a recovery lease. */
  ghost predicate NoRecoveryLease(before: seq<Event>, after: seq<Event>) {
    before <= after && forall m :: |before| <= m < |after| ==> !after[m].IsRecoveryLease()
  }

  lemma {:induction false} RequeueTakesNone(env: Env, s: State, scan: seq<Id>, now: Time, recover: set<Id>)
    requires forall j :: j in scan ==> j in s.jobs
    ensures NoRecoveryLease(s.log, RequeueAll(env, s, scan, now, recover).log)
  {
    if scan != [] {
      var n := |scan| - 1;
      assert forall j :: j in scan[..n] ==> j in scan;
      RequeueTakesNone(env, s, scan[..n], now, recover);
      assert scan[n] in scan;
      var p := RequeueAll(env, s, scan[..n], now, recover);
      var t := RequeueOne(env, p, scan[n], now, recover);
      assert t.log[..|p.log|] == p.log && |t.log| == |p.log| + 1 && t.log[|p.log|].Is(JobRequeued);
    }
  }

  lemma TurnTakesAllowed(env: Env, s: State, leased: seq<Job>, a: LeaseArgs, j: Id)
    requires j in s.jobs
    ensures RecoveryAllowed(s.log, Turn(env, s, leased, a, j).0.log, a)
  {
  }

  lemma AllowedOnward(one: seq<Event>, two: seq<Event>, three: seq<Event>, a: LeaseArgs)
    requires RecoveryAllowed(one, two, a) && RecoveryAllowed(two, three, a)
    ensures RecoveryAllowed(one, three, a)
  {
    forall m | |one| <= m < |three| && three[m].IsRecoveryLease()
      ensures a.allowRecovery && three[m].actor == Worker(a.worker)
    {
      if m < |two| { assert two[m] == three[m]; }
    }
  }

  lemma {:induction false} LeaseTakesAllowed(env: Env, s: State, a: LeaseArgs, candidates: seq<Id>, n: nat)
    requires n <= |candidates| && forall j :: j in candidates ==> j in s.jobs
    ensures RecoveryAllowed(s.log, LeaseUpTo(env, s, a, candidates, n).0.log, a)
  {
    if n > 0 {
      LeaseTakesAllowed(env, s, a, candidates, n - 1);
      var earlier := LeaseUpTo(env, s, a, candidates, n - 1);
      assert candidates[n - 1] in candidates;
      TurnTakesAllowed(env, earlier.0, earlier.1, a, candidates[n - 1]);
      AllowedOnward(s.log, earlier.0.log, LeaseUpTo(env, s, a, candidates, n).0.log, a);
    }
  }

  lemma WholeLeaseTakesAllowed(env: Env, s: State, a: LeaseArgs, scan: seq<Id>)
    requires Inv(s) && IsScan(s.jobs, a.now, scan)
    ensures RecoveryAllowed(s.log, Lease(env, s, a, scan).0.log, a)
  {
    if !BadLeaseArgs(a) {
      var cleared := RequeueAll(env, s, scan, a.now, a.recover);
      RequeueTakesNone(env, s, scan, a.now, a.recover);
      var candidates := Candidates(cleared.jobs, a);
      LeaseTakesAllowed(env, cleared, a, candidates, |candidates|);
      AllowedOnward(s.log, cleared.log, LeaseUpTo(env, cleared, a, candidates, |candidates|).0.log, a);
    }
  }

  /** No other operation takes the recovery lease. */
  lemma OtherStepsTakeNone(env: Env, s: State, op: Op, t: State)
    requires Inv(s) && Step(env, s, op, t) && !op.LeaseOp?
    ensures NoRecoveryLease(s.log, t.log)
  {
    if op.RequeueOp? {
      RequeueTakesNone(env, s, op.scan, op.now, op.recover);
    } else if t != s && !op.OutsideOp? && !op.LimitOp? {
      var row := SingleStep(env, s, op, t);
      assert t.log[..|s.log|] == s.log;
    }
  }

  /** Operation `i` appended event `m` as a recovery lease it was allowed to take. */
  ghost predicate TookRecovery(states: seq<State>, ops: seq<Op>, i: nat, m: nat)
    requires |states| == |ops| + 1 && i < |ops|
  {
    && ops[i].LeaseOp? && ops[i].la.allowRecovery
    && |states[i].log| <= m < |states[i + 1].log|
    && states[i + 1].log[m].Lifecycle? && states[i + 1].log[m].actor == Worker(ops[i].la.worker)
  }

  /** Every recovery lease of any run was taken by a lease call that allowed it, for that call's worker. */
  lemma {:induction false} RecoveryLeasesWereAllowed(env: Env, states: seq<State>, ops: seq<Op>, k: nat, m: nat)
    returns (i: nat)
    requires Run(env, states, ops) && k < |states|
    requires m < |states[k].log| && states[k].log[m].IsRecoveryLease()
    ensures i < k && TookRecovery(states, ops, i, m)
  {
    assert k > 0;
    RunKeeps(env, states, ops, k - 1);
    var s, op, t := states[k - 1], ops[k - 1], states[k];
    StepAppends(env, s, op, t);
    if m < |s.log| {
      i := RecoveryLeasesWereAllowed(env, states, ops, k - 1, m);
    } else {
      if op.LeaseOp? { WholeLeaseTakesAllowed(env, s, op.la, op.scan); } else { OtherStepsTakeNone(env, s, op, t); }
      i := k - 1;
    }
  }

  /** In every reachable history: a recovery lease spends the grant recorded just before it; if it is still
      the latest event when it expires the job is dead-lettered whatever its attempts; and once a heartbeat
      has intervened only the attempt budget decides. */
  lemma RecoveryInEveryRun(env: Env, states: seq<State>, ops: seq<Op>, k: nat, j: Id, m: nat)
    requires Run(env, states, ops) && k < |states| && j in states[k].jobs
    requires m < |History(states[k].log, j)|
    ensures var h := History(states[k].log, j);
            && (h[m].IsRecoveryLease() ==> m > 0 && h[m - 1].IsGrant() && h[m].metadata == h[m - 1].metadata)
            && (m > 0 && h[m - 1].IsRecoveryLease() && h[m].Is(JobRequeued) ==>
                  h[m].Leaves(DeadLetter) && h[m].metadata == RecoveryExhausted)
            && (forall g :: 0 <= g < m && h[g].IsGrant() && h[m - 1].Is(JobHeartbeat) && h[m].Is(JobRequeued) ==>
                  h[m].metadata == LeaseExpired
                  && (h[m].Leaves(DeadLetter) <==> h[m - 1].job.attempts >= h[m - 1].job.maxAttempts))
  {
    RunKeeps(env, states, ops, k);
    InvAt(states[k], j);
    var h := History(states[k].log, j);
    if h[m].IsRecoveryLease() { RecoveryLeaseSpendsGrant(h, m); }
    if m > 0 {
      if h[m - 1].IsRecoveryLease() && h[m].Is(JobRequeued) { ExpiredRecoveryIsFinal(h, m); }
      PathPrefix(h, m);
      forall g | 0 <= g < m && h[g].IsGrant() && h[m - 1].Is(JobHeartbeat) && h[m].Is(JobRequeued)
        ensures h[m].metadata == LeaseExpired
        ensures h[m].Leaves(DeadLetter) <==> h[m - 1].job.attempts >= h[m - 1].job.maxAttempts
      {
        assert h[..m][g] == h[g] && Last(h[..m]) == h[m - 1];
        HeartbeatForgetsRecovery(h[..m], g, h[m]);
      }
    }
  }
}
