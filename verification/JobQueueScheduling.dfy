/** Provider limits and branch exclusion: what no operation breaks. */
module JobQueueScheduling {
  import opened Common
  import opened JobContract
  import opened JobHistory
  import opened JobProjection
  import opened JobQueueSpec
  import opened JobQueueInvariant

  // ----------------------------------------------------------------- safety predicates

  function LeasedOf(jobs: Table, provider: string): set<Id> {
    set j | j in jobs && jobs[j].provider == Some(provider) && jobs[j].status == Leased
  }

  /** No provider has more leased rows than its limit. */
  ghost predicate WithinCaps(s: State) {
    WithinOr(s, map[])
  }

  /** No provider has more leased rows than its limit, or than `held` says it had. */
  ghost predicate WithinOr(s: State, held: map<string, nat>) {
    forall p :: p in s.limits ==>
      |LeasedOf(s.jobs, p)| <= s.limits[p] || (p in held && |LeasedOf(s.jobs, p)| <= held[p])
  }

  /** Two serialized jobs of one session and branch, both leased. */
  ghost predicate Overlap(jobs: Table, x: Id, y: Id) {
    && x in jobs && y in jobs && jobs[x].status == Leased && jobs[y].status == Leased
    && jobs[x].serialize && jobs[y].serialize && SameLane(jobs[x], jobs[y])
  }

  /** At most one serialized job of a session and branch is leased. */
  ghost predicate Exclusive(jobs: Table) {
    forall x, y :: Overlap(jobs, x, y) ==> x == y
  }

  /** Every lease is still running at `now`. */
  ghost predicate Cleared(jobs: Table, now: Time) {
    forall j :: j in jobs && jobs[j].status == Leased ==> IsActive(jobs[j], now)
  }

  /** Nothing newly became leased. */
  ghost predicate Quiet(jobs: Table, next: Table) {
    forall j :: j in next && next[j].status == Leased ==>
      j in jobs && jobs[j].status == Leased && SameTask(jobs[j], next[j])
  }

  lemma QuietKeepsSafety(s: State, t: State)
    requires Quiet(s.jobs, t.jobs) && t.limits == s.limits
    ensures forall p :: |LeasedOf(t.jobs, p)| <= |LeasedOf(s.jobs, p)|
    ensures WithinCaps(s) ==> WithinCaps(t)
    ensures Exclusive(s.jobs) ==> Exclusive(t.jobs)
  {
    forall p ensures |LeasedOf(t.jobs, p)| <= |LeasedOf(s.jobs, p)| {
      forall j | j in LeasedOf(t.jobs, p) ensures j in LeasedOf(s.jobs, p) {
        assert SameTask(s.jobs[j], t.jobs[j]);
      }
      SubsetSize(LeasedOf(t.jobs, p), LeasedOf(s.jobs, p));
    }
    if Exclusive(s.jobs) {
      forall x, y | Overlap(t.jobs, x, y) ensures x == y {
        assert Overlap(s.jobs, x, y);
      }
    }
  }

  lemma StillLeased(s: State, t: State, scan: seq<Id>, now: Time, recover: set<Id>, j: Id)
    requires Inv(s) && IsScan(s.jobs, now, scan) && Requeued(s, t, scan, now, recover)
    requires j in t.jobs && t.jobs[j].status == Leased
    ensures j in s.jobs && s.jobs[j] == t.jobs[j] && IsActive(t.jobs[j], now)
  {
    assert j in scan <==> j in Expired(s.jobs, now);
    assert j !in scan && Untouched(s, t, j);
    InvAt(s, j);
  }

  lemma RequeueIsQuiet(env: Env, s: State, scan: seq<Id>, now: Time, recover: set<Id>)
    requires Inv(s) && IsScan(s.jobs, now, scan)
    ensures Quiet(s.jobs, RequeueAll(env, s, scan, now, recover).jobs)
    ensures Cleared(RequeueAll(env, s, scan, now, recover).jobs, now)
  {
    RequeueAllEffect(env, s, scan, now, recover);
    var t := RequeueAll(env, s, scan, now, recover);
    forall j | j in t.jobs && t.jobs[j].status == Leased
      ensures j in s.jobs && s.jobs[j] == t.jobs[j] && IsActive(t.jobs[j], now)
    {
      StillLeased(s, t, scan, now, recover, j);
    }
  }

  lemma LeasedAfter(jobs: Table, j: Id, row: Job, p: string)
    requires j in jobs && row.status == Leased && row.provider == jobs[j].provider
    ensures |LeasedOf(jobs[j := row], p)| <= |LeasedOf(jobs, p)| + (if row.provider == Some(p) then 1 else 0)
  {
    var grown := LeasedOf(jobs, p) + if row.provider == Some(p) then {j} else {};
    assert LeasedOf(jobs[j := row], p) <= grown;
    SubsetSize(LeasedOf(jobs[j := row], p), grown);
  }

  lemma ActiveIsLeased(jobs: Table, p: string, now: Time)
    requires Cleared(jobs, now)
    ensures ActiveOf(jobs, p, now) == LeasedOf(jobs, p)
  {
    forall j | j in LeasedOf(jobs, p) ensures j in ActiveOf(jobs, p, now) {
      assert j in jobs && jobs[j].status == Leased;
    }
    forall j | j in ActiveOf(jobs, p, now) ensures j in LeasedOf(jobs, p) {
      assert IsActive(jobs[j], now);
    }
  }

  /** One lease taken while every other lease is running keeps the caps. */
  lemma TakeKeepsCaps(s: State, a: LeaseArgs, j: Id, held: map<string, nat>)
    requires WithinOr(s, held) && Cleared(s.jobs, a.now)
    requires j in s.jobs && WithinLimit(s, s.jobs[j], a.now)
    ensures WithinOr(s.(jobs := s.jobs[j := LeasedRow(s.jobs[j], a)]), held)
  {
    var row := LeasedRow(s.jobs[j], a);
    forall p | p in s.limits
      ensures |LeasedOf(s.jobs[j := row], p)| <= s.limits[p]
              || (p in held && |LeasedOf(s.jobs[j := row], p)| <= held[p])
    {
      LeasedAfter(s.jobs, j, row, p);
      ActiveIsLeased(s.jobs, p, a.now);
    }
  }

  lemma TakeKeepsExclusive(env: Env, s: State, taken: nat, a: LeaseArgs, j: Id)
    requires Inv(s) && Exclusive(s.jobs) && Cleared(s.jobs, a.now) && a.duration > 0
    requires j in s.jobs && Takes(s, taken, a, j)
    ensures Exclusive(LeaseOne(env, s, a, j).jobs) && Cleared(LeaseOne(env, s, a, j).jobs, a.now)
  {
    InvAt(s, j);
    var next := LeaseOne(env, s, a, j).jobs;
    forall x, y | Overlap(next, x, y) ensures x == y {
      if x != j && y != j {
        assert Overlap(s.jobs, x, y);
      }
    }
  }

  /** Ready for the scheduling loop. */
  ghost predicate Ready(s: State, now: Time, held: map<string, nat>) {
    Inv(s) && Exclusive(s.jobs) && Cleared(s.jobs, now) && WithinOr(s, held)
  }

  lemma TurnSafe(env: Env, s: State, leased: seq<Job>, a: LeaseArgs, j: Id, held: map<string, nat>)
    returns (p: State, taken: seq<Job>)
    requires Ready(s, a.now, held) && a.duration > 0 && j in s.jobs
    ensures Turn(env, s, leased, a, j) == (p, taken) && Ready(p, a.now, held)
  {
    TurnKeeps(env, s, leased, a, j);
    if Takes(s, |leased|, a, j) {
      InvAt(s, j);
      TakeKeepsExclusive(env, s, |leased|, a, j);
      TakeKeepsCaps(s, a, j, held);
    }
    p, taken := Turn(env, s, leased, a, j).0, Turn(env, s, leased, a, j).1;
  }

  lemma {:induction false} LeaseUpToSafe(env: Env, s: State, a: LeaseArgs, candidates: seq<Id>, n: nat, held: map<string, nat>)
    returns (p: State, leased: seq<Job>)
    requires Ready(s, a.now, held) && a.duration > 0
    requires n <= |candidates| && forall j :: j in candidates ==> j in s.jobs
    ensures Reached(env, s, a, candidates, n, p, leased)
    ensures Ready(p, a.now, held)
  {
    if n == 0 {
      p, leased := s, [];
    } else {
      var q, l := LeaseUpToSafe(env, s, a, candidates, n - 1, held);
      ReachedNext(env, s, a, candidates, n - 1, q, l);
      p, leased := TurnSafe(env, q, l, a, candidates[n - 1], held);
    }
  }

  /** A lease starts by clearing every row not active at `now`, so what it counts as active
      is what is leased: the caps and the exclusion hold with no assumption on the clock. */
  lemma LeaseSafe(env: Env, s: State, a: LeaseArgs, scan: seq<Id>, held: map<string, nat>)
    requires Inv(s) && Exclusive(s.jobs) && IsScan(s.jobs, a.now, scan) && WithinOr(s, held)
    ensures Exclusive(Lease(env, s, a, scan).0.jobs)
    ensures WithinOr(Lease(env, s, a, scan).0, held)
  {
    if !BadLeaseArgs(a) {
      var cleared := RequeueAll(env, s, scan, a.now, a.recover);
      RequeueAllEffect(env, s, scan, a.now, a.recover);
      RequeueIsQuiet(env, s, scan, a.now, a.recover);
      QuietKeepsSafety(s, cleared);
      var candidates := Candidates(cleared.jobs, a);
      var p, leased := LeaseUpToSafe(env, cleared, a, candidates, |candidates|, held);
    }
  }

  /** What each provider holds. */
  ghost function HeldBy(s: State): map<string, nat> {
    map p | p in s.limits :: |LeasedOf(s.jobs, p)|
  }

  lemma OneRowQuiet(jobs: Table, row: Job)
    requires row.status == Leased ==> row.id in jobs && jobs[row.id].status == Leased && SameTask(jobs[row.id], row)
    ensures Quiet(jobs, jobs[row.id := row])
  {
  }

  lemma OtherStepsAreQuiet(env: Env, s: State, op: Op, t: State)
    requires Inv(s) && Step(env, s, op, t) && !op.LeaseOp? && !op.LimitOp?
    ensures Quiet(s.jobs, t.jobs) && t.limits == s.limits
  {
    if op.RequeueOp? {
      RequeueIsQuiet(env, s, op.scan, op.now, op.recover);
    } else if t != s && !op.OutsideOp? {
      var row := SingleStep(env, s, op, t);
      OneRowQuiet(s.jobs, row);
    }
  }

  /** Setting a limit keeps the caps exactly when no more leases are held than it allows. */
  lemma LimitKeepsCapsIff(s: State, provider: string, limit: int)
    requires WithinCaps(s)
    ensures WithinCaps(SetProviderLimit(s, provider, limit).0)
            <==> limit < 1 || |LeasedOf(s.jobs, provider)| <= limit
  {
    var t := SetProviderLimit(s, provider, limit).0;
    if limit >= 1 {
      assert t.limits[provider] == limit && provider in t.limits;
    }
  }

  /** A limit is never set below the number of leases its provider holds at the time. */
  ghost predicate LimitsRespectLeases(states: seq<State>, ops: seq<Op>)
    requires |states| == |ops| + 1
  {
    forall i :: 0 <= i < |ops| && ops[i].LimitOp? ==>
      ops[i].limit < 1 || |LeasedOf(states[i].jobs, ops[i].provider)| <= ops[i].limit
  }

  /** No operation takes a provider past both its limit and what it held, except by changing the limit. */
  lemma StepSafe(env: Env, s: State, op: Op, t: State)
    requires Inv(s) && Step(env, s, op, t) && Exclusive(s.jobs)
    ensures Exclusive(t.jobs)
    ensures !op.LimitOp? ==> t.limits == s.limits && WithinOr(t, HeldBy(s)) && (WithinCaps(s) ==> WithinCaps(t))
    ensures op.LimitOp? ==> t.jobs == s.jobs
  {
    if op.LeaseOp? {
      LeaseSafe(env, s, op.la, op.scan, HeldBy(s));
      if WithinCaps(s) { LeaseSafe(env, s, op.la, op.scan, map[]); }
    } else if !op.LimitOp? {
      OtherStepsAreQuiet(env, s, op, t);
      QuietKeepsSafety(s, t);
    }
  }

  /** In every state of every run at most one serialized job per session and branch is leased. */
  lemma {:induction false} SerializedJobsNeverOverlap(env: Env, states: seq<State>, ops: seq<Op>, k: nat)
    requires Run(env, states, ops) && k < |states|
    ensures Exclusive(states[k].jobs)
  {
    if k > 0 {
      SerializedJobsNeverOverlap(env, states, ops, k - 1);
      RunKeeps(env, states, ops, k - 1);
      var s, t := states[k - 1], states[k];
      StepSafe(env, s, ops[k - 1], t);
    }
  }

  /** In every state of every run no provider exceeds its limit, whatever the clock does. */
  lemma {:induction false} ProviderCapsHold(env: Env, states: seq<State>, ops: seq<Op>, k: nat)
    requires Run(env, states, ops) && k < |states| && LimitsRespectLeases(states, ops)
    ensures WithinCaps(states[k])
  {
    if k > 0 {
      ProviderCapsHold(env, states, ops, k - 1);
      SerializedJobsNeverOverlap(env, states, ops, k - 1);
      RunKeeps(env, states, ops, k - 1);
      var op := ops[k - 1];
      StepSafe(env, states[k - 1], op, states[k]);
      if op.LimitOp? { LimitKeepsCapsIff(states[k - 1], op.provider, op.limit); }
    } else {
      forall p | p in states[0].limits ensures |LeasedOf(states[0].jobs, p)| <= states[0].limits[p] {
        assert LeasedOf(states[0].jobs, p) == {};
      }
    }
  }

  /** The caps hold throughout a run exactly when no limit is ever set below the leases held. */
  lemma ProviderCapsHoldIff(env: Env, states: seq<State>, ops: seq<Op>)
    requires Run(env, states, ops)
    ensures (forall k :: 0 <= k < |states| ==> WithinCaps(states[k])) <==> LimitsRespectLeases(states, ops)
  {
    if LimitsRespectLeases(states, ops) {
      forall k | 0 <= k < |states| ensures WithinCaps(states[k]) { ProviderCapsHold(env, states, ops, k); }
    } else {
      var i :| 0 <= i < |ops| && ops[i].LimitOp?
               && !(ops[i].limit < 1 || |LeasedOf(states[i].jobs, ops[i].provider)| <= ops[i].limit);
      assert Step(env, states[i], ops[i], states[i + 1]);
      if WithinCaps(states[i]) { LimitKeepsCapsIff(states[i], ops[i].provider, ops[i].limit); }
    }
  }

  /** A limit set too low only waits for leases to drain: as long as it stays set, the provider never holds
      more leases than it then held, or than the limit. */
  lemma {:induction false} LeasesDrainToTheLimit(env: Env, states: seq<State>, ops: seq<Op>, i: nat, k: nat, p: string)
    requires Run(env, states, ops) && i <= k < |states| && p in states[i].limits
    requires forall m :: i <= m < k && ops[m].LimitOp? ==> ops[m].provider != p
    ensures p in states[k].limits && states[k].limits[p] == states[i].limits[p]
    ensures |LeasedOf(states[k].jobs, p)| <= |LeasedOf(states[i].jobs, p)|
            || |LeasedOf(states[k].jobs, p)| <= states[i].limits[p]
    decreases k
  {
    if i < k {
      LeasesDrainToTheLimit(env, states, ops, i, k - 1, p);
      SerializedJobsNeverOverlap(env, states, ops, k - 1);
      RunKeeps(env, states, ops, k - 1);
      StepSafe(env, states[k - 1], ops[k - 1], states[k]);
    }
  }
}
