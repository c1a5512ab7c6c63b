/** Serialized branches are first-in-first-out over whole runs, exactly as long as no job is enqueued
    behind, or retried after, a later job of its branch that has already started. */
module JobQueueFifo {
  import opened Common
  import opened JobContract
  import opened JobHistory
  import opened JobProjection
  import opened JobQueueSpec
  import opened JobQueueInvariant
  import opened JobQueueFairness

  /** Whenever a serialized job has been leased, all earlier ones on its branch are finished. */
  ghost predicate Orderly(jobs: Table) {
    forall x, y :: x in jobs && y in jobs ==> InOrder(jobs[x], jobs[y])
  }

  ghost predicate InOrder(x: Job, y: Job) {
    IsEarlierInLane(x, y) && y.serialize && y.attempts > 0 ==> x.Finished()
  }

  /** No row starts, reopens, changes identity or appears. */
  ghost predicate Calm(jobs: Table, next: Table) {
    jobs.Keys == next.Keys && forall j :: j in jobs ==> CalmRow(jobs[j], next[j])
  }

  ghost predicate CalmRow(x: Job, y: Job) {
    SameTask(x, y) && y.attempts == x.attempts && (x.Finished() ==> y.Finished())
  }

  /** A later serialized job of the same branch has started. */
  ghost predicate Overtaken(jobs: Table, x: Job) {
    exists y :: y in jobs && Overtakes(x, jobs[y])
  }

  ghost predicate Overtakes(x: Job, y: Job) {
    IsEarlierInLane(x, y) && y.serialize && y.attempts > 0
  }

  lemma CalmKeepsOrderly(jobs: Table, next: Table)
    requires Orderly(jobs) && Calm(jobs, next)
    ensures Orderly(next)
  {
    forall x, y | x in next && y in next ensures InOrder(next[x], next[y]) {
      assert CalmRow(jobs[x], next[x]) && CalmRow(jobs[y], next[y]) && InOrder(jobs[x], jobs[y]);
    }
  }

  /** A row that becomes pending, without having more attempts than before, keeps the order exactly when it
      has not been overtaken. */
  lemma PendingKeepsOrderIff(jobs: Table, row: Job)
    requires Orderly(jobs) && row.status == Pending
    requires row.id in jobs ==> SameTask(jobs[row.id], row) && row.attempts <= jobs[row.id].attempts
    requires row.id !in jobs ==> row.attempts == 0
    ensures Orderly(jobs[row.id := row]) <==> !Overtaken(jobs, row)
  {
    var next := jobs[row.id := row];
    if y :| y in jobs && Overtakes(row, jobs[y]) {
      assert y != row.id && !InOrder(next[row.id], next[y]);
    } else {
      forall u, y | u in next && y in next ensures InOrder(next[u], next[y]) {
        if u != row.id && y in jobs { assert InOrder(jobs[u], jobs[y]); }
        if u == row.id && y != row.id { assert !Overtakes(row, jobs[y]); }
      }
    }
  }

  lemma TakeKeepsOrderly(s: State, taken: nat, a: LeaseArgs, j: Id)
    requires Orderly(s.jobs) && j in s.jobs && Takes(s, taken, a, j)
    ensures Orderly(s.jobs[j := LeasedRow(s.jobs[j], a)])
  {
    var next := s.jobs[j := LeasedRow(s.jobs[j], a)];
    forall x, y | x in next && y in next ensures InOrder(next[x], next[y]) {
      if x in s.jobs && y in s.jobs {
        assert InOrder(s.jobs[x], s.jobs[y]);
      }
    }
  }

  lemma TurnOrderly(env: Env, s: State, leased: seq<Job>, a: LeaseArgs, j: Id)
    requires Inv(s) && Orderly(s.jobs) && j in s.jobs
    ensures Orderly(Turn(env, s, leased, a, j).0.jobs)
  {
    if Takes(s, |leased|, a, j) {
      TakeTouchesOne(env, s, a, j);
      TakeKeepsOrderly(s, |leased|, a, j);
    }
  }

  lemma {:induction false} LeaseUpToOrderly(env: Env, s: State, a: LeaseArgs, candidates: seq<Id>, n: nat)
    returns (p: State, leased: seq<Job>)
    requires Inv(s) && Orderly(s.jobs)
    requires n <= |candidates| && forall j :: j in candidates ==> j in s.jobs
    ensures Reached(env, s, a, candidates, n, p, leased)
    ensures Inv(p) && Orderly(p.jobs)
  {
    if n == 0 {
      p, leased := s, [];
    } else {
      p, leased := LeaseUpToOrderly(env, s, a, candidates, n - 1);
      var j := candidates[n - 1];
      ReachedNext(env, s, a, candidates, n - 1, p, leased);
      TurnKeeps(env, p, leased, a, j);
      TurnOrderly(env, p, leased, a, j);
      var next := Turn(env, p, leased, a, j);
      p, leased := next.0, next.1;
    }
  }

  lemma RequeueIsCalm(env: Env, s: State, scan: seq<Id>, now: Time, recover: set<Id>)
    requires Inv(s) && IsScan(s.jobs, now, scan)
    ensures Calm(s.jobs, RequeueAll(env, s, scan, now, recover).jobs)
  {
    RequeueAllEffect(env, s, scan, now, recover);
    var t := RequeueAll(env, s, scan, now, recover);
    forall j | j in s.jobs ensures CalmRow(s.jobs[j], t.jobs[j]) {
      RequeueCalmRow(s, t, scan, now, recover, j);
    }
  }

  lemma RequeueCalmRow(s: State, t: State, scan: seq<Id>, now: Time, recover: set<Id>, j: Id)
    requires IsScan(s.jobs, now, scan) && Requeued(s, t, scan, now, recover) && j in s.jobs
    ensures CalmRow(s.jobs[j], t.jobs[j])
  {
    assert j in scan <==> j in Expired(s.jobs, now);
    if j !in scan { assert Untouched(s, t, j); }
  }

  /** The row the operation makes pending out of nothing or out of a dead letter. */
  ghost function Admits(s: State, op: Op): Option<Job> {
    match op
    case EnqueueOp(a) => Some(NewJob(a))
    case RetryOp(j, _, _) => if j in s.jobs then Some(s.jobs[j]) else None
    case _ => None
  }

  /** The operation is refused, or what it admits has not been overtaken. */
  ghost predicate KeepsOrder(s: State, op: Op, t: State) {
    t == s || Admits(s, op).None? || !Overtaken(s.jobs, Admits(s, op).value)
  }

  lemma OneRowCalm(jobs: Table, row: Job)
    requires row.id in jobs && CalmRow(jobs[row.id], row)
    ensures Calm(jobs, jobs[row.id := row])
  {
  }

  lemma SameLaneOvertaken(jobs: Table, x: Job, y: Job)
    requires SameTask(x, y)
    ensures Overtaken(jobs, x) <==> Overtaken(jobs, y)
  {
    if j :| j in jobs && Overtakes(x, jobs[j]) { assert Overtakes(y, jobs[j]); }
    if j :| j in jobs && Overtakes(y, jobs[j]) { assert Overtakes(x, jobs[j]); }
  }

  /** A retry of `x` keeps the order exactly when no later serialized job of its branch has started. */
  lemma RetryKeepsOrderIff(env: Env, s: State, x: Id, reset: bool, now: Time)
    requires Inv(s) && Orderly(s.jobs) && x in s.jobs && s.jobs[x].status == DeadLetter
    ensures Orderly(RetryDeadLetter(env, s, x, reset, now).0.jobs) <==> !Overtaken(s.jobs, s.jobs[x])
  {
    InvAt(s, x);
    var row := RetryDeadLetter(env, s, x, reset, now).1.value;
    PendingKeepsOrderIff(s.jobs, row);
    SameLaneOvertaken(s.jobs, row, s.jobs[x]);
  }

  /** So does enqueueing a job. */
  lemma EnqueueKeepsOrderIff(env: Env, s: State, a: EnqueueArgs)
    requires Inv(s) && Orderly(s.jobs) && Enqueue(env, s, a).0 != s
    ensures Orderly(Enqueue(env, s, a).0.jobs) <==> !Overtaken(s.jobs, NewJob(a))
  {
    PendingKeepsOrderIff(s.jobs, NewJob(a));
  }

  /** Every operation keeps the order, except one that admits an overtaken job. */
  lemma StepKeepsOrderlyIff(env: Env, s: State, op: Op, t: State)
    requires Inv(s) && Step(env, s, op, t) && Orderly(s.jobs)
    ensures Orderly(t.jobs) <==> KeepsOrder(s, op, t)
  {
    if op.RequeueOp? {
      RequeueIsCalm(env, s, op.scan, op.now, op.recover);
      CalmKeepsOrderly(s.jobs, t.jobs);
    } else if op.LeaseOp? {
      LeaseKeepsOrderly(env, s, op.la, op.scan);
    } else if t != s && !op.OutsideOp? && !op.LimitOp? {
      if op.EnqueueOp? {
        EnqueueKeepsOrderIff(env, s, op.a);
      } else if op.RetryOp? {
        RetryKeepsOrderIff(env, s, op.job, op.reset, op.now);
      } else {
        var row := SingleStep(env, s, op, t);
        OneRowCalm(s.jobs, row);
        CalmKeepsOrderly(s.jobs, t.jobs);
      }
    }
  }

  lemma LeaseKeepsOrderly(env: Env, s: State, a: LeaseArgs, scan: seq<Id>)
    requires Inv(s) && Orderly(s.jobs) && IsScan(s.jobs, a.now, scan)
    ensures Orderly(Lease(env, s, a, scan).0.jobs)
  {
    if !BadLeaseArgs(a) {
      RequeueIsCalm(env, s, scan, a.now, a.recover);
      RequeueAllEffect(env, s, scan, a.now, a.recover);
      var cleared := RequeueAll(env, s, scan, a.now, a.recover);
      CalmKeepsOrderly(s.jobs, cleared.jobs);
      var candidates := Candidates(cleared.jobs, a);
      var p, leased := LeaseUpToOrderly(env, cleared, a, candidates, |candidates|);
    }
  }

  // --------------------------------------------------- finished jobs stay as they are

  lemma RequeueFreezes(env: Env, s: State, scan: seq<Id>, now: Time, recover: set<Id>, j: Id)
    requires Inv(s) && IsScan(s.jobs, now, scan) && j in s.jobs && s.jobs[j].Finished()
    ensures Inv(RequeueAll(env, s, scan, now, recover))
    ensures Untouched(s, RequeueAll(env, s, scan, now, recover), j)
  {
    RequeueAllEffect(env, s, scan, now, recover);
    assert j in scan <==> j in Expired(s.jobs, now);
  }

  lemma LeaseFreezes(env: Env, s: State, a: LeaseArgs, scan: seq<Id>, j: Id)
    requires Inv(s) && IsScan(s.jobs, a.now, scan) && j in s.jobs && s.jobs[j].Finished()
    ensures Untouched(s, Lease(env, s, a, scan).0, j)
  {
    if !BadLeaseArgs(a) {
      RequeueFreezes(env, s, scan, a.now, a.recover, j);
      var cleared, next, leased := LeaseIsFair(env, s, a, scan, j);
      assert Untouched(s, cleared, j);
      assert j !in Taken(leased) && Untouched(cleared, next, j);
    }
  }

  lemma StepFreezes(env: Env, s: State, op: Op, t: State, j: Id)
    requires Inv(s) && Step(env, s, op, t) && j in s.jobs && s.jobs[j].Finished()
    requires op.RetryOp? ==> op.job != j
    ensures Untouched(s, t, j)
  {
    if op.LeaseOp? {
      LeaseFreezes(env, s, op.la, op.scan, j);
    } else if op.RequeueOp? {
      RequeueFreezes(env, s, op.scan, op.now, op.recover, j);
    } else if op.OutsideOp? {
      HistoriesAppend(s.log, op.e);
    } else if t != s && !op.LimitOp? {
      SingleFreezes(env, s, op, t, j);
    }
  }

  lemma SingleFreezes(env: Env, s: State, op: Op, t: State, j: Id)
    requires Inv(s) && Step(env, s, op, t) && t != s && j in s.jobs && s.jobs[j].Finished()
    requires op.RetryOp? ==> op.job != j
    requires !op.LeaseOp? && !op.RequeueOp? && !op.OutsideOp? && !op.LimitOp?
    ensures Untouched(s, t, j)
  {
    var row := SingleStep(env, s, op, t);
    OneEventMore(s, t, row, j);
  }

  /** Where one row is written, every other job keeps its row and its history. */
  lemma OneEventMore(s: State, t: State, row: Job, j: Id)
    requires t.log != [] && t == s.(jobs := s.jobs[row.id := row], log := s.log + [Last(t.log)])
    requires Last(t.log).Concerns(row.id) && row.id != j
    ensures Untouched(s, t, j)
  {
    HistoriesAppend(s.log, Last(t.log));
  }

  /** No operation from `i` to `k` retries `j`. */
  ghost predicate NotRetried(ops: seq<Op>, i: nat, k: nat, j: Id)
    requires i <= k <= |ops|
  {
    forall m :: i <= m < k && ops[m].RetryOp? ==> ops[m].job != j
  }

  lemma {:induction false} FinishedStays(env: Env, states: seq<State>, ops: seq<Op>, i: nat, k: nat, j: Id)
    requires Run(env, states, ops) && i <= k < |states|
    requires NotRetried(ops, i, k, j)
    requires j in states[i].jobs && states[i].jobs[j].Finished()
    ensures Untouched(states[i], states[k], j)
    decreases k
  {
    if i < k {
      FinishedStays(env, states, ops, i, k - 1, j);
      RunKeeps(env, states, ops, k - 1);
      StepFreezes(env, states[k - 1], ops[k - 1], states[k], j);
    }
  }

  /** None of the first `n` operations admits an overtaken job. */
  ghost predicate OrderedRun(states: seq<State>, ops: seq<Op>, n: nat)
    requires |states| == |ops| + 1 && n <= |ops|
  {
    forall i {:trigger KeepsOrderAt(states, ops, i)} :: 0 <= i < n ==> KeepsOrderAt(states, ops, i)
  }

  ghost predicate KeepsOrderAt(states: seq<State>, ops: seq<Op>, i: nat)
    requires |states| == |ops| + 1 && i < |ops|
  {
    KeepsOrder(states[i], ops[i], states[i + 1])
  }

  /** The first `n` states and the next one are orderly. */
  ghost predicate OrderlyUpTo(states: seq<State>, n: nat)
    requires n < |states|
  {
    forall k {:trigger OrderlyAt(states, k)} :: 0 <= k <= n ==> OrderlyAt(states, k)
  }

  ghost predicate OrderlyAt(states: seq<State>, k: nat)
    requires k < |states|
  {
    Orderly(states[k].jobs)
  }

  lemma OneMore(states: seq<State>, ops: seq<Op>, n: nat)
    requires |states| == |ops| + 1 && 0 < n <= |ops|
    ensures OrderlyUpTo(states, n) <==> OrderlyUpTo(states, n - 1) && OrderlyAt(states, n)
    ensures OrderedRun(states, ops, n) <==>
            OrderedRun(states, ops, n - 1) && KeepsOrderAt(states, ops, n - 1)
  {
  }

  lemma NextOrderly(env: Env, states: seq<State>, ops: seq<Op>, i: nat)
    requires Run(env, states, ops) && i < |ops| && OrderlyAt(states, i)
    ensures OrderlyAt(states, i + 1) <==> KeepsOrderAt(states, ops, i)
  {
    RunKeeps(env, states, ops, i);
    var s, op, t := states[i], ops[i], states[i + 1];
    StepKeepsOrderlyIff(env, s, op, t);
  }

  lemma LastIsOrderly(env: Env, states: seq<State>, ops: seq<Op>, n: nat)
    requires Run(env, states, ops) && 0 < n < |states| && OrderlyUpTo(states, n - 1)
    ensures OrderlyAt(states, n) <==> KeepsOrderAt(states, ops, n - 1)
  {
    assert OrderlyAt(states, n - 1);
    NextOrderly(env, states, ops, n - 1);
  }

  /** Up to any point of any run, every state is orderly exactly when no operation so far has admitted an
      overtaken job. */
  lemma {:induction false} RunOrderlyIff(env: Env, states: seq<State>, ops: seq<Op>, n: nat)
    requires Run(env, states, ops) && n < |states|
    ensures OrderlyUpTo(states, n) <==> OrderedRun(states, ops, n)
  {
    if n > 0 {
      RunOrderlyIff(env, states, ops, n - 1);
      OneMore(states, ops, n);
      if OrderlyUpTo(states, n - 1) { LastIsOrderly(env, states, ops, n); }
    } else {
      StartsOrderly(env, states, ops);
    }
  }

  lemma StartsOrderly(env: Env, states: seq<State>, ops: seq<Op>)
    requires Run(env, states, ops)
    ensures OrderlyUpTo(states, 0) && OrderedRun(states, ops, 0)
  {
    assert states[0].jobs == map[] && OrderlyAt(states, 0);
  }

  /** Once a serialized job is leased, every earlier serialized job of its branch is already
      completed, dead-lettered or cancelled, and is never touched again unless it is itself retried. */
  lemma SerializedBranchIsFifo(env: Env, states: seq<State>, ops: seq<Op>, i: nat, k: nat, x: Id, y: Id)
    requires Run(env, states, ops) && i <= k < |states| && OrderedRun(states, ops, i)
    requires x in states[i].jobs && y in states[i].jobs
    requires IsEarlierInLane(states[i].jobs[x], states[i].jobs[y])
    requires states[i].jobs[y].serialize && states[i].jobs[y].status == Leased
    ensures states[i].jobs[x].Finished()
    ensures NotRetried(ops, i, k, x) ==> Untouched(states[i], states[k], x)
  {
    RunKeeps(env, states, ops, i);
    InvAt(states[i], y);
    RunOrderlyIff(env, states, ops, i);
    assert OrderlyAt(states, i) && InOrder(states[i].jobs[x], states[i].jobs[y]);
    if NotRetried(ops, i, k, x) { FinishedStays(env, states, ops, i, k, x); }
  }
}
