/** What `lease` hands out, what it leaves behind and why. */
module JobQueueFairness {
  import opened Common
  import opened JobContract
  import opened JobProjection
  import opened JobQueueSpec
  import opened JobQueueInvariant

  ghost function Taken(leased: seq<Job>): set<Id> {
    set l | l in leased :: l.id
  }

  /** `p` is `s` with exactly the jobs of `leased` moved from pending to a lease of `a`. */
  ghost predicate LeasedFrom(s: State, p: State, a: LeaseArgs, leased: seq<Job>) {
    && p.jobs.Keys == s.jobs.Keys && p.limits == s.limits
    && (forall j :: j !in Taken(leased) ==> Untouched(s, p, j))
    && (forall j :: j in Taken(leased) ==>
          j in s.jobs && s.jobs[j].status == Pending && p.jobs[j] == LeasedRow(s.jobs[j], a))
    && (forall l :: l in leased ==> l.id in p.jobs && p.jobs[l.id] == l)
  }

  lemma TakenSnoc(leased: seq<Job>, row: Job)
    ensures Taken(leased + [row]) == Taken(leased) + {row.id}
    ensures forall l :: l in leased + [row] <==> l in leased || l == row
  {
    assert forall l :: l in leased + [row] <==> l in leased || l == row;
  }

  lemma LeasedOneMore(s: State, p: State, t: State, a: LeaseArgs, leased: seq<Job>, j: Id)
    requires LeasedFrom(s, p, a, leased) && j in p.jobs && p.jobs[j].id == j && p.jobs[j].status == Pending
    requires t.jobs == p.jobs[j := LeasedRow(p.jobs[j], a)] && t.limits == p.limits
    requires forall i :: i != j ==> Untouched(p, t, i)
    ensures LeasedFrom(s, t, a, leased + [LeasedRow(p.jobs[j], a)])
  {
    var row := LeasedRow(p.jobs[j], a);
    TakenSnoc(leased, row);
    assert j !in Taken(leased) && Untouched(s, p, j);
    forall i | i !in Taken(leased + [row]) ensures Untouched(s, t, i) {
      assert Untouched(s, p, i) && Untouched(p, t, i);
    }
    forall i | i in Taken(leased)
      ensures i in s.jobs && s.jobs[i].status == Pending && t.jobs[i] == LeasedRow(s.jobs[i], a)
    {
      assert i != j;
    }
    forall l | l in leased ensures l.id in t.jobs && t.jobs[l.id] == l {
      assert l.id in Taken(leased);
    }
  }

  lemma TakeTouchesOne(env: Env, s: State, a: LeaseArgs, j: Id)
    requires Inv(s) && j in s.jobs
    ensures LeaseOne(env, s, a, j).jobs == s.jobs[j := LeasedRow(s.jobs[j], a)]
    ensures forall i :: i != j ==> Untouched(s, LeaseOne(env, s, a, j), i)
  {
    InvAt(s, j);
    RecordTouchesOne(env, s, JobLeased, LeasedRow(s.jobs[j], a), Worker(a.worker),
                     LeaseMetadata(PendingRecovery(s.log, j)));
  }

  lemma RecoveryStaysPending(s: State, t: State, c: Id)
    requires Inv(s) && Inv(t) && c in s.jobs && Untouched(s, t, c)
    ensures PendingRecovery(s.log, c) == PendingRecovery(t.log, c)
  {
    LookBack(s, c);
    LookBack(t, c);
  }

  lemma LimitStaysReached(s: State, j: Id, a: LeaseArgs, row: Job)
    requires j in s.jobs && s.jobs[j].status == Pending && !WithinLimit(s, row, a.now)
    ensures !WithinLimit(s.(jobs := s.jobs[j := LeasedRow(s.jobs[j], a)]), row, a.now)
  {
    var next := s.jobs[j := LeasedRow(s.jobs[j], a)];
    var p := row.provider.value;
    assert ActiveOf(s.jobs, p, a.now) <= ActiveOf(next, p, a.now);
    SubsetSize(ActiveOf(s.jobs, p, a.now), ActiveOf(next, p, a.now));
  }

  /** Blocking is monotone: taking another job never unblocks a job passed over. */
  lemma StillBlocked(env: Env, s: State, taken: nat, a: LeaseArgs, j: Id, c: Id)
    requires Inv(s) && j in s.jobs && c in s.jobs && c != j && a.duration > 0
    requires Takes(s, taken, a, j) && Blocked(s, a, c)
    ensures c in LeaseOne(env, s, a, j).jobs && Blocked(LeaseOne(env, s, a, j), a, c)
  {
    var t := LeaseOne(env, s, a, j);
    TakeTouchesOne(env, s, a, j);
    LeaseOneKeeps(env, s, a, j);
    assert Untouched(s, t, c);
    RecoveryStaysPending(s, t, c);
    if !WithinLimit(s, s.jobs[c], a.now) {
      LimitStaysReached(s, j, a, s.jobs[c]);
    } else if !BranchAvailable(s.jobs, s.jobs[c], a.now) {
      BranchStaysUnavailable(s.jobs, j, a, s.jobs[c]);
    }
  }

  lemma BranchStaysUnavailable(jobs: Table, j: Id, a: LeaseArgs, row: Job)
    requires j in jobs && jobs[j].status == Pending && !BranchAvailable(jobs, row, a.now)
    ensures !BranchAvailable(jobs[j := LeasedRow(jobs[j], a)], row, a.now)
  {
    var next := jobs[j := LeasedRow(jobs[j], a)];
    if x :| x in jobs && IsEarlierInLane(jobs[x], row) && (jobs[x].status == Pending || jobs[x].status == Leased) {
      assert x in next && IsEarlierInLane(next[x], row);
    } else {
      var x :| x in jobs && SameLane(jobs[x], row) && IsActive(jobs[x], a.now);
      assert x in next && SameLane(next[x], row) && IsActive(next[x], a.now);
    }
  }

  /** A candidate left pending is blocked, or the limit was reached by jobs ahead of it. */
  ghost predicate PassedOver(s: State, p: State, a: LeaseArgs, leased: seq<Job>, c: Id) {
    c in s.jobs && c in p.jobs &&
    ( || c in Taken(leased)
      || Blocked(p, a, c)
      || (|leased| >= a.limit && forall j :: j in Taken(leased) ==> j in s.jobs && Ahead(s.jobs, j, c)))
  }

  /** Not excluded by the caller, and no recovery grant is spent without permission. */
  ghost predicate Admitted(s: State, a: LeaseArgs, j: Id) {
    j in s.jobs && !IsExcluded(s.jobs[j], a) && (a.allowRecovery || PendingRecovery(s.log, j).None?)
  }

  lemma AdmittedLocal(s: State, p: State, a: LeaseArgs, j: Id)
    requires Inv(s) && Inv(p) && j in p.jobs && Untouched(s, p, j) && !Blocked(p, a, j)
    ensures Admitted(s, a, j)
  {
    LookBack(s, j);
    LookBack(p, j);
  }

  ghost predicate Progress(s: State, p: State, a: LeaseArgs, seen: seq<Id>, leased: seq<Job>) {
    && LeasedFrom(s, p, a, leased)
    && |leased| <= a.limit
    && (forall j :: j in Taken(leased) ==> j in seen && Admitted(s, a, j))
    && (forall c :: c in seen ==> PassedOver(s, p, a, leased, c))
  }

  lemma TakeProgress(env: Env, s: State, p: State, a: LeaseArgs, seen: seq<Id>, j: Id, leased: seq<Job>)
    requires Inv(s) && Inv(p) && a.duration > 0 && Progress(s, p, a, seen, leased)
    requires j !in seen && j in p.jobs && Takes(p, |leased|, a, j)
    ensures Progress(s, LeaseOne(env, p, a, j), a, seen + [j], leased + [LeasedRow(p.jobs[j], a)])
  {
    InvAt(p, j);
    var row := LeasedRow(p.jobs[j], a);
    var t := LeaseOne(env, p, a, j);
    TakeTouchesOne(env, p, a, j);
    LeasedOneMore(s, p, t, a, leased, j);
    TakenSnoc(leased, row);
    assert j !in Taken(leased) && Untouched(s, p, j);
    AdmittedLocal(s, p, a, j);
    forall c | c in seen + [j] ensures PassedOver(s, t, a, leased + [row], c) {
      if c != j {
        assert PassedOver(s, p, a, leased, c);
        if c !in Taken(leased) {
          StillBlocked(env, p, |leased|, a, j, c);
        }
      }
    }
  }

  lemma SkipProgress(s: State, p: State, a: LeaseArgs, seen: seq<Id>, j: Id, leased: seq<Job>)
    requires Progress(s, p, a, seen, leased)
    requires j !in seen && j in s.jobs && j in p.jobs && IsDue(s.jobs[j], a) && !Takes(p, |leased|, a, j)
    requires forall i :: i in seen ==> i in s.jobs && Ahead(s.jobs, i, j)
    ensures Progress(s, p, a, seen + [j], leased)
  {
    assert j !in Taken(leased) && Untouched(s, p, j);
    assert PassedOver(s, p, a, leased, j);
  }

  /** Candidates: due, distinct, in scheduling order. */
  ghost predicate Schedule(jobs: Table, a: LeaseArgs, candidates: seq<Id>) {
    && (forall i :: 0 <= i < |candidates| ==> candidates[i] in jobs && IsDue(jobs[candidates[i]], a))
    && (forall i, k :: 0 <= i < k < |candidates| ==>
          candidates[i] != candidates[k] && Ahead(jobs, candidates[i], candidates[k]))
  }

  lemma TurnProgress(env: Env, s: State, p: State, a: LeaseArgs, seen: seq<Id>, j: Id, leased: seq<Job>)
    requires Inv(s) && Inv(p) && a.duration > 0 && Progress(s, p, a, seen, leased)
    requires j !in seen && j in s.jobs && j in p.jobs && IsDue(s.jobs[j], a)
    requires forall i :: i in seen ==> i in s.jobs && Ahead(s.jobs, i, j)
    ensures var next := Turn(env, p, leased, a, j);
            Inv(next.0) && Progress(s, next.0, a, seen + [j], next.1)
  {
    TurnKeeps(env, p, leased, a, j);
    if Takes(p, |leased|, a, j) {
      TakeProgress(env, s, p, a, seen, j, leased);
    } else {
      SkipProgress(s, p, a, seen, j, leased);
    }
  }

  lemma Earlier(jobs: Table, a: LeaseArgs, candidates: seq<Id>, n: nat)
    requires Schedule(jobs, a, candidates) && n < |candidates|
    ensures candidates[n] in jobs && IsDue(jobs[candidates[n]], a) && candidates[n] !in candidates[..n]
    ensures forall i :: i in candidates[..n] ==> i in jobs && Ahead(jobs, i, candidates[n])
    ensures candidates[..n + 1] == candidates[..n] + [candidates[n]]
  {
  }

  lemma {:induction false} LeaseUpToProgress(env: Env, s: State, a: LeaseArgs, candidates: seq<Id>, n: nat)
    returns (p: State, leased: seq<Job>)
    requires Inv(s) && a.duration > 0 && a.limit >= 1
    requires n <= |candidates| && Schedule(s.jobs, a, candidates)
    requires forall j :: j in candidates ==> j in s.jobs
    ensures Reached(env, s, a, candidates, n, p, leased)
    ensures Inv(p) && Progress(s, p, a, candidates[..n], leased)
  {
    if n == 0 {
      p, leased := s, [];
    } else {
      var q, l := LeaseUpToProgress(env, s, a, candidates, n - 1);
      ReachedNext(env, s, a, candidates, n - 1, q, l);
      Earlier(s.jobs, a, candidates, n - 1);
      TurnProgress(env, s, q, a, candidates[..n - 1], candidates[n - 1], l);
      var next := Turn(env, q, l, a, candidates[n - 1]);
      p, leased := next.0, next.1;
    }
  }

  lemma CandidatesAreDue(jobs: Table, a: LeaseArgs, c: Id)
    ensures c in Candidates(jobs, a) <==> c in jobs && IsDue(jobs[c], a)
  {
    assert c in (set j | j in jobs && IsDue(jobs[j], a)) <==> c in jobs && IsDue(jobs[c], a);
  }

  lemma CandidatesAreScheduled(jobs: Table, a: LeaseArgs)
    ensures Schedule(jobs, a, Candidates(jobs, a))
  {
    var candidates := Candidates(jobs, a);
    forall i | 0 <= i < |candidates| ensures candidates[i] in jobs && IsDue(jobs[candidates[i]], a) {
      assert candidates[i] in candidates;
      CandidatesAreDue(jobs, a, candidates[i]);
    }
  }

  /** What one successful lease call does, in terms of the table `cleared` of expired leases. */
  lemma LeaseEffect(env: Env, s: State, a: LeaseArgs, scan: seq<Id>)
    returns (cleared: State, next: State, leased: seq<Job>)
    requires Inv(s) && IsScan(s.jobs, a.now, scan) && !BadLeaseArgs(a)
    ensures cleared == RequeueAll(env, s, scan, a.now, a.recover) && Inv(cleared)
    ensures Lease(env, s, a, scan) == (next, Ok(leased)) && Inv(next)
    ensures Progress(cleared, next, a, Candidates(cleared.jobs, a), leased)
  {
    RequeueAllEffect(env, s, scan, a.now, a.recover);
    cleared := RequeueAll(env, s, scan, a.now, a.recover);
    var candidates := Candidates(cleared.jobs, a);
    CandidatesAreScheduled(cleared.jobs, a);
    assert candidates[..|candidates|] == candidates;
    next, leased := LeaseUpToProgress(env, cleared, a, candidates, |candidates|);
  }

  /** `c` was left behind although there was room, or a job ranked below it was taken. */
  ghost predicate LeftBehind(s: State, a: LeaseArgs, leased: seq<Job>, c: Id) {
    && c in s.jobs && IsDue(s.jobs[c], a) && c !in Taken(leased)
    && (|leased| < a.limit || exists l :: l in Taken(leased) && l in s.jobs && Ahead(s.jobs, c, l))
  }

  lemma LeftBehindIsBlocked(s: State, p: State, a: LeaseArgs, candidates: seq<Id>, leased: seq<Job>, c: Id)
    requires Progress(s, p, a, candidates, leased) && c in candidates && LeftBehind(s, a, leased, c)
    ensures c in p.jobs && Blocked(p, a, c)
  {
    assert PassedOver(s, p, a, leased, c);
    if |leased| >= a.limit {
      var l :| l in Taken(leased) && l in s.jobs && Ahead(s.jobs, c, l);
      assert !Ahead(s.jobs, l, c);
    }
  }

  /** `lease` is work-conserving and never inverts priorities: a due pending job that it
      leaves behind, when it had room or took a job ranked below it, is still blocked in the
      state it returns. What it returns are the rows those jobs now hold; each was due, was
      not excluded, and spends a recovery grant only if recovery was allowed. */
  lemma LeaseIsFair(env: Env, s: State, a: LeaseArgs, scan: seq<Id>, c: Id)
    returns (cleared: State, next: State, leased: seq<Job>)
    requires Inv(s) && IsScan(s.jobs, a.now, scan) && !BadLeaseArgs(a)
    ensures cleared == RequeueAll(env, s, scan, a.now, a.recover)
    ensures Lease(env, s, a, scan) == (next, Ok(leased))
    ensures |leased| <= a.limit && LeasedFrom(cleared, next, a, leased)
    ensures c in Taken(leased) ==> Admitted(cleared, a, c) && IsDue(cleared.jobs[c], a)
    ensures LeftBehind(cleared, a, leased, c) ==> c in next.jobs && Blocked(next, a, c)
  {
    cleared, next, leased := LeaseEffect(env, s, a, scan);
    CandidatesAreDue(cleared.jobs, a, c);
    if LeftBehind(cleared, a, leased, c) {
      LeftBehindIsBlocked(cleared, next, a, Candidates(cleared.jobs, a), leased, c);
    }
  }
}
