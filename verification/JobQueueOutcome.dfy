/** What a caller gets from a lease, read off the columns of the rows and the events alone. */
module JobQueueOutcome {
  import opened Common
  import opened JobContract
  import opened JobHistory
  import opened JobProjection
  import opened JobQueueSpec
  import opened JobQueueInvariant
  import opened JobQueueScheduling
  import opened JobQueueFairness

  // ----------------------------------------------------------- what is handed out

  /** The row of a job leased by this call. */
  ghost predicate HandedOut(a: LeaseArgs, l: Job) {
    && l.status == Leased && l.worker == Some(a.worker) && l.leaseUntil == Some(a.now + a.duration)
    && l.updatedAt == a.now && l.availableAt <= a.now && !l.cancelRequested
    && (a.kinds == [] || exists i :: 0 <= i < |a.kinds| && a.kinds[i] == l.kind)
    && (l.session.Some? && l.branch.Some? ==> (l.session.value, l.branch.value) !in a.excluded)
  }

  /** The row the job had before the call: pending, or leased until a deadline that has passed. */
  ghost predicate TakenFrom(a: LeaseArgs, x: Job, l: Job) {
    && SameTask(x, l) && l.attempts == x.attempts + 1
    && (x.status == Pending || RanOut(x, a.now))
    && (x.status == Pending ==>
          l == x.(status := Leased, leaseUntil := l.leaseUntil, worker := l.worker, attempts := l.attempts,
                  updatedAt := l.updatedAt))
  }

  predicate OnOneBranch(x: Job, y: Job) {
    x.session.Some? && x.branch.Some? && x.session == y.session && x.branch == y.branch
  }

  predicate CreatedBefore(x: Job, y: Job) {
    x.createdAt < y.createdAt || (x.createdAt == y.createdAt && x.id < y.id)
  }

  /** What another job's row says to a serialized job of its branch, after the call: nothing earlier is
      unfinished, and whatever else is leased was taken later in the call, and is not serialized. */
  ghost predicate GivesWay(row: Job, leased: seq<Job>, k: nat)
    requires k < |leased|
  {
    && (row.serialize && CreatedBefore(row, leased[k]) ==> row.status != Pending && row.status != Leased)
    && (row.status == Leased ==> !row.serialize && exists m :: k < m < |leased| && leased[m].id == row.id)
  }

  ghost predicate BranchGivesWay(next: Table, leased: seq<Job>, k: nat)
    requires k < |leased|
  {
    leased[k].serialize ==>
      forall c :: c in next && c != leased[k].id && OnOneBranch(next[c], leased[k]) ==> GivesWay(next[c], leased, k)
  }

  /** The lease at the end of a job's history carries the recovery grant just before it, which only a call that
      allows recovery may spend, and else nothing. */
  ghost predicate SpendsGrant(h: seq<Event>, a: LeaseArgs) {
    && |h| >= 2 && h[|h| - 1].Lifecycle? && h[|h| - 1].kind == JobLeased && h[|h| - 2].Lifecycle?
    && if h[|h| - 2].kind == JobRequeued && h[|h| - 2].metadata.RecoveryGranted? then
         a.allowRecovery && h[|h| - 1].metadata == h[|h| - 2].metadata
       else h[|h| - 1].metadata == Plain
  }

  /** Everything about the jobs handed out. */
  ghost predicate Hands(before: Table, next: State, a: LeaseArgs, leased: seq<Job>) {
    && |leased| <= a.limit
    && (forall i, k :: 0 <= i < k < |leased| ==> leased[i].id != leased[k].id)
    && (forall l :: l in leased ==>
          l.id in before && l.id in next.jobs && next.jobs[l.id] == l
          && HandedOut(a, l) && TakenFrom(a, before[l.id], l))
    && (forall k {:trigger leased[k]} :: 0 <= k < |leased| ==> BranchGivesWay(next.jobs, leased, k))
    && (forall l :: l in leased ==> SpendsGrant(History(next.log, l.id), a))
  }

  // ------------------------------------------------------------- what is left behind

  /** The provider holds fewer leases than its limit. */
  ghost predicate HasRoom(s: State, row: Job) {
    row.provider.None? || row.provider.value !in s.limits
    || |LeasedOf(s.jobs, row.provider.value)| < s.limits[row.provider.value]
  }

  /** A serialized job finds nothing leased on its branch, and no earlier serialized job waiting. */
  ghost predicate BranchIsFree(jobs: Table, row: Job) {
    row.serialize ==>
      forall c :: c in jobs && OnOneBranch(jobs[c], row) ==>
                    jobs[c].status != Leased
                    && !(jobs[c].serialize && CreatedBefore(jobs[c], row) && jobs[c].status == Pending)
  }

  /** The last thing that happened to the job was the grant of its archive recovery. */
  ghost predicate AwaitsRecovery(log: seq<Event>, j: Id) {
    var h := History(log, j);
    h != [] && Last(h).kind == JobRequeued && Last(h).metadata.RecoveryGranted?
  }

  /** Nothing speaks against leasing the job. */
  ghost predicate CouldRun(s: State, a: LeaseArgs, j: Id) {
    j in s.jobs &&
    var row := s.jobs[j];
    && row.status == Pending && row.availableAt <= a.now && !row.cancelRequested
    && (a.kinds == [] || exists i :: 0 <= i < |a.kinds| && a.kinds[i] == row.kind)
    && (row.session.Some? && row.branch.Some? ==> (row.session.value, row.branch.value) !in a.excluded)
    && (AwaitsRecovery(s.log, j) ==> a.allowRecovery)
    && HasRoom(s, row) && BranchIsFree(s.jobs, row)
  }

  /** All of `leased` come before `row`: by higher priority, then earlier availability, then identifier. */
  ghost predicate AllComeBefore(leased: seq<Job>, row: Job) {
    forall l :: l in leased ==>
      || l.priority > row.priority
      || (l.priority == row.priority && l.availableAt < row.availableAt)
      || (l.priority == row.priority && l.availableAt == row.availableAt && l.id < row.id)
  }

  /** A job that could still run was left only because the call was full, with jobs that come before it. */
  ghost predicate LeavesOnly(next: State, a: LeaseArgs, leased: seq<Job>) {
    forall c :: CouldRun(next, a, c) ==> |leased| == a.limit && AllComeBefore(leased, next.jobs[c])
  }

  /** The lease had a deadline, and it has passed. */
  ghost predicate RanOut(row: Job, now: Time) {
    row.status == Leased && row.leaseUntil.Some? && row.leaseUntil.value <= now
  }

  /** How a lease that ran out is taken back, given the job's history: after its one archive recovery the job is
      dead-lettered; if its recovery is asked for now and never was before it is pending; else its attempts
      decide. */
  ghost predicate Reclaims(h: seq<Event>, x: Job, y: Job, recover: bool, now: Time) {
    && h != [] && Last(h).Lifecycle?
    && SameTask(x, y) && y.attempts == x.attempts && y.leaseUntil.None? && y.worker.None?
    && y.availableAt == y.updatedAt == now && y.cancelRequested == x.cancelRequested
    && y.lastError.Some? && (x.lastError.Some? ==> y.lastError == x.lastError)
    && y.status == if Last(h).kind == JobLeased && (Last(h).metadata.RecoveryGranted? || Last(h).metadata.RecoveryExhausted?)
                   then DeadLetter
                   else if recover && (forall e :: e in h && e.Lifecycle? ==>
                                         !e.metadata.RecoveryGranted? && !e.metadata.RecoveryExhausted?)
                   then Pending
                   else if x.attempts >= x.maxAttempts then DeadLetter
                   else Pending
  }

  lemma ReclaimIs(s: State, j: Id, now: Time, recover: set<Id>)
    requires Inv(s) && j in s.jobs
    ensures Reclaims(History(s.log, j), s.jobs[j], AfterExpiry(s, j, now, recover), j in recover, now)
  {
    InvAt(s, j);
    LookBack(s, j);
    HistoryMembers(s.log, j);
  }

  /** What is not handed out keeps its row, unless its lease had run out. */
  ghost predicate LeavesRows(s: State, next: Table, a: LeaseArgs, leased: seq<Job>) {
    && next.Keys == s.jobs.Keys
    && forall j :: j in s.jobs && (forall l :: l in leased ==> l.id != j) ==>
         if RanOut(s.jobs[j], a.now) then Reclaims(History(s.log, j), s.jobs[j], next[j], j in a.recover, a.now)
         else next[j] == s.jobs[j]
  }

  // ------------------------------------------------------------------ branches, turn by turn

  /** When the first `k` jobs had been taken, the branch of the next was free. */
  ghost predicate FoundFree(s: Table, leased: seq<Job>, k: nat)
    requires k < |leased|
  {
    && (forall m :: 0 <= m < k ==> leased[m].id != leased[k].id)
    && (leased[k].serialize ==>
      && (forall c :: c in s && c != leased[k].id && OnOneBranch(s[c], leased[k]) ==>
            s[c].status != Leased && !(s[c].serialize && CreatedBefore(s[c], leased[k]) && s[c].status == Pending))
      && forall m :: 0 <= m < k ==> !OnOneBranch(leased[m], leased[k]))
  }

  ghost predicate AllFoundFree(s: Table, leased: seq<Job>) {
    forall k {:trigger FoundFree(s, leased, k)} :: 0 <= k < |leased| ==> FoundFree(s, leased, k)
  }

  lemma FoundFreeAtTurn(s: State, p: State, a: LeaseArgs, leased: seq<Job>, j: Id)
    requires LeasedFrom(s, p, a, leased) && Cleared(p.jobs, a.now) && AllFoundFree(s.jobs, leased)
    requires j in p.jobs && j !in Taken(leased) && p.jobs[j].status == Pending && p.jobs[j].id == j
    requires BranchAvailable(p.jobs, p.jobs[j], a.now)
    ensures AllFoundFree(s.jobs, leased + [LeasedRow(p.jobs[j], a)])
  {
    var row := LeasedRow(p.jobs[j], a);
    var longer := leased + [row];
    forall m | 0 <= m < |leased| ensures leased[m].id != row.id {
      assert leased[m] in leased && leased[m].id in Taken(leased);
    }
    if row.serialize {
      forall m | 0 <= m < |leased| ensures !OnOneBranch(leased[m], row) {
        assert leased[m] in leased && leased[m].id in Taken(leased);
        assert p.jobs[leased[m].id].status == Leased;
      }
      forall c | c in s.jobs && c != j && OnOneBranch(s.jobs[c], row)
        ensures s.jobs[c].status != Leased
                && !(s.jobs[c].serialize && CreatedBefore(s.jobs[c], row) && s.jobs[c].status == Pending)
      {
        assert c !in Taken(leased) ==> Untouched(s, p, c);
        assert c in p.jobs && SameLane(p.jobs[c], p.jobs[j]) && !IsActive(p.jobs[c], a.now);
        assert !IsEarlierInLane(p.jobs[c], p.jobs[j]) || p.jobs[c].status != Pending;
      }
    }
    forall k | 0 <= k < |longer| ensures FoundFree(s.jobs, longer, k) {
      if k < |leased| { assert FoundFree(s.jobs, leased, k) && longer[k] == leased[k]; }
    }
  }

  lemma {:induction false} LeaseUpToFindsFree(env: Env, s: State, a: LeaseArgs, candidates: seq<Id>, n: nat)
    returns (p: State, leased: seq<Job>)
    requires Inv(s) && Cleared(s.jobs, a.now) && a.duration > 0 && a.limit >= 1
    requires n <= |candidates| && Schedule(s.jobs, a, candidates)
    requires forall j :: j in candidates ==> j in s.jobs
    ensures Reached(env, s, a, candidates, n, p, leased) && Inv(p)
    ensures Progress(s, p, a, candidates[..n], leased) && Cleared(p.jobs, a.now) && AllFoundFree(s.jobs, leased)
    ensures LoggedOnce(s, p, leased)
  {
    if n == 0 {
      p, leased := LeaseUpToProgress(env, s, a, candidates, 0);
    } else {
      var q, l := LeaseUpToFindsFree(env, s, a, candidates, n - 1);
      p, leased := NextFindsFree(env, s, a, candidates, n - 1, q, l);
    }
  }

  lemma NextFindsFree(env: Env, s: State, a: LeaseArgs, candidates: seq<Id>, n: nat, q: State, l: seq<Job>)
    returns (p: State, leased: seq<Job>)
    requires Inv(s) && a.duration > 0 && n < |candidates| && Schedule(s.jobs, a, candidates)
    requires forall j :: j in candidates ==> j in s.jobs
    requires Reached(env, s, a, candidates, n, q, l) && Inv(q)
    requires Progress(s, q, a, candidates[..n], l) && Cleared(q.jobs, a.now) && AllFoundFree(s.jobs, l)
    requires LoggedOnce(s, q, l)
    ensures Reached(env, s, a, candidates, n + 1, p, leased) && Inv(p)
    ensures Progress(s, p, a, candidates[..n + 1], leased) && Cleared(p.jobs, a.now) && AllFoundFree(s.jobs, leased)
    ensures LoggedOnce(s, p, leased)
  {
    var j := candidates[n];
    ReachedNext(env, s, a, candidates, n, q, l);
    Earlier(s.jobs, a, candidates, n);
    TurnProgress(env, s, q, a, candidates[..n], j, l);
    TurnFindsFree(env, s, q, a, candidates[..n], l, j);
    var next := Turn(env, q, l, a, j);
    p, leased := next.0, next.1;
  }

  /** Each job taken has one event more, and every event before is as it was. */
  ghost predicate LoggedOnce(s: State, p: State, leased: seq<Job>) {
    forall l :: l in leased ==>
      var h := History(p.log, l.id);
      h != [] && h[..|h| - 1] == History(s.log, l.id)
  }

  lemma TurnLogsOnce(env: Env, s: State, q: State, a: LeaseArgs, l: seq<Job>, j: Id)
    requires Inv(q) && j in q.jobs && j !in Taken(l) && LeasedFrom(s, q, a, l) && LoggedOnce(s, q, l)
    ensures LoggedOnce(s, LeaseOne(env, q, a, j), l + [LeasedRow(q.jobs[j], a)])
  {
    InvAt(q, j);
    var t := LeaseOne(env, q, a, j);
    TakeTouchesOne(env, q, a, j);
    HistoriesAppend(q.log, Last(t.log));
    assert Untouched(s, q, j);
    forall x | x in l + [LeasedRow(q.jobs[j], a)]
      ensures History(t.log, x.id) != [] && History(t.log, x.id)[..|History(t.log, x.id)| - 1] == History(s.log, x.id)
    {
      if x in l {
        assert x.id in Taken(l) && Untouched(q, t, x.id);
      } else {
        assert History(t.log, j) == History(q.log, j) + [Last(t.log)];
      }
    }
  }

  lemma TurnFindsFree(env: Env, s: State, q: State, a: LeaseArgs, seen: seq<Id>, l: seq<Job>, j: Id)
    requires Inv(q) && a.duration > 0 && j in q.jobs && j !in seen
    requires Progress(s, q, a, seen, l) && Cleared(q.jobs, a.now) && AllFoundFree(s.jobs, l)
    requires LoggedOnce(s, q, l)
    ensures var next := Turn(env, q, l, a, j);
            Cleared(next.0.jobs, a.now) && AllFoundFree(s.jobs, next.1) && LoggedOnce(s, next.0, next.1)
  {
    if Takes(q, |l|, a, j) {
      InvAt(q, j);
      TurnLogsOnce(env, s, q, a, l, j);
      FoundFreeAtTurn(s, q, a, l, j);
    }
  }

  // ------------------------------------------------------------------- the whole call

  lemma GivesWayAfterwards(s: State, p: State, a: LeaseArgs, leased: seq<Job>, k: nat, c: Id)
    requires LeasedFrom(s, p, a, leased) && AllFoundFree(s.jobs, leased) && k < |leased| && leased[k].serialize
    requires c in p.jobs && c != leased[k].id && OnOneBranch(p.jobs[c], leased[k])
    requires p.jobs[c].id == c
    ensures GivesWay(p.jobs[c], leased, k)
  {
    assert FoundFree(s.jobs, leased, k);
    if c in Taken(leased) {
      var l :| l in leased && l.id == c;
      var m :| 0 <= m < |leased| && leased[m] == l;
      assert p.jobs[c] == LeasedRow(s.jobs[c], a);
      assert FoundFree(s.jobs, leased, m);
      assert m > k && (leased[m].serialize ==> !OnOneBranch(leased[k], leased[m]));
    } else {
      assert Untouched(s, p, c);
    }
  }

  lemma CouldRunIsNotBlocked(s: State, a: LeaseArgs, c: Id)
    requires Inv(s) && Cleared(s.jobs, a.now) && CouldRun(s, a, c)
    ensures !Blocked(s, a, c) && IsDue(s.jobs[c], a)
  {
    InvAt(s, c);
    LookBack(s, c);
    var row := s.jobs[c];
    if row.provider.Some? { ActiveIsLeased(s.jobs, row.provider.value, a.now); }
    if row.serialize {
      forall x | x in s.jobs && SameLane(s.jobs[x], row)
        ensures !IsActive(s.jobs[x], a.now)
        ensures !(IsEarlierInLane(s.jobs[x], row) && (s.jobs[x].status == Pending || s.jobs[x].status == Leased))
      {
        assert OnOneBranch(s.jobs[x], row);
      }
    }
  }

  /** A job that could run afterwards was a candidate, and was passed over only because the call was full. */
  lemma LeftForLater(s: State, p: State, a: LeaseArgs, leased: seq<Job>, c: Id)
    requires Inv(s) && Inv(p) && Cleared(p.jobs, a.now)
    requires Progress(s, p, a, Candidates(s.jobs, a), leased) && CouldRun(p, a, c)
    ensures |leased| == a.limit && AllComeBefore(leased, p.jobs[c])
  {
    CouldRunIsNotBlocked(p, a, c);
    assert c !in Taken(leased) && Untouched(s, p, c);
    CandidatesAreDue(s.jobs, a, c);
    assert PassedOver(s, p, a, leased, c);
    InvAt(p, c);
    forall l | l in leased ensures Ahead(s.jobs, l.id, c) && l == LeasedRow(s.jobs[l.id], a) && c in s.jobs {
      assert l.id in Taken(leased);
    }
  }

  lemma HandedOutRow(s: State, p: State, a: LeaseArgs, leased: seq<Job>, l: Job)
    requires Inv(s) && Progress(s, p, a, Candidates(s.jobs, a), leased) && l in leased
    ensures l.id in s.jobs && s.jobs[l.id].status == Pending && l == LeasedRow(s.jobs[l.id], a) && HandedOut(a, l)
    ensures a.allowRecovery || PendingRecovery(s.log, l.id).None?
  {
    assert l.id in Taken(leased);
    CandidatesAreDue(s.jobs, a, l.id);
    assert Admitted(s, a, l.id);
    if a.kinds != [] { var i :| 0 <= i < |a.kinds| && a.kinds[i] == l.kind; }
  }

  /** A job that is pending after the scan was pending before, or its lease had run out. */
  lemma PendingAfterScan(s: State, cleared: State, scan: seq<Id>, a: LeaseArgs, l: Job)
    requires Inv(s) && IsScan(s.jobs, a.now, scan) && Requeued(s, cleared, scan, a.now, a.recover)
    requires l.id in cleared.jobs && cleared.jobs[l.id].status == Pending && l == LeasedRow(cleared.jobs[l.id], a)
    ensures l.id in s.jobs && TakenFrom(a, s.jobs[l.id], l)
  {
    var j := l.id;
    assert j in scan <==> j in Expired(s.jobs, a.now);
    if j !in scan { assert Untouched(s, cleared, j); }
    InvAt(s, j);
  }

  lemma LeaseSpends(s: State, p: State, a: LeaseArgs, leased: seq<Job>, l: Job)
    requires Inv(s) && Inv(p) && LoggedOnce(s, p, leased) && l in leased && l.id in s.jobs && l.id in p.jobs
    requires p.jobs[l.id].status == Leased && s.jobs[l.id].status == Pending
    requires a.allowRecovery || PendingRecovery(s.log, l.id).None?
    ensures SpendsGrant(History(p.log, l.id), a)
  {
    InvAt(p, l.id);
    InvAt(s, l.id);
    LookBack(s, l.id);
    var h := History(p.log, l.id);
    PathPrefix(h, |h| - 1);
    LegalIsEdge(h[..|h| - 1], Last(h));
  }

  /** No provider is given more than its limit, or than it held. */
  ghost predicate KeepsLimits(before: Table, next: State) {
    forall p :: p in next.limits ==>
      |LeasedOf(next.jobs, p)| <= next.limits[p] || |LeasedOf(next.jobs, p)| <= |LeasedOf(before, p)|
  }

  /** A lease call hands out jobs that are due, admitted, within their provider's limit and free on their
      branch, and leaves behind what could run only for jobs that come before it. */
  lemma LeaseOutcome(env: Env, s: State, a: LeaseArgs, scan: seq<Id>) returns (next: State, leased: seq<Job>)
    requires Inv(s) && Exclusive(s.jobs) && IsScan(s.jobs, a.now, scan) && !BadLeaseArgs(a)
    ensures Lease(env, s, a, scan) == (next, Ok(leased)) && Inv(next)
    ensures Hands(s.jobs, next, a, leased) && LeavesOnly(next, a, leased)
    ensures LeavesRows(s, next.jobs, a, leased) && KeepsLimits(s.jobs, next)
  {
    RequeueAllEffect(env, s, scan, a.now, a.recover);
    RequeueIsQuiet(env, s, scan, a.now, a.recover);
    var cleared := RequeueAll(env, s, scan, a.now, a.recover);
    var candidates := Candidates(cleared.jobs, a);
    CandidatesAreScheduled(cleared.jobs, a);
    assert candidates[..|candidates|] == candidates;
    next, leased := LeaseUpToFindsFree(env, cleared, a, candidates, |candidates|);
    HandsAfterScan(s, cleared, next, scan, a, leased);
    forall c | CouldRun(next, a, c) ensures |leased| == a.limit && AllComeBefore(leased, next.jobs[c]) {
      LeftForLater(cleared, next, a, leased, c);
    }
    LeavesRowsAfterScan(s, cleared, next, scan, a, leased);
    LimitsKept(env, s, a, scan, next);
  }

  lemma HandsAfterScan(s: State, cleared: State, next: State, scan: seq<Id>, a: LeaseArgs, leased: seq<Job>)
    requires Inv(s) && IsScan(s.jobs, a.now, scan) && Requeued(s, cleared, scan, a.now, a.recover)
    requires Inv(cleared) && Inv(next) && Progress(cleared, next, a, Candidates(cleared.jobs, a), leased)
    requires AllFoundFree(cleared.jobs, leased) && LoggedOnce(cleared, next, leased)
    ensures Hands(s.jobs, next, a, leased)
  {
    forall i, k | 0 <= i < k < |leased| ensures leased[i].id != leased[k].id {
      assert FoundFree(cleared.jobs, leased, k);
    }
    forall l | l in leased
      ensures l.id in s.jobs && l.id in next.jobs && next.jobs[l.id] == l
      ensures HandedOut(a, l) && TakenFrom(a, s.jobs[l.id], l)
      ensures SpendsGrant(History(next.log, l.id), a)
    {
      HandedOutRow(cleared, next, a, leased, l);
      PendingAfterScan(s, cleared, scan, a, l);
      LeaseSpends(cleared, next, a, leased, l);
    }
    forall k | 0 <= k < |leased| ensures BranchGivesWay(next.jobs, leased, k) {
      forall c | leased[k].serialize && c in next.jobs && c != leased[k].id && OnOneBranch(next.jobs[c], leased[k])
        ensures GivesWay(next.jobs[c], leased, k)
      {
        InvAt(next, c);
        GivesWayAfterwards(cleared, next, a, leased, k, c);
      }
    }
  }

  lemma LeavesRowsAfterScan(s: State, cleared: State, next: State, scan: seq<Id>, a: LeaseArgs, leased: seq<Job>)
    requires Inv(s) && IsScan(s.jobs, a.now, scan) && Requeued(s, cleared, scan, a.now, a.recover)
    requires LeasedFrom(cleared, next, a, leased)
    ensures LeavesRows(s, next.jobs, a, leased)
  {
    forall j | j in s.jobs && (forall l :: l in leased ==> l.id != j)
      ensures if RanOut(s.jobs[j], a.now) then Reclaims(History(s.log, j), s.jobs[j], next.jobs[j], j in a.recover, a.now)
              else next.jobs[j] == s.jobs[j]
    {
      ScannedRow(s, cleared, scan, a.now, a.recover, j);
      assert j !in Taken(leased) && Untouched(cleared, next, j);
    }
  }

  /** A scan takes back what ran out and leaves the rest. */
  lemma ScannedRow(s: State, t: State, scan: seq<Id>, now: Time, recover: set<Id>, j: Id)
    requires Inv(s) && IsScan(s.jobs, now, scan) && Requeued(s, t, scan, now, recover) && j in s.jobs
    ensures j in t.jobs
    ensures if RanOut(s.jobs[j], now) then Reclaims(History(s.log, j), s.jobs[j], t.jobs[j], j in recover, now)
            else t.jobs[j] == s.jobs[j]
  {
    assert j in scan <==> j in Expired(s.jobs, now);
    if j in scan { ReclaimIs(s, j, now, recover); } else { assert Untouched(s, t, j); }
  }

  lemma LimitsKept(env: Env, s: State, a: LeaseArgs, scan: seq<Id>, next: State)
    requires Inv(s) && Exclusive(s.jobs) && IsScan(s.jobs, a.now, scan) && Lease(env, s, a, scan).0 == next
    requires next.limits == s.limits
    ensures KeepsLimits(s.jobs, next)
  {
    var held := HeldBy(s);
    LeaseSafe(env, s, a, scan, held);
    forall p | p in next.limits
      ensures |LeasedOf(next.jobs, p)| <= next.limits[p] || |LeasedOf(next.jobs, p)| <= |LeasedOf(s.jobs, p)|
    {
      assert held[p] == |LeasedOf(s.jobs, p)|;
    }
  }
}
