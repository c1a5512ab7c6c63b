/** One job's lifecycle events, and the automaton they follow.

    `Legal` says what the next event of a job may be, given all its earlier ones;
    everything proved here holds of every history built from `Birth` and `Legal`. */
module JobHistory {
  import opened Common
  import opened JobContract

  /** The lifecycle events of job `j`, in the order they were appended. */
  function History(log: seq<Event>, j: Id): (h: seq<Event>)
    ensures h != [] ==> h[|h| - 1].Concerns(j)
  {
    if log == [] then []
    else
      var earlier := History(log[..|log| - 1], j);
      var last := log[|log| - 1];
      if last.Concerns(j) then earlier + [last] else earlier
  }

  lemma {:induction false} HistoryMembers(log: seq<Event>, j: Id)
    ensures forall e :: e in History(log, j) <==> e in log && e.Concerns(j)
  {
    if log != [] {
      HistoryMembers(log[..|log| - 1], j);
      assert log == log[..|log| - 1] + [log[|log| - 1]];
    }
  }

  /** `ORDER BY created_at DESC, id DESC LIMIT 1` over the lifecycle events of `j`. */
  function Latest(log: seq<Event>, j: Id): Option<Event> {
    if log == [] then None
    else
      var earlier := Latest(log[..|log| - 1], j);
      var last := log[|log| - 1];
      if last.Concerns(j) && (earlier.None? || KeyAtMost(earlier.value.Key(), last.Key())) then Some(last)
      else earlier
  }

  lemma {:induction false} LatestIsGreatest(log: seq<Event>, j: Id)
    ensures match Latest(log, j)
            case None => forall e :: e in log ==> !e.Concerns(j)
            case Some(l) => l in log && l.Concerns(j)
                            && forall e :: e in log && e.Concerns(j) ==> KeyAtMost(e.Key(), l.Key())
  {
    if log != [] {
      LatestIsGreatest(log[..|log| - 1], j);
      assert log == log[..|log| - 1] + [log[|log| - 1]];
    }
  }

  /** `SELECT ... FROM events WHERE id = ?`. */
  function Find(log: seq<Event>, id: Id): (r: Option<Event>)
    ensures r.Some? ==> r.value.id == id
  {
    if log == [] then None
    else if log[0].id == id then Some(log[0])
    else Find(log[1..], id)
  }

  lemma {:induction false} FindMembers(log: seq<Event>, id: Id)
    ensures match Find(log, id)
            case None => forall e :: e in log ==> e.id != id
            case Some(e) => e in log
  {
    if log != [] && log[0].id != id {
      FindMembers(log[1..], id);
      assert log == [log[0]] + log[1..];
    }
  }

  ghost predicate DistinctIds(events: seq<Event>) {
    forall i, j :: 0 <= i < j < |events| ==> events[i].id != events[j].id
  }

  lemma SameId(events: seq<Event>, e: Event, f: Event)
    requires DistinctIds(events) && e in events && f in events && e.id == f.id
    ensures e == f
  {
    var i :| 0 <= i < |events| && events[i] == e;
    var j :| 0 <= j < |events| && events[j] == f;
  }

  lemma HistoryAppend(log: seq<Event>, e: Event, j: Id)
    ensures History(log + [e], j) == if e.Concerns(j) then History(log, j) + [e] else History(log, j)
  {
    assert (log + [e])[..|log|] == log;
  }

  lemma {:induction false} FindAppend(log: seq<Event>, e: Event, id: Id)
    requires Find(log, id).Some?
    ensures Find(log + [e], id) == Find(log, id)
  {
    assert (log + [e])[0] == log[0];
    if log[0].id != id {
      FindAppend(log[1..], e, id);
      assert (log + [e])[1..] == log[1..] + [e];
    }
  }

  function Last(h: seq<Event>): Event
    requires h != []
  {
    h[|h| - 1]
  }

  /** The event that creates a job. */
  ghost predicate Birth(e: Event) {
    && e.Lifecycle?
    && e.kind == JobEnqueued
    && e.metadata == Plain
    && e.parent == e.causation == e.job.source
    && e.correlation.Some?
    && e.job.status == Pending
    && e.job.attempts == 0
    && e.job.maxAttempts >= 1
    && e.job.leaseUntil == None && e.job.worker == None
    && e.job.lastError == None
    && !e.job.cancelRequested
    && (e.job.serialize ==> e.job.session.Some? && e.job.branch.Some?)
  }

  /** Later in time, caused by the previous event of the job, in the same context. */
  ghost predicate Chained(p: Event, e: Event) {
    && e.Lifecycle?
    && p.createdAt < e.createdAt
    && e.parent == e.causation == Some(p.id)
    && e.correlation == p.correlation
    && e.session == p.session
    && e.branch == p.branch
  }

  /** The recovery record a pending job still has to spend. */
  function UnspentGrant(p: Event): Option<Metadata> {
    if p.IsGrant() then Some(p.metadata) else None
  }

  /** How a row may change at one event, given the job's history `h` so far. */
  ghost predicate Moves(h: seq<Event>, kind: EventKind, next: Job, actor: Actor, metadata: Metadata)
    requires h != [] && Last(h).Lifecycle?
  {
    var p := Last(h);
    var row := p.job;
    match kind
    case JobEnqueued => false
    case JobLeased =>
      && row.status == Pending
      && next.worker.Some? && next.leaseUntil.Some?
      && next == row.(status := Leased, leaseUntil := next.leaseUntil, worker := next.worker,
                      attempts := row.attempts + 1, updatedAt := next.updatedAt)
      && actor == Worker(next.worker.value)
      && metadata == (if UnspentGrant(p).Some? then UnspentGrant(p).value else Plain)
    case JobHeartbeat =>
      && row.status == Leased
      && next.leaseUntil.Some?
      && next == row.(leaseUntil := next.leaseUntil, updatedAt := next.updatedAt)
      && actor.Worker? && row.worker == Some(actor.name)
      && metadata == Plain
    case JobCompleted =>
      && row.status == Leased
      && next == row.(status := Completed, leaseUntil := None, worker := None, updatedAt := next.updatedAt)
      && actor.Worker? && row.worker == Some(actor.name)
      && metadata == Plain
    case JobFailed =>
      && row.status == Leased
      && next.lastError.Some?
      && (next.status == Pending || next.status == DeadLetter)
      && (next.status == Pending ==> row.attempts < row.maxAttempts)
      && next == row.(status := next.status, availableAt := next.availableAt, leaseUntil := None,
                      worker := None, lastError := next.lastError, updatedAt := next.updatedAt)
      && actor.Worker? && row.worker == Some(actor.name)
      && metadata == Plain
    case JobCancelled =>
      && (row.status == Pending || row.status == Leased)
      && next == row.(status := Cancelled, cancelRequested := true, leaseUntil := None, worker := None,
                      updatedAt := next.updatedAt)
      && metadata == Plain
    case JobRequeued =>
      && row.status == Leased
      && next.lastError.Some?
      && next == row.(status := next.status, availableAt := next.updatedAt, leaseUntil := None,
                      worker := None, lastError := next.lastError, updatedAt := next.updatedAt)
      && (if p.IsRecoveryLease() then
            next.status == DeadLetter && metadata == RecoveryExhausted
          else if metadata.RecoveryGranted? then
            && next.status == Pending
            && (forall e :: e in h ==> !e.CarriesRecovery())
            && metadata == RecoveryGranted(row.attempts, row.worker, row.leaseUntil)
          else
            && metadata == LeaseExpired
            && next.status == (if row.attempts >= row.maxAttempts then DeadLetter else Pending))
    case JobRetried =>
      && row.status == DeadLetter
      && (next.attempts == row.attempts || next.attempts == 0)
      && next == row.(status := Pending, attempts := next.attempts, availableAt := next.updatedAt,
                      lastError := None, updatedAt := next.updatedAt)
      && metadata == Plain
  }

  ghost predicate Legal(h: seq<Event>, e: Event)
    requires h != []
  {
    && Last(h).Lifecycle?
    && Chained(Last(h), e)
    && Moves(h, e.kind, e.job, e.actor, e.metadata)
  }

  /** A complete, well-formed history of one job. */
  ghost predicate Path(h: seq<Event>) {
    h != [] &&
    if |h| == 1 then Birth(h[0])
    else Path(h[..|h| - 1]) && Legal(h[..|h| - 1], h[|h| - 1])
  }

  lemma PathExtends(h: seq<Event>, e: Event)
    requires Path(h) && Legal(h, e)
    ensures Path(h + [e]) && Last(h + [e]) == e
  {
    assert (h + [e])[..|h|] == h;
  }

  /** What identifies a job and places it never changes. */
  ghost predicate SameTask(x: Job, y: Job) {
    && x.id == y.id && x.kind == y.kind && x.source == y.source && x.payload == y.payload
    && x.createdAt == y.createdAt && x.idempotencyKey == y.idempotencyKey && x.priority == y.priority
    && x.provider == y.provider && x.session == y.session && x.branch == y.branch
    && x.serialize == y.serialize && x.maxAttempts == y.maxAttempts
  }

  lemma MovesKeepTask(h: seq<Event>, kind: EventKind, next: Job, actor: Actor, metadata: Metadata)
    requires h != [] && Last(h).Lifecycle? && Moves(h, kind, next, actor, metadata)
    ensures SameTask(Last(h).job, next) && next.status in AllowedStatuses(kind) && kind != JobEnqueued
  {
  }

  lemma {:induction false} PathPrefix(h: seq<Event>, k: nat)
    requires Path(h) && 0 < k <= |h|
    ensures Path(h[..k])
    ensures k < |h| ==> Legal(h[..k], h[k])
  {
    if k == |h| {
      assert h[..k] == h;
    } else if k < |h| - 1 {
      PathPrefix(h[..|h| - 1], k);
      assert h[..|h| - 1][..k] == h[..k];
    }
  }

  /** Timestamps strictly increase along a job's history. */
  lemma {:induction false} PathIncreasing(h: seq<Event>)
    requires Path(h)
    ensures forall i, j :: 0 <= i < j < |h| ==> h[i].createdAt < h[j].createdAt
  {
    if |h| > 1 {
      PathIncreasing(h[..|h| - 1]);
    }
  }

  /** The latest event of a job by timestamp is the one appended last. */
  lemma LatestIsLast(log: seq<Event>, j: Id)
    requires Path(History(log, j))
    ensures Latest(log, j) == Some(Last(History(log, j)))
  {
    var h := History(log, j);
    PathIncreasing(h);
    HistoryMembers(log, j);
    LatestIsGreatest(log, j);
    assert Last(h) in h;
    var e := Latest(log, j).value;
    assert e in h;
    var i :| 0 <= i < |h| && h[i] == e;
  }

  // ---------------------------------------------------------------- counting

  ghost function Count(h: seq<Event>, p: Event -> bool): nat {
    if h == [] then 0 else Count(h[..|h| - 1], p) + if p(Last(h)) then 1 else 0
  }

  ghost function Leases(h: seq<Event>): nat { Count(h, (e: Event) => e.Is(JobLeased)) }
  ghost function Retries(h: seq<Event>): nat { Count(h, (e: Event) => e.Is(JobRetried)) }
  ghost function Grants(h: seq<Event>): nat { Count(h, (e: Event) => e.IsGrant()) }
  ghost function RecoveryLeases(h: seq<Event>): nat { Count(h, (e: Event) => e.IsRecoveryLease()) }

  /** Leases since the attempt counter was last reset by a retry. */
  ghost function LeasesSinceReset(h: seq<Event>): nat {
    if h == [] then 0
    else
      var e := Last(h);
      if e.Is(JobRetried) && e.job.attempts == 0 then 0
      else LeasesSinceReset(h[..|h| - 1]) + if e.Is(JobLeased) then 1 else 0
  }

  // ------------------------------------------------------------- consequences

  /** What couples the columns of a row in every reachable table. */
  ghost predicate RowShape(row: Job) {
    && (row.status == Leased <==> row.leaseUntil.Some?)
    && (row.status == Leased <==> row.worker.Some?)
    && (row.status == Cancelled <==> row.cancelRequested)
    && (row.status == DeadLetter ==> row.lastError.Some?)
    && row.attempts >= (if row.status == Leased || row.status == DeadLetter || row.status == Completed then 1 else 0)
    && row.maxAttempts >= 1
    && (row.serialize ==> row.session.Some? && row.branch.Some?)
  }

  lemma LegalKeepsShape(h: seq<Event>, e: Event)
    requires h != [] && Legal(h, e) && RowShape(Last(h).job)
    ensures RowShape(e.job)
  {
  }

  lemma LegalKeepsContext(h: seq<Event>, e: Event)
    requires h != [] && Legal(h, e)
    ensures SameTask(Last(h).job, e.job) && e.job.status in AllowedStatuses(e.kind)
    ensures e.correlation == Last(h).correlation && e.session == Last(h).session && e.branch == Last(h).branch
  {
    MovesKeepTask(h, e.kind, e.job, e.actor, e.metadata);
  }

  /** A lifecycle event with a well-shaped row, in the context of its job's first event. */
  ghost predicate InShape(e: Event, first: Event) {
    && e.Lifecycle? && RowShape(e.job) && e.job.status in AllowedStatuses(e.kind)
    && first.Lifecycle? && e.job.id == first.job.id && e.job.source == first.job.source
    && e.correlation == first.correlation && e.correlation.Some?
    && e.session == first.session && e.branch == first.branch
  }

  lemma {:induction false} PathShape(h: seq<Event>)
    requires Path(h)
    ensures forall e :: e in h ==> InShape(e, h[0])
  {
    if |h| > 1 {
      var earlier := h[..|h| - 1];
      PathShape(earlier);
      assert Last(earlier) in earlier && InShape(Last(earlier), h[0]);
      LegalKeepsShape(earlier, Last(h));
      LegalKeepsContext(earlier, Last(h));
      assert h == earlier + [Last(h)];
    }
  }

  /** What identifies and places the job is the same in all its snapshots. */
  lemma {:induction false} PathKeepsTask(h: seq<Event>)
    requires Path(h)
    ensures forall e :: e in h ==> e.Lifecycle? && SameTask(e.job, Last(h).job)
  {
    if |h| > 1 {
      var earlier := h[..|h| - 1];
      PathKeepsTask(earlier);
      LegalKeepsContext(earlier, Last(h));
      assert h == earlier + [Last(h)];
    }
  }

  /** How one event changes the attempt counter, and when it may leave the job pending. */
  lemma LegalAttempts(h: seq<Event>, e: Event)
    requires h != [] && Legal(h, e) && RowShape(Last(h).job)
    ensures e.job.maxAttempts == Last(h).job.maxAttempts
    ensures e.Is(JobLeased) ==> Last(h).job.status == Pending && e.job.attempts == Last(h).job.attempts + 1
    ensures !e.Is(JobLeased) && !e.Is(JobRetried) ==> e.job.attempts == Last(h).job.attempts
    ensures e.Is(JobRetried) ==>
              Last(h).job.attempts > 0 && (e.job.attempts == 0 || e.job.attempts == Last(h).job.attempts)
    ensures e.job.status == Pending ==> e.Is(JobRetried) || e.IsGrant() || e.job.attempts < e.job.maxAttempts
  {
  }

  lemma CountSnoc(h: seq<Event>, e: Event)
    ensures Grants(h + [e]) == Grants(h) + if e.IsGrant() then 1 else 0
    ensures Retries(h + [e]) == Retries(h) + if e.Is(JobRetried) then 1 else 0
    ensures Leases(h + [e]) == Leases(h) + if e.Is(JobLeased) then 1 else 0
    ensures RecoveryLeases(h + [e]) == RecoveryLeases(h) + if e.IsRecoveryLease() then 1 else 0
  {
    assert (h + [e])[..|h|] == h;
  }

  /** The attempt counter is the number of leases since its last reset, and stays within
      the budget plus the one recovery grant plus one per dead-letter retry. */
  lemma {:induction false} AttemptAccounting(h: seq<Event>)
    requires Path(h)
    ensures Last(h).job.attempts == LeasesSinceReset(h)
    ensures Last(h).job.attempts <= Last(h).job.maxAttempts + Grants(h) + Retries(h)
    ensures Last(h).job.status == Pending ==>
              Last(h).job.attempts < Last(h).job.maxAttempts + Grants(h) + Retries(h)
  {
    PathShape(h);
    if |h| > 1 {
      var earlier := h[..|h| - 1];
      AttemptAccounting(earlier);
      assert h == earlier + [Last(h)] && Last(earlier) in h && InShape(Last(earlier), h[0]);
      LegalAttempts(earlier, Last(h));
      CountSnoc(earlier, Last(h));
    } else {
      assert h[..|h| - 1] == [];
    }
  }

  /** Without retries every lease is still counted, so a job is leased at most one time
      more than its budget. */
  lemma {:induction false} LeasesWithoutRetry(h: seq<Event>)
    requires Path(h) && Retries(h) == 0
    ensures Leases(h) == Last(h).job.attempts <= Last(h).job.maxAttempts + 1
  {
    AttemptAccounting(h);
    RecoveryOnce(h);
    NoRetryNoReset(h);
  }

  lemma {:induction false} NoRetryNoReset(h: seq<Event>)
    requires Retries(h) == 0
    ensures Leases(h) == LeasesSinceReset(h)
  {
    if h != [] {
      NoRetryNoReset(h[..|h| - 1]);
    }
  }

  /** At most one grant and at most one recovery lease over the whole life of a job, resets
      included; a recovery lease spends the grant recorded by the event just before it. */
  lemma {:induction false} RecoveryOnce(h: seq<Event>)
    requires Path(h)
    ensures Grants(h) <= 1
    ensures RecoveryLeases(h) + (if Last(h).IsGrant() then 1 else 0) <= Grants(h)
    ensures Grants(h) > 0 ==> exists e :: e in h && e.CarriesRecovery()
  {
    var earlier := h[..|h| - 1];
    assert h == earlier + [Last(h)];
    if |h| > 1 {
      RecoveryOnce(earlier);
      if Grants(earlier) > 0 {
        var e :| e in earlier && e.CarriesRecovery();
        assert e in h;
      } else {
        assert Last(h) in h;
      }
    } else {
      assert Grants(earlier) == RecoveryLeases(earlier) == 0;
    }
  }

  lemma RecoveryLeaseSpendsGrant(h: seq<Event>, k: nat)
    requires Path(h) && k < |h| && h[k].IsRecoveryLease()
    ensures k > 0 && h[k - 1].IsGrant() && h[k].metadata == h[k - 1].metadata
  {
    PathPrefix(h, if k == 0 then 1 else k);
    assert h[..1] == [h[0]];
  }

  /** If the recovery lease is the job's latest event when it expires (so there has been no
      heartbeat), the job is dead-lettered whatever its attempt count. */
  lemma ExpiredRecoveryIsFinal(h: seq<Event>, k: nat)
    requires Path(h) && 0 < k < |h| && h[k - 1].IsRecoveryLease() && h[k].Is(JobRequeued)
    ensures h[k].Leaves(DeadLetter) && h[k].metadata == RecoveryExhausted
  {
    PathPrefix(h, k);
  }

  /** A heartbeat makes the queue forget that a lease was the recovery lease: when that one expires after
      all, the job is dead-lettered only if its attempts are used up. */
  lemma HeartbeatForgetsRecovery(h: seq<Event>, m: nat, e: Event)
    requires m < |h| && h[m].IsGrant() && Last(h).Is(JobHeartbeat) && Legal(h, e) && e.Is(JobRequeued)
    ensures e.metadata == LeaseExpired
    ensures e.Leaves(DeadLetter) <==> Last(h).job.attempts >= Last(h).job.maxAttempts
  {
    assert h[m] in h && h[m].CarriesRecovery();
  }

  /** The lifecycle automaton: from one status, by one kind of event, to another. */
  ghost predicate Edge(before: JobStatus, kind: EventKind, after: JobStatus) {
    match kind
    case JobEnqueued => false
    case JobLeased => before == Pending && after == Leased
    case JobHeartbeat => before == Leased && after == Leased
    case JobCompleted => before == Leased && after == Completed
    case JobFailed => before == Leased && (after == Pending || after == DeadLetter)
    case JobCancelled => (before == Pending || before == Leased) && after == Cancelled
    case JobRequeued => before == Leased && (after == Pending || after == DeadLetter)
    case JobRetried => before == DeadLetter && after == Pending
  }

  lemma EveryEventIsAnEdge(h: seq<Event>, k: nat)
    requires Path(h) && k < |h|
    ensures if k == 0 then h[0].Is(JobEnqueued) && h[0].Leaves(Pending)
            else h[k - 1].Lifecycle? && h[k].Lifecycle? && Edge(h[k - 1].job.status, h[k].kind, h[k].job.status)
  {
    PathPrefix(h, if k == 0 then 1 else k);
    if k == 0 {
      assert h[..1] == [h[0]];
    } else {
      assert Last(h[..k]) == h[k - 1];
      LegalIsEdge(h[..k], h[k]);
    }
  }

  lemma LegalIsEdge(h: seq<Event>, e: Event)
    requires h != [] && Legal(h, e)
    ensures Last(h).Lifecycle? && e.Lifecycle? && Edge(Last(h).job.status, e.kind, e.job.status)
  {
  }

  /** Nothing follows completion or cancellation. */
  lemma CompletedOrCancelledIsLast(h: seq<Event>, k: nat)
    requires Path(h) && k < |h| && (h[k].Leaves(Completed) || h[k].Leaves(Cancelled))
    ensures k == |h| - 1
  {
    if k + 1 < |h| {
      EveryEventIsAnEdge(h, k + 1);
    }
  }

  ghost predicate EdgeAt(h: seq<Event>, k: nat)
    requires 0 < k < |h|
  {
    h[k - 1].Lifecycle? && h[k].Lifecycle? && Edge(h[k - 1].job.status, h[k].kind, h[k].job.status)
  }

  /** Every step of the history is an edge of the automaton. */
  ghost predicate Edges(h: seq<Event>) {
    forall k {:trigger EdgeAt(h, k)} :: 0 < k < |h| ==> EdgeAt(h, k)
  }

  lemma PathEdges(h: seq<Event>)
    requires Path(h)
    ensures Edges(h)
  {
    forall k | 0 < k < |h| ensures EdgeAt(h, k) { EveryEventIsAnEdge(h, k); }
  }

  /** A lease that failed or expired is followed by the next lease at once, or after one retry. */
  lemma ClosedThenLeased(h: seq<Event>, k: nat, j: nat)
    requires Edges(h) && 0 < k < j < |h| && (h[k].Is(JobFailed) || h[k].Is(JobRequeued)) && h[j].Is(JobLeased)
    requires forall m :: k < m < j ==> !h[m].Is(JobLeased)
    ensures if h[k].Leaves(Pending) then k + 1 == j
            else h[k].Leaves(DeadLetter) && k + 2 == j && h[k + 1].Is(JobRetried)
  {
    assert EdgeAt(h, k) && EdgeAt(h, k + 1);
    if k + 1 < j {
      assert EdgeAt(h, k + 2);
      if k + 2 < j { assert EdgeAt(h, k + 3); }
    }
  }

  /** The event that closes the lease taken at `i`. */
  lemma Closing(h: seq<Event>, i: nat, j: nat) returns (k: nat)
    requires Edges(h) && i < j < |h| && h[i].Leaves(Leased) && h[j].Is(JobLeased)
    requires forall m :: i < m < j ==> !h[m].Is(JobLeased)
    ensures i < k < j && (forall m :: i < m < k ==> h[m].Is(JobHeartbeat))
    ensures h[k].Is(JobFailed) || h[k].Is(JobRequeued)
  {
    k := i + 1;
    assert EdgeAt(h, k);
    while h[k].Is(JobHeartbeat)
      invariant i < k <= j && EdgeAt(h, k) && h[k - 1].Leaves(Leased)
      invariant forall m :: i < m < k ==> h[m].Is(JobHeartbeat)
      decreases j - k
    {
      k := k + 1;
      assert EdgeAt(h, k);
    }
    if k < j { assert EdgeAt(h, k + 1); }
  }

  /** Between two consecutive leases: heartbeats, then exactly one failure or expiry, then
      nothing if the job went back to pending and one retry if it was dead-lettered. */
  lemma BetweenLeases(h: seq<Event>, i: nat, j: nat) returns (k: nat)
    requires Path(h) && i < j < |h|
    requires h[i].Is(JobLeased) && h[j].Is(JobLeased)
    requires forall m :: i < m < j ==> !h[m].Is(JobLeased)
    ensures i < k < j
    ensures forall m :: i < m < k ==> h[m].Is(JobHeartbeat)
    ensures h[k].Is(JobFailed) || h[k].Is(JobRequeued)
    ensures if h[k].Leaves(Pending) then k + 1 == j
            else h[k].Leaves(DeadLetter) && k + 2 == j && h[k + 1].Is(JobRetried)
  {
    PathEdges(h);
    EveryEventIsAnEdge(h, i);
    k := Closing(h, i, j);
    ClosedThenLeased(h, k, j);
  }
}
