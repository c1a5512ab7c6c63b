/** Three bundles that the importer accepts, exported from queues whose clock fell back or whose job has a
    namesake: a retried job is not disarmed, a completed one is cancelled, a local one is replaced. */
module BundleScenarios {
  import opened Common
  import opened Sorting
  import opened JobContract
  import opened JobHistory
  import opened JobProjection
  import opened BundleOrder
  import opened BundleLineage
  import opened BundleQuarantine
  import opened BundleImport
  import opened BundleOutcome
  import opened BundleImporter
  import opened JobQueueScenarios
  import JobQueueSpec

  // ------------------------------------------------------------------ exported logs

  /** The bundle of a log that begins with the opening of its session. */
  function BundleOf(log: seq<Event>): (bundle: seq<BundleEvent>)
    ensures |bundle| == |log|
    ensures forall i :: 0 <= i < |log| ==>
              bundle[i] == BundleEvent(log[i], {}, {}, None, if i == 0 then OpensSession else Ordinary)
  {
    seq(|log|, i requires 0 <= i < |log| =>
      BundleEvent(log[i], {}, {}, None, if i == 0 then OpensSession else Ordinary))
  }

  /** A log on one branch, in the order of its keys, in which an event refers at most to the one before. */
  ghost predicate IsChain(log: seq<Event>) {
    && log != [] && log[0].session.Some? && log[0].branch.Some?
    && (forall e :: e in log ==> e.session == log[0].session && e.branch == log[0].branch)
    && (forall i, k :: 0 <= i < k < |log| ==> log[i].id != log[k].id && KeyLess(log[i].Key(), log[k].Key()))
    && forall k :: 0 <= k < |log| ==> RefersToPrevious(log, k)
  }

  ghost predicate RefersToPrevious(log: seq<Event>, k: nat)
    requires k < |log|
  {
    log[k].parent == log[k].causation && (log[k].parent.None? || (k > 0 && log[k].parent.value == log[k - 1].id))
  }

  /** Every check of the importer on the bundle itself passes, and its order is that of the log. */
  ghost predicate IsAccepted(log: seq<Event>) {
    var bundle := BundleOf(log);
    && SoundLineage(bundle) && OneSession(bundle) && Resolved(bundle) && !Cyclic(bundle)
    && Canonical(bundle, bundle) && EventsOf(bundle) == log && TaskJobs(bundle) == {}
  }

  lemma RefersBack(log: seq<Event>, k: nat)
    requires IsChain(log) && k < |log|
    ensures BundleOf(log)[k].Dependencies() <= Ids(BundleOf(log)[..k])
    ensures BundleOf(log)[k].Id() !in BundleOf(log)[k].Dependencies()
  {
    var bundle := BundleOf(log);
    assert RefersToPrevious(log, k);
    if log[k].parent.Some? {
      assert bundle[..k][k - 1].Id() == log[k - 1].id;
      IdsMember(bundle[..k], log[k - 1].id);
    }
  }

  lemma ChainIsCanonical(log: seq<Event>)
    requires IsChain(log)
    ensures Distinct(BundleOf(log)) && Canonical(BundleOf(log), BundleOf(log))
  {
    var bundle := BundleOf(log);
    forall k | 0 <= k < |bundle| ensures LeastReady(bundle, bundle, k) {
      RefersBack(log, k);
      forall i | 0 <= i < k ensures bundle[..k][i] != bundle[k] {
        assert bundle[i].Id() != bundle[k].Id();
      }
      forall b | b in bundle && b !in bundle[..k] ensures KeyAtMost(bundle[k].Key(), b.Key()) {
        LaterIsGreater(log, k, b);
      }
    }
  }

  lemma LaterIsGreater(log: seq<Event>, k: nat, b: BundleEvent)
    requires IsChain(log) && k < |log| && b in BundleOf(log) && b !in BundleOf(log)[..k]
    ensures KeyAtMost(BundleOf(log)[k].Key(), b.Key())
  {
    var m := PastPrefix(BundleOf(log), k, b);
    assert b.event == log[m] && BundleOf(log)[k].event == log[k];
  }

  lemma PastPrefix<T>(values: seq<T>, k: nat, v: T) returns (m: nat)
    requires k <= |values| && v in values && v !in values[..k]
    ensures k <= m < |values| && values[m] == v
  {
    assert values == values[..k] + values[k..];
    var i :| 0 <= i < |values| - k && values[k..][i] == v;
    m := k + i;
  }

  lemma {:induction false} NothingForks(bundle: seq<BundleEvent>, branch: Option<string>)
    requires forall b :: b in bundle ==> !b.role.ForksBranch?
    ensures Forks(bundle, branch) == 0
  {
    if bundle != [] {
      var n := |bundle| - 1;
      assert forall b :: b in bundle[..n] ==> b in bundle;
      NothingForks(bundle[..n], branch);
      assert bundle[n] in bundle;
    }
  }

  lemma ChainIsAccepted(log: seq<Event>)
    requires IsChain(log)
    ensures IsAccepted(log)
  {
    var bundle := BundleOf(log);
    ChainIsCanonical(log);
    SortedMeansAcyclic(bundle, bundle);
    forall b | b in bundle ensures b.event in log {
      var k :| 0 <= k < |bundle| && bundle[k] == b;
      assert log[k] in log;
    }
    forall b | b in bundle ensures ResolvesIn(b, bundle) {
      var k :| 0 <= k < |bundle| && bundle[k] == b;
      RefersBack(log, k);
      forall x | x in b.Dependencies() ensures x in Ids(bundle) {
        IdsMember(bundle[..k], x);
        IdsMember(bundle, x);
      }
    }
    NothingForks(bundle, log[0].branch);
    assert SingleRoot(bundle, 0) && SingleOrigins(bundle, bundle[0].event.branch);
  }

  /** A snapshot in its own context, without source and key, passes whatever the log. */
  predicate StandsAlone(e: Event) {
    e.Lifecycle? ==>
      && e.job.status in AllowedStatuses(e.kind) && e.correlation.Some?
      && e.job.source.None? && e.job.idempotencyKey.None?
      && e.session == e.job.session && e.branch == e.job.branch && e.session.Some? && e.branch.Some?
      && (e.kind == JobEnqueued ==> e.parent == e.causation == None)
  }

  ghost predicate AllStandAlone(log: seq<Event>) {
    forall e :: e in log ==> StandsAlone(e)
  }

  /** A log of such snapshots replays, and leaves the row of its job's newest event. */
  lemma ReplayedTable(log: seq<Event>, e: Event) returns (table: Table)
    requires DistinctIds(log) && AllStandAlone(log) && LastByKey(log, e)
    ensures Replay(Listing(log), log) == Ok(table) && e.job.id in table && table[e.job.id] == e.job
  {
    SameMembers(Listing(log), log);
    forall d | d in Listing(log) ensures Passes(log, d) {
      assert StandsAlone(d);
    }
    assert forall d :: d in Listing(log) ==> StandsAlone(d);
    FreeKeysIff(Listing(log));
    ReplayRefuses(Listing(log), log);
    table := Replay(Listing(log), log).value;
    NewestDecides(log, e);
  }

  ghost predicate IdsAscend(log: seq<Event>) {
    forall i, k :: 0 <= i < k < |log| ==> log[i].id < log[k].id
  }

  lemma AscendSnoc(log: seq<Event>, e: Event)
    requires IdsAscend(log) && (log == [] || Last(log).id < e.id)
    ensures IdsAscend(log + [e])
  {
  }

  /** The audit event of an import of `events`, whose newest event is `tip`. */
  function Audit(events: seq<Event>, tip: Event, now: Time, id: Id): Event
    requires events != []
  {
    Other(id, AuditTime(now, events), tip.session, tip.branch, Some(tip.id), Some(tip.id), tip.correlation)
  }

  // -------------------------------------------------------------- a retry stays armed

  ghost predicate IsSlowRetry(log: seq<Event>) {
    && |log| == 5 && log[0] == OPENING
    && OfJob7(log[1], 2, JobEnqueued, 10, 10, Pending, None)
    && OfJob7(log[2], 3, JobLeased, 20, 20, Leased, Some(2))
    && OfJob7(log[3], 4, JobFailed, 100, 100, DeadLetter, Some(3))
    && OfJob7(log[4], 5, JobRetried, 101, 50, Pending, Some(4))
  }

  lemma NothingSelected(log: seq<Event>, e: Event)
    requires IsSlowRetry(log)
    ensures !Selected(log, {}, e)
  {
    assert log[3] in log && log[3].Concerns(7);
    if e in log { assert e == log[0] || e == log[3] || Newer(StampOf(log[3]), StampOf(e)); }
  }

  lemma SlowRetryIsChain(log: seq<Event>)
    requires IsSlowRetry(log)
    ensures IsChain(log) && IdsAscend(log) && log[4] in log
  {
    assert log == [log[0], log[1], log[2], log[3], log[4]];
  }

  lemma SlowRetryFacts(log: seq<Event>)
    requires IsSlowRetry(log)
    ensures AllStandAlone(log) && LastByKey(log, log[4])
  {
    assert log == [log[0], log[1], log[2], log[3], log[4]] && log[4] in log;
    assert StandsAlone(log[1]) && StandsAlone(log[2]) && StandsAlone(log[3]) && StandsAlone(log[4]);
  }

  lemma SlowRetryImport(g: Given)
    requires IsSlowRetry(g.events) && g.prior == [] && g.tasks == {}
    requires g.audit.Other? && g.audit.id > 5 && g.audit.createdAt > 101
    ensures Import(g, [], []) && LastByKey(g.Log([]), g.events[4]) && AllStandAlone(g.Log([]))
  {
    SlowRetryIsChain(g.events);
    SlowRetryFacts(g.events);
    assert g.Log([]) == g.events + [g.audit];
    AscendSnoc(g.events, g.audit);
    forall e ensures !g.Quarantines(e) { NothingSelected(g.events, e); }
  }

  /** The whole import of that log, at any instant: it is accepted, nothing is quarantined, and the rebuilt
      worker job is pending. */
  lemma RetryUnderSlowClockStaysArmed(now: Time, auditId: Id, ids: nat -> Id)
    returns (r: Trace, s: JobQueueSpec.State, g: Given, table: Table)
    requires auditId > 5
    ensures Reaches(SLOW, r, s) && IsAccepted(s.log)
    ensures s.log != [] && g == Given([], s.log, {}, Audit(s.log, Last(s.log), now, auditId), ids)
    ensures Import(g, [], []) && g.Rebuilt([]) == Ok(table)
    ensures 7 in table && table[7].status == Pending && IsWorkerJob(table[7], {})
    ensures !Disarmed(g, table)
  {
    r, s := SlowRetry();
    g, table := SlowRetryArmed(s.log, now, auditId, ids);
  }

  lemma SlowRetryArmed(log: seq<Event>, now: Time, auditId: Id, ids: nat -> Id) returns (g: Given, table: Table)
    requires IsSlowRetry(log) && auditId > 5
    ensures IsAccepted(log) && g == Given([], log, {}, Audit(log, Last(log), now, auditId), ids)
    ensures Import(g, [], []) && g.Rebuilt([]) == Ok(table)
    ensures 7 in table && table[7].status == Pending && IsWorkerJob(table[7], {})
    ensures !Disarmed(g, table)
  {
    SlowRetryIsChain(log);
    ChainIsAccepted(log);
    g := Given([], log, {}, Audit(log, Last(log), now, auditId), ids);
    SlowRetryImport(g);
    table := ReplayedTable(g.Log([]), log[4]);
    assert log[4] in log && log[4].Concerns(7);
    assert g.Names(7);
  }

  // ------------------------------------------------------ a completed job is cancelled

  ghost predicate IsSlowCompletion(log: seq<Event>) {
    && |log| == 4 && log[0] == OPENING
    && OfJob7(log[1], 2, JobEnqueued, 10, 10, Pending, None)
    && OfJob7(log[2], 3, JobLeased, 100, 100, Leased, Some(2))
    && OfJob7(log[3], 4, JobCompleted, 101, 50, Completed, Some(3))
  }

  lemma LeaseIsSelected(log: seq<Event>, e: Event)
    requires IsSlowCompletion(log)
    ensures Selected(log, {}, e) <==> e == log[2]
  {
    assert log[2] in log && log[2].Concerns(7) && Candidate(log[2], {});
    if e in log { assert e == log[0] || e == log[2] || Newer(StampOf(log[2]), StampOf(e)); }
  }

  lemma SlowCompletionIsChain(log: seq<Event>)
    requires IsSlowCompletion(log)
    ensures IsChain(log) && IdsAscend(log) && log[3] in log
  {
    assert log == [log[0], log[1], log[2], log[3]];
  }

  lemma SlowCompletionFacts(log: seq<Event>)
    requires IsSlowCompletion(log)
    ensures AllStandAlone(log) && forall e :: e in log ==> e.createdAt <= 101
  {
    assert log == [log[0], log[1], log[2], log[3]];
  }

  lemma SlowCompletionImport(g: Given, c: Event)
    requires IsSlowCompletion(g.events) && g.prior == [] && g.tasks == {}
    requires g.audit.Other? && 4 < g.audit.id < g.ids(0) && g.audit.createdAt > 101
    requires c == Cancellation(g.events[2], g.audit, 1, g.ids(0))
    ensures Import(g, [g.events[2]], [c])
  {
    SlowCompletionIsChain(g.events);
    SlowCompletionFacts(g.events);
    assert g.Log([c]) == g.events + [g.audit] + [c];
    AscendSnoc(g.events, g.audit);
    AscendSnoc(g.events + [g.audit], c);
    forall e ensures e in [g.events[2]] <==> g.Quarantines(e) { LeaseIsSelected(g.events, e); }
  }

  lemma SlowCompletionTable(g: Given, c: Event) returns (table: Table)
    requires IsSlowCompletion(g.events) && g.prior == [] && g.audit.Other? && g.audit.createdAt > 101
    requires c == Cancellation(g.events[2], g.audit, 1, g.ids(0)) && DistinctIds(g.Log([c]))
    ensures g.Rebuilt([c]) == Ok(table) && 7 in table && table[7] == c.job
  {
    CancellationIsNewest(g, c);
    table := ReplayedTable(g.Log([c]), c);
  }

  lemma CancellationIsNewest(g: Given, c: Event)
    requires IsSlowCompletion(g.events) && g.prior == [] && g.audit.Other? && g.audit.createdAt > 101
    requires c == Cancellation(g.events[2], g.audit, 1, g.ids(0))
    ensures LastByKey(g.Log([c]), c) && AllStandAlone(g.Log([c]))
  {
    SlowCompletionFacts(g.events);
    forall e | e in g.Log([c]) ensures e in g.events || e == g.audit || e == c { LogMembers(g, [c], e); }
    assert StandsAlone(g.events[2]) by { assert g.events[2] in g.events; }
    LogMembers(g, [c], c);
  }

  /** The import of a log whose queue completed the job: the snapshot updated last is the lease, and its
      cancellation turns the completed job into a cancelled one. */
  lemma CompletedJobIsCancelled(now: Time, auditId: Id, ids: nat -> Id)
    returns (r: Trace, s: JobQueueSpec.State, g: Given, c: Event, table: Table)
    requires 4 < auditId < ids(0)
    ensures Reaches(FALLEN, r, s) && IsAccepted(s.log)
    ensures 7 in s.jobs && s.jobs[7].status == Completed
    ensures s.log != [] && g == Given([], s.log, {}, Audit(s.log, Last(s.log), now, auditId), ids)
    ensures |s.log| == 4 && Import(g, [s.log[2]], [c]) && g.Rebuilt([c]) == Ok(table)
    ensures 7 in table && table[7].status == Cancelled
  {
    r, s := SlowCompletion();
    g, c, table := SlowCompletionCancelled(s.log, now, auditId, ids);
  }

  lemma SlowCompletionCancelled(log: seq<Event>, now: Time, auditId: Id, ids: nat -> Id)
    returns (g: Given, c: Event, table: Table)
    requires IsSlowCompletion(log) && 4 < auditId < ids(0)
    ensures IsAccepted(log) && g == Given([], log, {}, Audit(log, Last(log), now, auditId), ids)
    ensures Import(g, [log[2]], [c]) && g.Rebuilt([c]) == Ok(table)
    ensures 7 in table && table[7].status == Cancelled
  {
    SlowCompletionIsChain(log);
    ChainIsAccepted(log);
    g := Given([], log, {}, Audit(log, Last(log), now, auditId), ids);
    c := Cancellation(log[2], g.audit, 1, ids(0));
    SlowCompletionImport(g, c);
    table := SlowCompletionTable(g, c);
  }

  // ------------------------------------------------------------ a local job replaced

  /** Another lab's session, with a job that happens to have the same identifier. */
  function Elsewhere(): seq<Event> {
    [Other(6, 150, Some("elsewhere"), Some("copy"), None, None, Some(11)),
     Lifecycle(7, 200, Some("elsewhere"), Some("copy"), None, None, Some(11), JobEnqueued, JobQueueSpec.QUEUE_ACTOR,
               Job(7, "index", Pending, None, 200, None, None, 0, "", 200, 200, None, 0, None, Some("elsewhere"),
                   Some("copy"), false, 1, None, false), Plain)]
  }

  lemma ElsewhereIsChain()
    ensures IsChain(Elsewhere())
  {
    assert Elsewhere()[0].id < Elsewhere()[1].id;
  }

  lemma SlowRetryPlace(log: seq<Event>, e: Event)
    requires IsSlowRetry(log) && e in log
    ensures e.id <= 5 && e.session == Some("session") && e.branch == Some("branch")
  {
    assert log == [log[0], log[1], log[2], log[3], log[4]];
  }

  lemma ElsewherePlace(f: Event)
    requires f in Elsewhere()
    ensures f.id >= 6 && f.session == Some("elsewhere") && f.branch == Some("copy")
  {
  }

  lemma ElsewhereIsApart(log: seq<Event>)
    requires IsSlowRetry(log)
    ensures !Collides(log, Elsewhere())
  {
    var there := Elsewhere();
    assert "session"[0] != "elsewhere"[0] && "branch"[0] != "copy"[0];
    forall e, f | e in log && f in there ensures !SharesIdentity(e, f) {
      SlowRetryPlace(log, e);
      ElsewherePlace(f);
    }
  }

  lemma ElsewhereImport(g: Given)
    requires IsSlowRetry(g.prior) && g.events == Elsewhere() && g.tasks == {}
    requires g.audit.Other? && g.audit.id > 7 && g.audit.createdAt > 200
    ensures Import(g, [], [])
  {
    SlowRetryIsChain(g.prior);
    var first := g.prior + [Elsewhere()[0]];
    var both := first + [Elsewhere()[1]];
    assert g.Log([]) == both + [g.audit];
    AscendSnoc(g.prior, Elsewhere()[0]);
    AscendSnoc(first, Elsewhere()[1]);
    AscendSnoc(both, g.audit);
  }

  lemma ElsewhereTables(g: Given) returns (before: Table, after: Table)
    requires IsSlowRetry(g.prior) && g.events == Elsewhere() && g.tasks == {}
    requires g.audit.Other? && g.audit.id > 7 && g.audit.createdAt > 200
    ensures Import(g, [], [])
    ensures LocalTable(g.prior) == Ok(before) && 7 in before && before[7] == g.prior[4].job
    ensures g.Rebuilt([]) == Ok(after) && 7 in after && after[7] == Elsewhere()[1].job
  {
    ElsewhereImport(g);
    SlowRetryFacts(g.prior);
    PartsAreDistinct(g, []);
    before := ReplayedTable(g.prior, g.prior[4]);
    ElsewhereIsNewest(g);
    after := ReplayedTable(g.Log([]), Elsewhere()[1]);
  }

  lemma ElsewhereIsNewest(g: Given)
    requires IsSlowRetry(g.prior) && g.events == Elsewhere() && g.audit.Other?
    ensures LastByKey(g.Log([]), Elsewhere()[1]) && AllStandAlone(g.Log([]))
  {
    SlowRetryFacts(g.prior);
    var e := Elsewhere()[1];
    forall d | d in g.Log([]) ensures d in g.prior || d == Elsewhere()[0] || d == e || d == g.audit {
      LogMembers(g, [], d);
    }
    LogMembers(g, [], e);
  }

  /** The bundle of that session collides with nothing in the log of the run above, is accepted, and
      replaces the local worker job by the other lab's. */
  lemma LocalJobIsReplaced(now: Time, auditId: Id, ids: nat -> Id)
    returns (r: Trace, s: JobQueueSpec.State, g: Given, before: Table, after: Table)
    requires auditId > 7
    ensures Reaches(SLOW, r, s) && IsAccepted(Elsewhere()) && !Collides(s.log, Elsewhere())
    ensures g == Given(s.log, Elsewhere(), {}, Audit(Elsewhere(), Elsewhere()[1], now, auditId), ids)
    ensures Import(g, [], [])
    ensures LocalTable(s.log) == Ok(before) && 7 in before && before[7].kind == "worker.run"
    ensures g.Rebuilt([]) == Ok(after) && 7 in after && after[7] == Elsewhere()[1].job
  {
    r, s := SlowRetry();
    ElsewhereIsChain();
    ChainIsAccepted(Elsewhere());
    ElsewhereIsApart(s.log);
    g := Given(s.log, Elsewhere(), {}, Audit(Elsewhere(), Elsewhere()[1], now, auditId), ids);
    assert Elsewhere()[1] in Elsewhere();
    before, after := ElsewhereTables(g);
  }
}
