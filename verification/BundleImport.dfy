/** What an import appends: the events of a bundle, its audit event, and a cancellation of each job it
    quarantines; and when the rebuild that follows accepts them. */
module BundleImport {
  import opened Common
  import opened Sorting
  import opened JobContract
  import opened JobHistory
  import opened JobProjection
  import opened BundleOrder
  import opened BundleQuarantine

  // ------------------------------------------------------------ the appended events

  function LatestCreation(events: seq<Event>): (t: Time)
    requires events != []
    ensures forall e :: e in events ==> e.createdAt <= t
    ensures exists e :: e in events && e.createdAt == t
  {
    var last := events[|events| - 1];
    if |events| == 1 then last.createdAt
    else
      assert events == events[..|events| - 1] + [last];
      var t := LatestCreation(events[..|events| - 1]);
      if last.createdAt > t then last.createdAt else t
  }

  /** The audit event is created now, or just after everything imported if that is later. */
  function AuditTime(now: Time, events: seq<Event>): Time
    requires events != []
  {
    if now > LatestCreation(events) then now else LatestCreation(events) + 1
  }

  function CancelledRow(row: Job, at: Time): Job {
    row.(status := Cancelled, leaseUntil := None, worker := None, cancelRequested := true, updatedAt := at,
         lastError := Some("bundle_import_quarantine"))
  }

  /** The cancellation of the job whose snapshot is `e`. */
  function Cancellation(e: Event, audit: Event, index: nat, id: Id): Event
    requires e.Lifecycle?
  {
    var at := audit.createdAt + index;
    Lifecycle(id, at, e.session, e.branch, Some(e.id), Some(audit.id), e.correlation, JobCancelled,
              System("bundle-import-quarantine"), CancelledRow(e.job, at), Plain)
  }

  /** `_quarantine_job_events`; `ids(i)` is the i-th identifier the generator hands out. */
  method QuarantineEvents(jobs: seq<Event>, audit: Event, ids: nat -> Id) returns (cancels: seq<Event>)
    requires Snapshots(jobs)
    ensures |cancels| == |jobs|
    ensures forall i :: 0 <= i < |jobs| ==> cancels[i] == Cancellation(jobs[i], audit, i + 1, ids(i))
  {
    cancels := [];
    for index := 1 to |jobs| + 1
      invariant |cancels| == index - 1
      invariant forall i :: 0 <= i < index - 1 ==> cancels[i] == Cancellation(jobs[i], audit, i + 1, ids(i))
    {
      assert jobs[index - 1] in jobs;
      cancels := cancels + [Cancellation(jobs[index - 1], audit, index, ids(index - 1))];
    }
  }

  /** What an import starts from: the local event table, the ordered events of the bundle and the jobs that
      its worker tasks name, the audit event, and the identifiers the generator will hand out. */
  datatype Given = Given(prior: seq<Event>, events: seq<Event>, tasks: set<Id>, audit: Event, ids: nat -> Id) {
    function Known(): seq<Event> {
      prior + events
    }

    function Log(cancels: seq<Event>): seq<Event> {
      prior + events + [audit] + cancels
    }

    function Rebuilt(cancels: seq<Event>): Result<Table, Rejection> {
      Replay(Listing(Log(cancels)), Log(cancels))
    }

    /** The job is one of the bundle's. */
    ghost predicate Names(j: Id) {
      Mentions(events, j)
    }

    /** The snapshot is quarantined. */
    ghost predicate Quarantines(u: Event) {
      Selected(events, tasks, u)
    }
  }

  ghost predicate Mentions(events: seq<Event>, j: Id) {
    exists e :: e in events && e.Concerns(j)
  }

  /** One import: the audit event is later than the bundle, the jobs selected are cancelled in their order,
      and no identifier occurs twice. */
  ghost predicate Import(g: Given, jobs: seq<Event>, cancels: seq<Event>) {
    && DistinctIds(g.Log(cancels))
    && g.audit.Other? && (forall e :: e in g.events ==> e.createdAt < g.audit.createdAt)
    && Snapshots(jobs) && InStampOrder(jobs) && OnePerJob(jobs) && (forall e :: e in jobs <==> g.Quarantines(e))
    && |cancels| == |jobs|
    && forall i :: 0 <= i < |jobs| ==> cancels[i] == Cancellation(jobs[i], g.audit, i + 1, g.ids(i))
  }

  lemma LogMembers(g: Given, cancels: seq<Event>, e: Event)
    ensures e in g.Log(cancels) <==> e in g.prior || e in g.events || e == g.audit || e in cancels
  {
  }

  /** No identifier occurs twice among the events of the bundle, nor among them and the local ones. */
  lemma PartsAreDistinct(g: Given, cancels: seq<Event>)
    requires DistinctIds(g.Log(cancels))
    ensures DistinctIds(g.Known()) && DistinctIds(g.events) && DistinctIds(g.prior)
  {
    var log := g.Log(cancels);
    assert forall i :: 0 <= i < |g.Known()| ==> log[i] == g.Known()[i];
    assert forall i :: 0 <= i < |g.events| ==> g.Known()[|g.prior| + i] == g.events[i];
    assert forall i :: 0 <= i < |g.prior| ==> g.Known()[i] == g.prior[i];
  }

  // --------------------------------------------------- cancellations as functions of what is given

  /** How many selected snapshots come before `u` in the order of stamps. */
  ghost function Rank(g: Given, u: Event): nat
    requires u.Lifecycle?
  {
    |set e | e in g.events && g.Quarantines(e) && Newer(StampOf(u), StampOf(e))|
  }

  ghost function CancellationOf(g: Given, u: Event): Event
    requires u.Lifecycle?
  {
    Cancellation(u, g.audit, Rank(g, u) + 1, g.ids(Rank(g, u)))
  }

  ghost function Members(events: seq<Event>): set<Event> {
    set e | e in events
  }

  lemma {:induction false} PrefixSize(jobs: seq<Event>, n: nat)
    requires n <= |jobs| && forall i, k :: 0 <= i < k < |jobs| ==> jobs[i] != jobs[k]
    ensures |Members(jobs[..n])| == n
  {
    if n > 0 {
      PrefixSize(jobs, n - 1);
      assert jobs[..n] == jobs[..n - 1] + [jobs[n - 1]];
      assert Members(jobs[..n]) == Members(jobs[..n - 1]) + {jobs[n - 1]};
    }
  }

  /** The cancellations are those of the selected snapshots. */
  lemma CancelsWhat(g: Given, jobs: seq<Event>, cancels: seq<Event>, i: nat)
    requires Import(g, jobs, cancels) && i < |jobs|
    ensures g.Quarantines(jobs[i]) && cancels[i] == CancellationOf(g, jobs[i])
  {
    assert jobs[i] in jobs;
    PartsAreDistinct(g, cancels);
    var before := set e | e in g.events && g.Quarantines(e) && Newer(StampOf(jobs[i]), StampOf(e));
    forall e ensures e in before <==> e in jobs[..i] {
      if k :| 0 <= k < |jobs| && jobs[k] == e {
        assert jobs[k] in jobs && g.Quarantines(jobs[k]);
        if k != i { StampsDiffer(g.events, jobs[k], jobs[i]); }
      }
    }
    assert before == Members(jobs[..i]);
    PrefixSize(jobs, i);
  }

  lemma StampsDiffer(events: seq<Event>, e: Event, f: Event)
    requires DistinctIds(events) && e in events && f in events && e.Lifecycle? && f.Lifecycle? && e != f
    ensures Newer(StampOf(e), StampOf(f)) || Newer(StampOf(f), StampOf(e))
  {
    if e.id == f.id { SameId(events, e, f); }
  }

  lemma IsCancelled(g: Given, jobs: seq<Event>, cancels: seq<Event>, u: Event)
    requires Import(g, jobs, cancels) && g.Quarantines(u)
    ensures CancellationOf(g, u) in cancels
  {
    var i :| 0 <= i < |jobs| && jobs[i] == u;
    CancelsWhat(g, jobs, cancels, i);
  }

  lemma IsOfSelected(g: Given, jobs: seq<Event>, cancels: seq<Event>, e: Event) returns (u: Event)
    requires Import(g, jobs, cancels) && e in cancels
    ensures g.Quarantines(u) && e == CancellationOf(g, u)
  {
    var i :| 0 <= i < |cancels| && cancels[i] == e;
    CancelsWhat(g, jobs, cancels, i);
    u := jobs[i];
  }

  // ------------------------------------------------------------ when the rebuild accepts

  /** A cancellation passes the guards whenever the snapshot it cancels does. */
  lemma CancellationPasses(log: seq<Event>, e: Event, audit: Event, index: nat, id: Id)
    requires e.Lifecycle? && Passes(log, e)
    ensures Passes(log, Cancellation(e, audit, index, id))
  {
  }

  /** It is a transition of the lifecycle automaton that keeps the job's identity and a well-formed row,
      filed under the snapshot it cancels and caused by the import. */
  lemma CancellationIsATransition(e: Event, audit: Event, index: nat, id: Id)
    requires Runnable(e) && RowShape(e.job)
    ensures var c := Cancellation(e, audit, index, id);
            && c.Concerns(e.job.id) && Edge(e.job.status, c.kind, c.job.status)
            && RowShape(c.job) && SameTask(e.job, c.job) && c.job.attempts == e.job.attempts
            && c.parent == Some(e.id) && c.causation == Some(audit.id)
            && c.job.updatedAt == c.createdAt && c.createdAt == audit.createdAt + index
  {
  }

  /** The guards refuse nothing that the quarantine adds. */
  lemma LogPassesIff(g: Given, jobs: seq<Event>, cancels: seq<Event>)
    requires Import(g, jobs, cancels)
    ensures var log := g.Log(cancels); AllPass(log, log) <==> AllPass(g.Known(), log)
  {
    var log := g.Log(cancels);
    forall e | e in g.Known() ensures e in log { LogMembers(g, cancels, e); }
    if AllPass(g.Known(), log) {
      forall e | e in log ensures Passes(log, e) {
        LogMembers(g, cancels, e);
        if e in g.Known() {
        } else if i :| 0 <= i < |cancels| && cancels[i] == e {
          assert jobs[i] in jobs && jobs[i] in g.events;
          assert jobs[i] in g.Known();
          CancellationPasses(log, jobs[i], g.audit, i + 1, e.id);
        }
      }
    }
  }

  /** The rebuild accepts the log exactly when the local and imported events pass the guards, and each
      event of the listing finds its key free. */
  lemma RebuildAcceptsIff(g: Given, jobs: seq<Event>, cancels: seq<Event>)
    requires Import(g, jobs, cancels)
    ensures g.Rebuilt(cancels).Ok? <==> AllPass(g.Known(), g.Log(cancels)) && KeysFree(Listing(g.Log(cancels)))
  {
    var log := g.Log(cancels);
    SameMembers(Listing(log), log);
    ReplayRefuses(Listing(log), log);
    LogPassesIff(g, jobs, cancels);
  }

  /** If jobs keep their keys, as those of queues do, what counts is that no local or imported job has the
      key of another: the quarantine adds no reason to refuse. */
  lemma KeptKeysRebuildIff(g: Given, jobs: seq<Event>, cancels: seq<Event>)
    requires Import(g, jobs, cancels) && KeysKept(g.Known())
    ensures g.Rebuilt(cancels).Ok? <==> AllPass(g.Known(), g.Log(cancels)) && OneJobPerKey(g.Known())
  {
    var log := g.Log(cancels);
    SameMembers(Listing(log), log);
    RebuildAcceptsIff(g, jobs, cancels);
    KeysOfLog(g, jobs, cancels);
    FreeKeysIff(Listing(log));
  }

  predicate SameJobAndKey(e: Event, f: Event) {
    e.Lifecycle? && f.Concerns(e.job.id) && e.job.idempotencyKey == f.job.idempotencyKey
  }

  /** A snapshot of the log stands for one the import has not added. */
  lemma Original(g: Given, jobs: seq<Event>, cancels: seq<Event>, e: Event) returns (f: Event)
    requires Import(g, jobs, cancels) && e in g.Log(cancels) && e.Lifecycle?
    ensures f in g.Known() && SameJobAndKey(e, f)
  {
    LogMembers(g, cancels, e);
    if e in g.Known() {
      f := e;
    } else {
      f := IsOfSelected(g, jobs, cancels, e);
    }
  }

  lemma KeysOfLog(g: Given, jobs: seq<Event>, cancels: seq<Event>)
    requires Import(g, jobs, cancels) && KeysKept(g.Known())
    ensures KeysKept(g.Log(cancels)) && (OneJobPerKey(g.Log(cancels)) <==> OneJobPerKey(g.Known()))
  {
    var log := g.Log(cancels);
    forall e | e in g.Known() ensures e in log { LogMembers(g, cancels, e); }
    forall e, f | e in log && f in log && e.Lifecycle? && f.Concerns(e.job.id)
      ensures e.job.idempotencyKey == f.job.idempotencyKey
    {
      var x := Original(g, jobs, cancels, e);
      var y := Original(g, jobs, cancels, f);
      assert y.Concerns(x.job.id);
    }
    if OneJobPerKey(g.Known()) {
      forall e, f | e in log && f in log && SharesKey(e, f) ensures e.job.id == f.job.id {
        var x := Original(g, jobs, cancels, e);
        var y := Original(g, jobs, cancels, f);
        assert SharesKey(x, y);
      }
    }
    if OneJobPerKey(log) {
      assert forall e, f :: e in g.Known() && f in g.Known() && SharesKey(e, f) ==> e in log && f in log;
    }
  }

  // ------------------------------------------------------- references to earlier events

  /** The store finds what the appended event at `k` refers to among the events before it. */
  ghost predicate FindsReferences(log: seq<Event>, k: nat)
    requires k < |log|
  {
    Referenced(log[..k], log[k])
  }

  lemma FoundEarlier(log: seq<Event>, i: nat, k: nat, id: Id)
    requires i < k <= |log| && log[i].id == id
    ensures Find(log[..k], id).Some?
  {
    FindMembers(log[..k], id);
    assert log[..k][i] == log[i];
  }

  /** The audit event refers to an imported one, each cancellation to the snapshot it cancels and to the
      audit event, so the store accepts what the importer adds if it accepts the bundle's own events. */
  lemma AdditionsAreReferenced(g: Given, jobs: seq<Event>, cancels: seq<Event>, tip: Event)
    requires Import(g, jobs, cancels) && tip in g.events && g.audit.parent == g.audit.causation == Some(tip.id)
    ensures forall k :: |g.Known()| <= k < |g.Log(cancels)| ==> FindsReferences(g.Log(cancels), k)
  {
    var log, n := g.Log(cancels), |g.Known()|;
    assert log[n] == g.audit;
    forall k | n <= k < |log| ensures FindsReferences(log, k) {
      if k == n {
        var m :| 0 <= m < |g.events| && g.events[m] == tip;
        assert log[|g.prior| + m] == tip;
        FoundEarlier(log, |g.prior| + m, k, tip.id);
      } else {
        var i := k - n - 1;
        assert log[k] == cancels[i] && jobs[i] in jobs && g.Quarantines(jobs[i]);
        var m :| 0 <= m < |g.events| && g.events[m] == jobs[i];
        assert log[|g.prior| + m] == jobs[i];
        FoundEarlier(log, |g.prior| + m, k, jobs[i].id);
        FoundEarlier(log, n, k, g.audit.id);
      }
    }
  }

  // ------------------------------------------------------------- what replay keeps

  ghost predicate LastByStamp(events: seq<Event>, e: Event) {
    e in events && e.Lifecycle? && forall f :: f in events && f.Concerns(e.job.id) ==> !Newer(StampOf(f), StampOf(e))
  }

  ghost predicate LastByKey(events: seq<Event>, e: Event) {
    e in events && e.Lifecycle? && forall f :: f in events && f.Concerns(e.job.id) ==> KeyAtMost(f.Key(), e.Key())
  }

  lemma OnlyLastByStamp(events: seq<Event>, a: Event, b: Event)
    requires DistinctIds(events) && LastByStamp(events, a) && LastByStamp(events, b) && a.job.id == b.job.id
    ensures a == b
  {
    assert !Newer(StampOf(a), StampOf(b)) && !Newer(StampOf(b), StampOf(a));
    SameId(events, a, b);
  }

  lemma OnlyLastByKey(events: seq<Event>, a: Event, b: Event)
    requires DistinctIds(events) && LastByKey(events, a) && LastByKey(events, b) && a.job.id == b.job.id
    ensures a == b
  {
    assert KeyAtMost(a.Key(), b.Key()) && KeyAtMost(b.Key(), a.Key());
    SameId(events, a, b);
  }

  lemma {:induction false} SomeLastByStamp(events: seq<Event>, j: Id) returns (u: Event)
    requires Mentions(events, j)
    ensures LastByStamp(events, u) && u.job.id == j
  {
    var n := |events| - 1;
    assert events == events[..n] + [events[n]];
    if Mentions(events[..n], j) {
      u := SomeLastByStamp(events[..n], j);
      if events[n].Concerns(j) && Newer(StampOf(events[n]), StampOf(u)) { u := events[n]; }
    } else {
      u := events[n];
    }
  }

  /** The row replay leaves for job `j` is the snapshot with the greatest `(created_at, id)`. */
  lemma RebuiltRow(log: seq<Event>, j: Id) returns (last: Event)
    requires Replay(Listing(log), log).Ok? && Mentions(log, j)
    ensures last.Concerns(j) && LastByKey(log, last)
    ensures j in Replay(Listing(log), log).value && Replay(Listing(log), log).value[j] == last.job
  {
    var listing := Listing(log);
    SameMembers(listing, log);
    ReplayKeepsLast(listing, log);
    HistoryMembers(listing, j);
    var e :| e in log && e.Concerns(j);
    assert e in History(listing, j);
    ListedLast(listing, j);
    last := Last(History(listing, j));
  }

  /** The newest event of a job decides its row. */
  lemma NewestDecides(log: seq<Event>, e: Event)
    requires DistinctIds(log) && Replay(Listing(log), log).Ok? && LastByKey(log, e)
    ensures var table := Replay(Listing(log), log).value; e.job.id in table && table[e.job.id] == e.job
  {
    assert e.Concerns(e.job.id);
    var last := RebuiltRow(log, e.job.id);
    OnlyLastByKey(log, e, last);
  }

  lemma SomeLastByKey(log: seq<Event>, j: Id) returns (last: Event)
    requires Mentions(log, j)
    ensures LastByKey(log, last) && last.job.id == j
  {
    var n := |log| - 1;
    assert log == log[..n] + [log[n]];
    if Mentions(log[..n], j) {
      last := SomeLastByKey(log[..n], j);
      if log[n].Concerns(j) && KeyLess(last.Key(), log[n].Key()) { last := log[n]; }
    } else {
      last := log[n];
    }
  }

  /** The table has a row exactly for the jobs that some event concerns. */
  lemma JobsOfTable(log: seq<Event>, j: Id)
    requires Replay(Listing(log), log).Ok?
    ensures j in Replay(Listing(log), log).value <==> Mentions(log, j)
  {
    var listing := Listing(log);
    SameMembers(listing, log);
    ReplayKeepsLast(listing, log);
    HistoryMembers(listing, j);
    if History(listing, j) != [] { assert Last(History(listing, j)) in History(listing, j); }
    if e :| e in log && e.Concerns(j) { assert e in History(listing, j); }
  }
}
