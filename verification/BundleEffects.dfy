/** What an import does, read off the fields of the bundle's events and the columns of their snapshots. */
module BundleEffects {
  import opened Common
  import opened Sorting
  import opened JobContract
  import opened JobHistory
  import opened JobProjection
  import opened BundleOrder
  import opened BundleQuarantine
  import opened BundleImport
  import opened BundleOutcome

  /** A worker task of the bundle names the job, or its kind is a worker's. */
  ghost predicate WorksForATask(bundle: seq<BundleEvent>, row: Job) {
    (exists b :: b in bundle && b.taskJob == Some(row.id)) || (|row.kind| >= 7 && row.kind[..7] == "worker.")
  }

  predicate CanRun(row: Job) {
    row.status == Pending || row.status == Leased
  }

  predicate Later(d: Event, e: Event) {
    d.createdAt > e.createdAt || (d.createdAt == e.createdAt && d.id > e.id)
  }

  predicate UpdatedLater(d: Event, e: Event)
    requires d.Lifecycle? && e.Lifecycle?
  {
    d.job.updatedAt > e.job.updatedAt || (d.job.updatedAt == e.job.updatedAt && Later(d, e))
  }

  predicate OfSameJob(d: Event, e: Event) {
    d.Lifecycle? && e.Lifecycle? && d.job.id == e.job.id
  }

  // ------------------------------------------------------------------ the quarantine

  lemma TaskIsNamed(bundle: seq<BundleEvent>, j: Id)
    ensures j in TaskJobs(bundle) <==> exists b :: b in bundle && b.taskJob == Some(j)
  {
    if b :| b in bundle && b.taskJob == Some(j) {
      assert b.taskJob.Some? && b.taskJob.value == j;
    }
  }

  /** Of its job's snapshots this was updated last, it can run, and one that can run works for a task. */
  ghost predicate ToQuarantine(bundle: seq<BundleEvent>, events: seq<Event>, e: Event) {
    && e in events && e.Lifecycle? && CanRun(e.job)
    && (exists c :: c in events && OfSameJob(c, e) && CanRun(c.job) && WorksForATask(bundle, c.job))
    && forall d :: d in events && OfSameJob(d, e) ==> !UpdatedLater(d, e)
  }

  lemma WorkerKind(kind: string)
    ensures "worker." <= kind <==> |kind| >= 7 && kind[..7] == "worker."
  {
  }

  lemma WorkersAre(bundle: seq<BundleEvent>, row: Job)
    ensures IsWorkerJob(row, TaskJobs(bundle)) <==> WorksForATask(bundle, row)
  {
    TaskIsNamed(bundle, row.id);
    WorkerKind(row.kind);
  }

  lemma SelectedAre(bundle: seq<BundleEvent>, events: seq<Event>, e: Event)
    ensures Selected(events, TaskJobs(bundle), e) <==> ToQuarantine(bundle, events, e)
  {
    forall c | c in events && c.Lifecycle? ensures Candidate(c, TaskJobs(bundle)) <==> CanRun(c.job) && WorksForATask(bundle, c.job) {
      WorkersAre(bundle, c.job);
    }
    if Selected(events, TaskJobs(bundle), e) {
      var c :| c in events && c.Concerns(e.job.id) && Candidate(c, TaskJobs(bundle));
      assert OfSameJob(c, e);
      forall d | d in events && OfSameJob(d, e) ensures !UpdatedLater(d, e) { assert d.Concerns(e.job.id); }
    }
    if ToQuarantine(bundle, events, e) {
      var c :| c in events && OfSameJob(c, e) && CanRun(c.job) && WorksForATask(bundle, c.job);
      assert c.Concerns(e.job.id);
      forall d | d in events && d.Concerns(e.job.id) ensures !Newer(StampOf(d), StampOf(e)) { assert OfSameJob(d, e); }
    }
  }

  /** `c` ends the job of snapshot `e`, `k` microseconds after the audit event. */
  ghost predicate Ends(e: Event, c: Event, audit: Event, k: nat, id: Id)
    requires e.Lifecycle?
  {
    && c.Lifecycle? && c.kind == JobCancelled && c.id == id && c.createdAt == audit.createdAt + k
    && c.session == e.session && c.branch == e.branch && c.correlation == e.correlation
    && c.parent == Some(e.id) && c.causation == Some(audit.id)
    && c.actor == System("bundle-import-quarantine") && c.metadata == Plain
    && SameTask(c.job, e.job) && c.job.status == Cancelled && c.job.cancelRequested
    && c.job.leaseUntil.None? && c.job.worker.None? && c.job.updatedAt == c.createdAt
    && c.job.lastError == Some("bundle_import_quarantine")
    && c.job.attempts == e.job.attempts && c.job.availableAt == e.job.availableAt
  }

  /** The jobs quarantined, in the order they were updated, and the cancellations that end them. */
  ghost predicate Quarantine(bundle: seq<BundleEvent>, g: Given, jobs: seq<Event>, cancels: seq<Event>) {
    && (forall e :: e in jobs <==> ToQuarantine(bundle, g.events, e))
    && (forall i, k :: 0 <= i < k < |jobs| ==>
          jobs[i].Lifecycle? && jobs[k].Lifecycle? && jobs[i].job.id != jobs[k].job.id && !UpdatedLater(jobs[i], jobs[k]))
    && |cancels| == |jobs|
    && forall i :: 0 <= i < |jobs| ==> jobs[i].Lifecycle? && Ends(jobs[i], cancels[i], g.audit, i + 1, g.ids(i))
  }

  lemma CancellationEnds(e: Event, audit: Event, k: nat, id: Id)
    requires e.Lifecycle?
    ensures Ends(e, Cancellation(e, audit, k, id), audit, k, id)
  {
  }

  lemma InUpdateOrder(jobs: seq<Event>, i: nat, k: nat)
    requires Snapshots(jobs) && InStampOrder(jobs) && OnePerJob(jobs) && i < k < |jobs|
    ensures jobs[i].Lifecycle? && jobs[k].Lifecycle? && jobs[i].job.id != jobs[k].job.id
    ensures !UpdatedLater(jobs[i], jobs[k])
  {
    assert jobs[i] in jobs && jobs[k] in jobs && !Newer(StampOf(jobs[i]), StampOf(jobs[k]));
  }

  lemma QuarantineIs(bundle: seq<BundleEvent>, g: Given, jobs: seq<Event>, cancels: seq<Event>)
    requires Import(g, jobs, cancels) && g.tasks == TaskJobs(bundle)
    ensures Quarantine(bundle, g, jobs, cancels)
  {
    forall e ensures e in jobs <==> ToQuarantine(bundle, g.events, e) { SelectedAre(bundle, g.events, e); }
    forall i | 0 <= i < |jobs| ensures jobs[i].Lifecycle? && Ends(jobs[i], cancels[i], g.audit, i + 1, g.ids(i)) {
      assert jobs[i] in jobs;
      CancellationEnds(jobs[i], g.audit, i + 1, g.ids(i));
    }
    forall i, k | 0 <= i < k < |jobs|
      ensures jobs[i].Lifecycle? && jobs[k].Lifecycle? && jobs[i].job.id != jobs[k].job.id
      ensures !UpdatedLater(jobs[i], jobs[k])
    {
      InUpdateOrder(jobs, i, k);
    }
  }

  // ------------------------------------------------------------------- the audit event

  /** The later of `now` and a microsecond after the newest event. */
  ghost predicate IsAuditTime(now: Time, events: seq<Event>, t: Time) {
    && t >= now && (forall e :: e in events ==> t > e.createdAt)
    && (t == now || exists e :: e in events && t == e.createdAt + 1)
  }

  lemma AuditTimeIs(now: Time, events: seq<Event>)
    requires events != []
    ensures IsAuditTime(now, events, AuditTime(now, events))
  {
    var t := LatestCreation(events);
    var e :| e in events && e.createdAt == t;
  }

  /** The audit event follows the newest event of the declared branch, or of all. */
  ghost predicate Follows(audit: Event, events: seq<Event>, declared: Option<string>) {
    exists tip :: tip in events && IsTip(tip, audit, events, declared)
  }

  ghost predicate IsTip(tip: Event, audit: Event, events: seq<Event>, declared: Option<string>) {
    && audit.parent == Some(tip.id) && audit.causation == Some(tip.id)
    && audit.session == tip.session && audit.branch == tip.branch
    && (tip.correlation.Some? ==> audit.correlation == tip.correlation) && audit.correlation.Some?
    && (declared.Some? ==> tip.branch == declared)
    && forall e :: e in events && (declared.Some? ==> e.branch == declared) ==> !Later(e, tip)
  }

  // ---------------------------------------------------------------- the rebuilt table

  ghost predicate IsNewest(log: seq<Event>, e: Event) {
    e in log && e.Lifecycle? && forall d :: d in log && OfSameJob(d, e) ==> !Later(d, e)
  }

  /** The table holds, for each job of the log and no other, the snapshot of its newest event. */
  ghost predicate HoldsNewest(log: seq<Event>, table: Table) {
    && (forall j :: j in table ==> exists e :: e in log && e.Lifecycle? && e.job.id == j)
    && (forall e :: e in log && e.Lifecycle? ==> e.job.id in table)
    && (forall e :: IsNewest(log, e) ==> e.job.id in table && table[e.job.id] == e.job)
  }

  lemma NewestIsLast(log: seq<Event>, e: Event)
    ensures IsNewest(log, e) <==> LastByKey(log, e)
  {
    if e.Lifecycle? {
      assert forall d :: OfSameJob(d, e) <==> d.Concerns(e.job.id);
    }
  }

  lemma RebuiltHoldsNewest(log: seq<Event>)
    requires DistinctIds(log) && Replay(Listing(log), log).Ok?
    ensures HoldsNewest(log, Replay(Listing(log), log).value)
  {
    var table := Replay(Listing(log), log).value;
    forall j ensures j in table <==> Mentions(log, j) { JobsOfTable(log, j); }
    forall j | j in table ensures exists e :: e in log && e.Lifecycle? && e.job.id == j {
      var e :| e in log && e.Concerns(j);
    }
    forall e | e in log && e.Lifecycle? ensures e.job.id in table { assert e.Concerns(e.job.id); }
    forall e | IsNewest(log, e) ensures e.job.id in table && table[e.job.id] == e.job {
      NewestIsLast(log, e);
      NewestDecides(log, e);
    }
  }

  // ---------------------------------------------------------------- what cannot run any more

  /** No job of the bundle that works for a task can run. */
  ghost predicate NothingCanRun(bundle: seq<BundleEvent>, events: seq<Event>, table: Table) {
    forall e :: e in events && e.Lifecycle? ==>
      e.job.id in table && !(CanRun(table[e.job.id]) && WorksForATask(bundle, table[e.job.id]))
  }

  /** The job of `c` is quarantined, and its cancellation is the later of the two. */
  ghost predicate EndsLater(g: Given, jobs: seq<Event>, c: Event) {
    exists i :: 0 <= i < |jobs| && OfSameJob(jobs[i], c)
                && (c.createdAt < g.audit.createdAt + i + 1
                    || (c.createdAt == g.audit.createdAt + i + 1 && c.id < g.ids(i)))
  }

  /** Each job of the bundle whose newest local or imported snapshot could run ends later. */
  ghost predicate AllEndLater(bundle: seq<BundleEvent>, g: Given, jobs: seq<Event>) {
    forall c, e :: IsNewest(g.Known(), c) && e in g.events && OfSameJob(e, c) && CanRun(c.job) && WorksForATask(bundle, c.job)
      ==> EndsLater(g, jobs, c)
  }

  lemma EndsLaterIff(g: Given, jobs: seq<Event>, cancels: seq<Event>, c: Event)
    requires Import(g, jobs, cancels) && c.Lifecycle?
    ensures EndsLater(g, jobs, c) <==> CancelledAfter(g, c)
  {
    if u :| g.Quarantines(u) && u.job.id == c.job.id && KeyLess(c.Key(), CancellationOf(g, u).Key()) {
      var i :| 0 <= i < |jobs| && jobs[i] == u;
      CancelsWhat(g, jobs, cancels, i);
      assert OfSameJob(jobs[i], c);
    }
    if i :| 0 <= i < |jobs| && OfSameJob(jobs[i], c)
            && (c.createdAt < g.audit.createdAt + i + 1
                || (c.createdAt == g.audit.createdAt + i + 1 && c.id < g.ids(i)))
    {
      CancelsWhat(g, jobs, cancels, i);
    }
  }

  /** An import leaves nothing of the bundle that works for a task able to run exactly when each such job
      ends later than its newest local or imported snapshot. */
  lemma NothingCanRunIff(bundle: seq<BundleEvent>, g: Given, jobs: seq<Event>, cancels: seq<Event>)
    requires Import(g, jobs, cancels) && g.tasks == TaskJobs(bundle) && g.Rebuilt(cancels).Ok?
    ensures NothingCanRun(bundle, g.events, g.Rebuilt(cancels).value) <==> AllEndLater(bundle, g, jobs)
  {
    var table := g.Rebuilt(cancels).value;
    ImportDisarmsIff(g, jobs, cancels);
    forall row: Job ensures ArmedRow(row, g.tasks) <==> CanRun(row) && WorksForATask(bundle, row) {
      WorkersAre(bundle, row);
    }
    forall e | e in g.events && e.Lifecycle? ensures g.Names(e.job.id) { assert e.Concerns(e.job.id); }
    forall j | g.Names(j) ensures exists e :: e in g.events && e.Lifecycle? && e.job.id == j {
      var e :| e in g.events && e.Concerns(j);
    }
    assert NothingCanRun(bundle, g.events, table) <==> Disarmed(g, table);
    AllEndLaterIff(bundle, g, jobs, cancels);
  }

  lemma AllEndLaterIff(bundle: seq<BundleEvent>, g: Given, jobs: seq<Event>, cancels: seq<Event>)
    requires Import(g, jobs, cancels) && g.tasks == TaskJobs(bundle)
    ensures AllEndLater(bundle, g, jobs) <==> ArmedAreCancelled(g)
  {
    forall c: Event | c.Lifecycle? ensures EndsLater(g, jobs, c) <==> CancelledAfter(g, c) { EndsLaterIff(g, jobs, cancels, c); }
    forall c ensures IsNewest(g.Known(), c) <==> LastByKey(g.Known(), c) { NewestIsLast(g.Known(), c); }
    forall row: Job ensures ArmedRow(row, g.tasks) <==> CanRun(row) && WorksForATask(bundle, row) {
      WorkersAre(bundle, row);
    }
    if AllEndLater(bundle, g, jobs) {
      forall c | LastByKey(g.Known(), c) && g.Names(c.job.id) && ArmedRow(c.job, g.tasks) ensures CancelledAfter(g, c) {
        var e :| e in g.events && e.Concerns(c.job.id);
        assert OfSameJob(e, c);
      }
    }
    if ArmedAreCancelled(g) {
      forall c, e | IsNewest(g.Known(), c) && e in g.events && OfSameJob(e, c) && CanRun(c.job) && WorksForATask(bundle, c.job)
        ensures EndsLater(g, jobs, c)
      {
        assert e.Concerns(c.job.id);
      }
    }
  }
}
