/** Disarming imported worker jobs: which snapshots the importer quarantines, the cancellation
    events it appends, and what the rebuilt jobs table then holds. */
module BundleQuarantine {
  import opened Common
  import opened JobContract
  import opened JobHistory
  import opened BundleOrder

  /** `(updated_at, created_at, id)`, by which the importer finds a job's latest snapshot. */
  datatype Stamp = Stamp(updatedAt: Time, key: Key)

  predicate Newer(a: Stamp, b: Stamp) {
    a.updatedAt > b.updatedAt || (a.updatedAt == b.updatedAt && KeyLess(b.key, a.key))
  }

  function StampOf(e: Event): Stamp
    requires e.Lifecycle?
  {
    Stamp(e.job.updatedAt, e.Key())
  }

  predicate Runnable(e: Event) {
    e.Leaves(Pending) || e.Leaves(Leased)
  }

  /** The jobs that the worker-task requests of the bundle name. */
  function TaskJobs(bundle: seq<BundleEvent>): set<Id> {
    set b | b in bundle && b.taskJob.Some? :: b.taskJob.value
  }

  predicate IsWorkerJob(job: Job, tasks: set<Id>) {
    job.id in tasks || "worker." <= job.kind
  }

  predicate Candidate(e: Event, tasks: set<Id>) {
    Runnable(e) && IsWorkerJob(e.job, tasks)
  }

  // ------------------------------------------------------- the two-pass selection

  /** The latest snapshot of its job, by stamp, among the events of `pool`. */
  ghost predicate Newest(pool: set<Event>, e: Event) {
    e in pool && e.Lifecycle? && forall f :: f in pool && f.Concerns(e.job.id) ==> !Newer(StampOf(f), StampOf(e))
  }

  ghost predicate NewestPerJob(pool: set<Event>, latest: map<Id, Event>) {
    && (forall j :: j in latest ==> latest[j].Concerns(j) && Newest(pool, latest[j]))
    && (forall f :: f in pool ==> f.Lifecycle? && f.job.id in latest)
  }

  function Keep(latest: map<Id, Event>, e: Event): map<Id, Event>
    requires e.Lifecycle? && forall j :: j in latest ==> latest[j].Lifecycle?
  {
    if e.job.id !in latest || Newer(StampOf(e), StampOf(latest[e.job.id])) then latest[e.job.id := e] else latest
  }

  lemma KeepIsNewest(pool: set<Event>, latest: map<Id, Event>, e: Event)
    requires NewestPerJob(pool, latest) && e.Lifecycle?
    ensures NewestPerJob(pool + {e}, Keep(latest, e))
  {
    var next := Keep(latest, e);
    forall j | j in next ensures next[j].Concerns(j) && Newest(pool + {e}, next[j]) {
      if j != e.job.id { assert Newest(pool, latest[j]); }
      if j == e.job.id && j in latest { assert Newest(pool, latest[j]); }
    }
  }

  /** The events a pass has read, of those it admits. */
  ghost function Candidates(events: seq<Event>, tasks: set<Id>): set<Event> {
    set e | e in events && Candidate(e, tasks)
  }

  ghost function SnapshotsOf(events: seq<Event>, jobs: set<Id>): set<Event> {
    set e | e in events && e.Lifecycle? && e.job.id in jobs
  }

  /** First pass: the latest runnable snapshot of each worker job. */
  method LatestRunnable(events: seq<Event>, tasks: set<Id>) returns (latest: map<Id, Event>)
    ensures NewestPerJob(Candidates(events, tasks), latest)
  {
    latest := map[];
    for i := 0 to |events|
      invariant NewestPerJob(Candidates(events[..i], tasks), latest)
    {
      ghost var pool := Candidates(events[..i], tasks);
      assert events[..i + 1] == events[..i] + [events[i]];
      if Candidate(events[i], tasks) {
        assert Candidates(events[..i + 1], tasks) == pool + {events[i]};
        KeepIsNewest(pool, latest, events[i]);
        latest := Keep(latest, events[i]);
      } else {
        assert Candidates(events[..i + 1], tasks) == pool;
      }
    }
    assert events[..|events|] == events;
  }

  /** Second pass: the latest snapshot, of any status, of each of those jobs. */
  method LatestOfAll(events: seq<Event>, runnable: map<Id, Event>, ghost pool: set<Event>)
    returns (latest: map<Id, Event>)
    requires NewestPerJob(pool, runnable) && pool <= SnapshotsOf(events, runnable.Keys)
    ensures NewestPerJob(SnapshotsOf(events, runnable.Keys), latest) && latest.Keys == runnable.Keys
  {
    latest := runnable;
    for i := 0 to |events|
      invariant NewestPerJob(pool + SnapshotsOf(events[..i], runnable.Keys), latest)
      invariant latest.Keys == runnable.Keys
    {
      ghost var read := SnapshotsOf(events[..i], runnable.Keys);
      assert events[..i + 1] == events[..i] + [events[i]];
      if events[i].Lifecycle? && events[i].job.id in latest {
        assert pool + SnapshotsOf(events[..i + 1], runnable.Keys) == pool + read + {events[i]};
        KeepIsNewest(pool + read, latest, events[i]);
        latest := Keep(latest, events[i]);
      } else {
        assert SnapshotsOf(events[..i + 1], runnable.Keys) == read;
      }
    }
    assert events[..|events|] == events;
    assert pool + SnapshotsOf(events, runnable.Keys) == SnapshotsOf(events, runnable.Keys);
  }

  // ---------------------------------------------------------- sorting the selection

  ghost predicate Snapshots(events: seq<Event>) {
    forall e :: e in events ==> e.Lifecycle?
  }

  ghost predicate InStampOrder(events: seq<Event>)
    requires Snapshots(events)
  {
    forall i, j :: 0 <= i < j < |events| ==> !Newer(StampOf(events[i]), StampOf(events[j]))
  }

  ghost predicate OnePerJob(events: seq<Event>)
    requires Snapshots(events)
  {
    forall i, j :: 0 <= i < j < |events| ==> events[i].job.id != events[j].job.id
  }

  function Insert(e: Event, sorted: seq<Event>): (r: seq<Event>)
    requires e.Lifecycle? && Snapshots(sorted)
    ensures Snapshots(r)
    ensures forall f :: f in r <==> f == e || f in sorted
  {
    if sorted == [] then [e]
    else if Newer(StampOf(sorted[|sorted| - 1]), StampOf(e)) then
      assert sorted == sorted[..|sorted| - 1] + [sorted[|sorted| - 1]];
      Insert(e, sorted[..|sorted| - 1]) + [sorted[|sorted| - 1]]
    else sorted + [e]
  }

  /** Adding a last event keeps a list in order, one event per job. */
  lemma OrderSnoc(events: seq<Event>, last: Event)
    requires Snapshots(events) && last.Lifecycle? && InStampOrder(events) && OnePerJob(events)
    requires forall f :: f in events ==> !Newer(StampOf(f), StampOf(last)) && f.job.id != last.job.id
    ensures Snapshots(events + [last]) && InStampOrder(events + [last]) && OnePerJob(events + [last])
  {
    var longer := events + [last];
    forall i, j | 0 <= i < j < |longer|
      ensures !Newer(StampOf(longer[i]), StampOf(longer[j])) && longer[i].job.id != longer[j].job.id
    {
      if j == |events| { assert longer[i] in events; }
    }
  }

  lemma OrderInit(events: seq<Event>, f: Event)
    requires Snapshots(events) && InStampOrder(events) && OnePerJob(events) && events != []
    requires f in events[..|events| - 1]
    ensures f in events && !Newer(StampOf(f), StampOf(events[|events| - 1])) && f.job.id != events[|events| - 1].job.id
  {
    var k :| 0 <= k < |events| - 1 && events[..|events| - 1][k] == f;
    assert events[k] == f;
  }

  lemma {:induction false} InsertKeepsOrder(e: Event, sorted: seq<Event>)
    requires e.Lifecycle? && Snapshots(sorted) && InStampOrder(sorted) && OnePerJob(sorted)
    requires forall f :: f in sorted ==> f.job.id != e.job.id
    ensures InStampOrder(Insert(e, sorted)) && OnePerJob(Insert(e, sorted))
  {
    if sorted == [] {
    } else if Newer(StampOf(sorted[|sorted| - 1]), StampOf(e)) {
      var n := |sorted| - 1;
      forall f | f in sorted[..n]
        ensures f in sorted && !Newer(StampOf(f), StampOf(sorted[n])) && f.job.id != sorted[n].job.id
      {
        OrderInit(sorted, f);
      }
      InsertKeepsOrder(e, sorted[..n]);
      OrderSnoc(Insert(e, sorted[..n]), sorted[n]);
    } else {
      forall f | f in sorted ensures !Newer(StampOf(f), StampOf(e)) {
        if f != sorted[|sorted| - 1] {
          assert sorted == sorted[..|sorted| - 1] + [sorted[|sorted| - 1]];
          OrderInit(sorted, f);
        }
      }
      OrderSnoc(sorted, e);
    }
  }

  function Runnables(events: seq<Event>): (r: seq<Event>)
    requires Snapshots(events)
    ensures Snapshots(r)
    ensures forall e :: e in r <==> e in events && Runnable(e)
  {
    if events == [] then []
    else
      var last := events[|events| - 1];
      assert events == events[..|events| - 1] + [last];
      Runnables(events[..|events| - 1]) + if Runnable(last) then [last] else []
  }

  lemma {:induction false} RunnablesKeepOrder(events: seq<Event>)
    requires Snapshots(events) && InStampOrder(events) && OnePerJob(events)
    ensures InStampOrder(Runnables(events)) && OnePerJob(Runnables(events))
  {
    if events != [] {
      var n := |events| - 1;
      assert events == events[..n] + [events[n]];
      RunnablesKeepOrder(events[..n]);
      forall f | f in Runnables(events[..n])
        ensures !Newer(StampOf(f), StampOf(events[n])) && f.job.id != events[n].job.id
      {
        OrderInit(events, f);
      }
      OrderSnoc(Runnables(events[..n]), events[n]);
      assert Runnables(events[..n]) + [] == Runnables(events[..n]);
    }
  }

  /** A worker job's latest snapshot over all its lifecycle events, when that is runnable. */
  ghost predicate Selected(events: seq<Event>, tasks: set<Id>, e: Event) {
    && e in events && Runnable(e)
    && (exists c :: c in events && c.Concerns(e.job.id) && Candidate(c, tasks))
    && forall f :: f in events && f.Concerns(e.job.id) ==> !Newer(StampOf(f), StampOf(e))
  }

  method SortLatest(latest: map<Id, Event>) returns (sorted: seq<Event>)
    requires forall j :: j in latest ==> latest[j].Concerns(j)
    ensures Snapshots(sorted) && InStampOrder(sorted) && OnePerJob(sorted)
    ensures forall e :: e in sorted <==> e.Lifecycle? && e.job.id in latest && latest[e.job.id] == e
  {
    sorted := [];
    var todo := latest.Keys;
    while todo != {}
      invariant todo <= latest.Keys
      invariant Snapshots(sorted) && InStampOrder(sorted) && OnePerJob(sorted)
      invariant forall e :: e in sorted <==> e.Lifecycle? && e.job.id in latest.Keys - todo && latest[e.job.id] == e
      decreases todo
    {
      ghost var some := SomeMember(todo);
      var j :| j in todo;
      InsertKeepsOrder(latest[j], sorted);
      sorted := Insert(latest[j], sorted);
      todo := todo - {j};
    }
  }

  lemma SelectedIsLatest(events: seq<Event>, tasks: set<Id>, runnable: map<Id, Event>, latest: map<Id, Event>, e: Event)
    requires DistinctIds(events)
    requires NewestPerJob(Candidates(events, tasks), runnable)
    requires NewestPerJob(SnapshotsOf(events, runnable.Keys), latest) && latest.Keys == runnable.Keys
    ensures Selected(events, tasks, e) <==>
            e.Lifecycle? && e.job.id in latest && latest[e.job.id] == e && Runnable(e)
  {
    if e.Lifecycle? {
      var j := e.job.id;
      if c :| c in events && c.Concerns(j) && Candidate(c, tasks) {
        assert c in Candidates(events, tasks);
      }
      if j in latest {
        assert Newest(Candidates(events, tasks), runnable[j]);
        assert runnable[j] in events && Candidate(runnable[j], tasks);
        assert Newest(SnapshotsOf(events, runnable.Keys), latest[j]);
        if Selected(events, tasks, e) {
          SameId(events, e, latest[j]);
        }
      }
    }
  }

  /** `_pending_imported_worker_jobs`. */
  method PendingWorkerJobs(events: seq<Event>, tasks: set<Id>) returns (jobs: seq<Event>)
    requires DistinctIds(events)
    ensures Snapshots(jobs) && InStampOrder(jobs) && OnePerJob(jobs)
    ensures forall e :: e in jobs <==> Selected(events, tasks, e)
  {
    var runnable := LatestRunnable(events, tasks);
    var latest := LatestOfAll(events, runnable, Candidates(events, tasks));
    var sorted := SortLatest(latest);
    RunnablesKeepOrder(sorted);
    jobs := Runnables(sorted);
    forall e ensures e in jobs <==> Selected(events, tasks, e) {
      SelectedIsLatest(events, tasks, runnable, latest, e);
    }
  }
}
