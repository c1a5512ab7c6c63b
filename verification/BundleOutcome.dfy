/** What an import does to the jobs table, row by row, read off what it is given. */
module BundleOutcome {
  import opened Common
  import opened JobContract
  import opened JobHistory
  import opened JobProjection
  import opened BundleQuarantine
  import opened BundleImport

  // ------------------------------------------------ the newest event of a job afterwards

  /** The newest event the import adds for its job: the cancellation if the job is quarantined, else the
      newest imported snapshot. */
  ghost predicate Brings(g: Given, e: Event) {
    || (exists u :: g.Quarantines(u) && e == CancellationOf(g, u))
    || (LastByKey(g.events, e) && forall u :: g.Quarantines(u) ==> u.job.id != e.job.id)
  }

  lemma SomethingBrought(g: Given, j: Id) returns (e: Event)
    requires g.Names(j)
    ensures Brings(g, e) && e.Concerns(j)
  {
    if u :| g.Quarantines(u) && u.job.id == j {
      e := CancellationOf(g, u);
    } else {
      e := SomeLastByKey(g.events, j);
    }
  }

  lemma OneSelected(g: Given, u: Event, v: Event)
    requires DistinctIds(g.events) && g.Quarantines(u) && g.Quarantines(v) && u.job.id == v.job.id
    ensures u == v
  {
    assert LastByStamp(g.events, u) && LastByStamp(g.events, v);
    OnlyLastByStamp(g.events, u, v);
  }

  lemma BroughtIsNewestAdded(g: Given, jobs: seq<Event>, cancels: seq<Event>, e: Event, f: Event)
    requires Import(g, jobs, cancels) && Brings(g, e)
    ensures e.Lifecycle? && e in g.Log(cancels) && e !in g.prior
    ensures f in g.Log(cancels) && f !in g.prior && f.Concerns(e.job.id) ==> KeyAtMost(f.Key(), e.Key())
  {
    LogMembers(g, cancels, e);
    LogMembers(g, cancels, f);
    PartsAreDistinct(g, cancels);
    if u :| g.Quarantines(u) && e == CancellationOf(g, u) {
      IsCancelled(g, jobs, cancels, u);
      LogMembers(g, cancels, e);
      if f in cancels && f.Concerns(e.job.id) {
        var v := IsOfSelected(g, jobs, cancels, f);
        OneSelected(g, u, v);
      }
    } else if f in cancels {
      var v := IsOfSelected(g, jobs, cancels, f);
    }
    AddedIsNotLocal(g, cancels, e);
  }

  lemma AddedIsNotLocal(g: Given, cancels: seq<Event>, e: Event)
    requires DistinctIds(g.Log(cancels)) && (e in g.events || e in cancels)
    ensures e !in g.prior
  {
    var log := g.Log(cancels);
    var n := |g.prior|;
    assert log[n..] == g.events + [g.audit] + cancels && e in log[n..];
    var k :| 0 <= k < |log[n..]| && log[n..][k] == e;
    forall i | 0 <= i < n ensures g.prior[i] != e {
      assert log[i] == g.prior[i] && log[n + k] == e;
    }
  }

  /** After an import the newest event of a local job is the one the import adds, if that is newer. */
  lemma NewestOfLocalJob(g: Given, jobs: seq<Event>, cancels: seq<Event>, p: Event, e: Event)
    requires Import(g, jobs, cancels) && LastByKey(g.prior, p) && Brings(g, e) && e.Concerns(p.job.id)
    ensures LastByKey(g.Log(cancels), if KeyLess(p.Key(), e.Key()) then e else p)
  {
    LogMembers(g, cancels, p);
    BroughtIsNewestAdded(g, jobs, cancels, e, e);
    forall f | f in g.Log(cancels) && f.Concerns(p.job.id)
      ensures KeyAtMost(f.Key(), p.Key()) || KeyAtMost(f.Key(), e.Key())
    {
      BroughtIsNewestAdded(g, jobs, cancels, e, f);
    }
  }

  /** And of a job new to the local log the one the import adds. */
  lemma NewestOfNewJob(g: Given, jobs: seq<Event>, cancels: seq<Event>, e: Event)
    requires Import(g, jobs, cancels) && Brings(g, e) && e.Lifecycle? && !Mentions(g.prior, e.job.id)
    ensures LastByKey(g.Log(cancels), e)
  {
    BroughtIsNewestAdded(g, jobs, cancels, e, e);
    forall f | f in g.Log(cancels) && f.Concerns(e.job.id) ensures KeyAtMost(f.Key(), e.Key()) {
      BroughtIsNewestAdded(g, jobs, cancels, e, f);
    }
  }

  /** A quarantined job is rebuilt as cancelled, unless a local event of it is newer than the cancellation:
      then it stays as it was. */
  lemma QuarantinedRow(g: Given, jobs: seq<Event>, cancels: seq<Event>, u: Event)
    requires Import(g, jobs, cancels) && g.Rebuilt(cancels).Ok? && g.Quarantines(u)
    ensures var table, c := g.Rebuilt(cancels).value, CancellationOf(g, u);
            && u.job.id in table
            && (forall p :: LastByKey(g.prior, p) && p.Concerns(u.job.id) ==>
                  table[u.job.id] == if KeyLess(p.Key(), c.Key()) then c.job else p.job)
            && (!Mentions(g.prior, u.job.id) ==> table[u.job.id] == c.job)
            && c.job.status == Cancelled
  {
    var c, table := CancellationOf(g, u), g.Rebuilt(cancels).value;
    assert Brings(g, c) && c.Concerns(u.job.id);
    forall p | LastByKey(g.prior, p) && p.Concerns(u.job.id)
      ensures u.job.id in table && table[u.job.id] == if KeyLess(p.Key(), c.Key()) then c.job else p.job
    {
      NewestOfLocalJob(g, jobs, cancels, p, c);
      NewestDecides(g.Log(cancels), if KeyLess(p.Key(), c.Key()) then c else p);
    }
    if Mentions(g.prior, u.job.id) {
      var p := SomeLastByKey(g.prior, u.job.id);
      assert p.Concerns(u.job.id);
    } else {
      RowOfNewJob(g, jobs, cancels, c);
    }
  }

  lemma RowOfNewJob(g: Given, jobs: seq<Event>, cancels: seq<Event>, e: Event)
    requires Import(g, jobs, cancels) && g.Rebuilt(cancels).Ok?
    requires Brings(g, e) && e.Lifecycle? && !Mentions(g.prior, e.job.id)
    ensures var table := g.Rebuilt(cancels).value; e.job.id in table && table[e.job.id] == e.job
  {
    NewestOfNewJob(g, jobs, cancels, e);
    NewestDecides(g.Log(cancels), e);
  }

  // --------------------------------------------------------------- are jobs disarmed

  /** No imported worker job can run. */
  ghost predicate Disarmed(g: Given, table: Table) {
    forall j :: g.Names(j) ==> j in table && !ArmedRow(table[j], g.tasks)
  }

  predicate ArmedRow(row: Job, tasks: set<Id>) {
    (row.status == Pending || row.status == Leased) && IsWorkerJob(row, tasks)
  }

  /** The job is quarantined, and its cancellation is going to be newer than `c`. */
  ghost predicate CancelledAfter(g: Given, c: Event)
    requires c.Lifecycle?
  {
    exists u :: g.Quarantines(u) && u.job.id == c.job.id && KeyLess(c.Key(), CancellationOf(g, u).Key())
  }

  /** Every job of the bundle whose newest local or imported snapshot could run is cancelled after it. */
  ghost predicate ArmedAreCancelled(g: Given) {
    forall c :: LastByKey(g.Known(), c) && g.Names(c.job.id) && ArmedRow(c.job, g.tasks) ==> CancelledAfter(g, c)
  }

  /** A job of the bundle can run afterwards exactly when its newest local or imported snapshot can, and it
      is not quarantined, or cancelled too early. */
  lemma StaysArmedIff(g: Given, jobs: seq<Event>, cancels: seq<Event>, c: Event)
    requires Import(g, jobs, cancels) && g.Rebuilt(cancels).Ok? && LastByKey(g.Known(), c)
    ensures var table := g.Rebuilt(cancels).value;
            && c.job.id in table
            && (ArmedRow(table[c.job.id], g.tasks) <==> ArmedRow(c.job, g.tasks) && !CancelledAfter(g, c))
  {
    var log := g.Log(cancels);
    assert c.Concerns(c.job.id);
    LogMembers(g, cancels, c);
    var x := RebuiltRow(log, c.job.id);
    LogMembers(g, cancels, x);
    PartsAreDistinct(g, cancels);
    if x in g.Known() {
      forall f | f in g.Known() ensures f in log { LogMembers(g, cancels, f); }
      OnlyLastByKey(g.Known(), c, x);
      forall u | g.Quarantines(u) && u.job.id == c.job.id ensures !KeyLess(c.Key(), CancellationOf(g, u).Key()) {
        IsCancelled(g, jobs, cancels, u);
        LogMembers(g, cancels, CancellationOf(g, u));
        assert CancellationOf(g, u).Concerns(x.job.id);
      }
    } else {
      var u := IsOfSelected(g, jobs, cancels, x);
      assert c.Concerns(x.job.id) && KeyAtMost(c.Key(), x.Key());
      if !KeyLess(c.Key(), x.Key()) { SameId(log, c, x); }
      assert CancelledAfter(g, c);
    }
  }

  /** An import leaves no worker job of the bundle runnable exactly when each whose newest local or imported
      snapshot could run is going to be cancelled after it. */
  lemma ImportDisarmsIff(g: Given, jobs: seq<Event>, cancels: seq<Event>)
    requires Import(g, jobs, cancels) && g.Rebuilt(cancels).Ok?
    ensures Disarmed(g, g.Rebuilt(cancels).value) <==> ArmedAreCancelled(g)
  {
    var table := g.Rebuilt(cancels).value;
    forall j | g.Names(j)
      ensures j in table
      ensures exists c :: LastByKey(g.Known(), c) && c.job.id == j
                          && (ArmedRow(table[j], g.tasks) <==> ArmedRow(c.job, g.tasks) && !CancelledAfter(g, c))
    {
      var e :| e in g.events && e.Concerns(j);
      assert e in g.Known();
      var c := SomeLastByKey(g.Known(), j);
      StaysArmedIff(g, jobs, cancels, c);
    }
    forall c | LastByKey(g.Known(), c) && g.Names(c.job.id)
      ensures c.job.id in table
      ensures ArmedRow(table[c.job.id], g.tasks) <==> ArmedRow(c.job, g.tasks) && !CancelledAfter(g, c)
    {
      StaysArmedIff(g, jobs, cancels, c);
    }
  }

  // ------------------------------------------------- jobs the local log does not know

  /** No local event concerns a job of the bundle. */
  ghost predicate Apart(prior: seq<Event>, events: seq<Event>) {
    forall e, f :: e in prior && f in events && f.Lifecycle? ==> !e.Concerns(f.job.id)
  }

  /** A job whose most recently updated snapshot is finished was not created runnable later. */
  ghost predicate FinishedStayFinished(events: seq<Event>, tasks: set<Id>) {
    forall u, c :: LastByStamp(events, u) && LastByKey(events, c) && u.job.id == c.job.id && !Runnable(u)
                   ==> !Candidate(c, tasks)
  }

  /** For jobs new to the local log the condition is one on the bundle alone: no finished job is followed,
      in creation order, by a runnable snapshot that was updated earlier. */
  lemma NewJobsAreDisarmedIff(g: Given, jobs: seq<Event>, cancels: seq<Event>)
    requires Import(g, jobs, cancels) && Apart(g.prior, g.events)
    ensures ArmedAreCancelled(g) <==> FinishedStayFinished(g.events, g.tasks)
  {
    PartsAreDistinct(g, cancels);
    if FinishedStayFinished(g.events, g.tasks) {
      forall c | LastByKey(g.Known(), c) && g.Names(c.job.id) && ArmedRow(c.job, g.tasks) ensures CancelledAfter(g, c) {
        RunnableIsSelected(g, c);
      }
    }
    if ArmedAreCancelled(g) {
      forall u, c | LastByStamp(g.events, u) && LastByKey(g.events, c) && u.job.id == c.job.id && !Runnable(u)
        ensures !Candidate(c, g.tasks)
      {
        FinishedIsNotCancelled(g, u, c);
      }
    }
  }

  lemma RunnableIsSelected(g: Given, c: Event)
    requires Apart(g.prior, g.events) && FinishedStayFinished(g.events, g.tasks)
    requires forall e :: e in g.events ==> e.createdAt < g.audit.createdAt
    requires LastByKey(g.Known(), c) && g.Names(c.job.id) && ArmedRow(c.job, g.tasks)
    ensures CancelledAfter(g, c)
  {
    var f :| f in g.events && f.Concerns(c.job.id);
    assert c in g.events && LastByKey(g.events, c);
    var u := SomeLastByStamp(g.events, c.job.id);
    assert Candidate(c, g.tasks) && c.Concerns(u.job.id);
    assert g.Quarantines(u);
    assert KeyLess(c.Key(), CancellationOf(g, u).Key());
  }

  lemma FinishedIsNotCancelled(g: Given, u: Event, c: Event)
    requires DistinctIds(g.events) && Apart(g.prior, g.events) && ArmedAreCancelled(g)
    requires LastByStamp(g.events, u) && LastByKey(g.events, c) && u.job.id == c.job.id && !Runnable(u)
    ensures !Candidate(c, g.tasks)
  {
    if Candidate(c, g.tasks) {
      assert LastByKey(g.Known(), c) && c.Concerns(c.job.id);
      assert CancelledAfter(g, c);
      var v :| g.Quarantines(v) && v.job.id == c.job.id;
      assert LastByStamp(g.events, v);
      OnlyLastByStamp(g.events, u, v);
    }
  }

  /** The dual: a new job that was completed or dead-lettered by creation order is rebuilt so exactly when
      the quarantine does not take it for runnable by update order. */
  lemma FinishedRowStaysIff(g: Given, jobs: seq<Event>, cancels: seq<Event>, u: Event, c: Event)
    requires Import(g, jobs, cancels) && g.Rebuilt(cancels).Ok? && Apart(g.prior, g.events)
    requires LastByStamp(g.events, u) && LastByKey(g.events, c) && u.job.id == c.job.id
    requires c.Leaves(Completed) || c.Leaves(DeadLetter)
    ensures var table, j := g.Rebuilt(cancels).value, c.job.id;
            && j in table && (table[j] == c.job || table[j].status == Cancelled)
            && (table[j] == c.job <==>
                  !(Runnable(u) && exists x :: x in g.events && x.Concerns(j) && Candidate(x, g.tasks)))
  {
    PartsAreDistinct(g, cancels);
    assert c.Concerns(c.job.id) && !Mentions(g.prior, c.job.id);
    var e := SomethingBrought(g, c.job.id);
    RowOfNewJob(g, jobs, cancels, e);
    if v :| g.Quarantines(v) && e == CancellationOf(g, v) {
      assert LastByStamp(g.events, v);
      OnlyLastByStamp(g.events, u, v);
    } else {
      OnlyLastByKey(g.events, c, e);
      assert !g.Quarantines(u);
    }
  }

  // ------------------------------------------------------------- what happens to local jobs

  /** The local jobs table, as a rebuild before the import would leave it. */
  function LocalTable(prior: seq<Event>): Result<Table, Rejection> {
    Replay(Listing(prior), prior)
  }

  /** A job that no imported event names keeps its row, or stays unknown. */
  lemma UnnamedJobsStay(g: Given, jobs: seq<Event>, cancels: seq<Event>, j: Id)
    requires Import(g, jobs, cancels) && g.Rebuilt(cancels).Ok? && LocalTable(g.prior).Ok? && !g.Names(j)
    ensures var before, after := LocalTable(g.prior).value, g.Rebuilt(cancels).value;
            (j in before <==> j in after) && (j in before ==> before[j] == after[j])
  {
    var log := g.Log(cancels);
    JobsOfTable(g.prior, j);
    JobsOfTable(log, j);
    forall e | e in log && e.Concerns(j) ensures e in g.prior {
      LogMembers(g, cancels, e);
      if e in cancels { CancelledIsNamed(g, jobs, cancels, e); }
    }
    forall e | e in g.prior ensures e in log { LogMembers(g, cancels, e); }
    if Mentions(g.prior, j) {
      var last := SomeLastByKey(g.prior, j);
      PartsAreDistinct(g, cancels);
      NewestDecides(g.prior, last);
      NewestDecides(log, last);
    }
  }

  lemma CancelledIsNamed(g: Given, jobs: seq<Event>, cancels: seq<Event>, e: Event)
    requires Import(g, jobs, cancels) && e in cancels
    ensures e.Lifecycle? && g.Names(e.job.id)
  {
    var u := IsOfSelected(g, jobs, cancels, e);
    assert u in g.events && u.Concerns(e.job.id);
  }

  /** What the import brings for the job is newer than all its local events and differs from the last. */
  ghost predicate Overwritten(g: Given, j: Id) {
    exists p, e :: LastByKey(g.prior, p) && Brings(g, e) && p.Concerns(j) && e.Concerns(j)
                   && KeyLess(p.Key(), e.Key()) && e.job != p.job
  }

  /** An import changes a local job exactly when its cancellation, if it is quarantined, else its newest
      imported snapshot, is newer than the newest local one and differs from it. */
  lemma LocalJobChangesIff(g: Given, jobs: seq<Event>, cancels: seq<Event>, j: Id)
    requires Import(g, jobs, cancels) && g.Rebuilt(cancels).Ok?
    requires LocalTable(g.prior).Ok? && j in LocalTable(g.prior).value
    ensures var before, after := LocalTable(g.prior).value, g.Rebuilt(cancels).value;
            j in after && (before[j] != after[j] <==> Overwritten(g, j))
  {
    JobsOfTable(g.prior, j);
    if g.Names(j) {
      var p := SomeLastByKey(g.prior, j);
      var e := SomethingBrought(g, j);
      RowOfLocalJob(g, jobs, cancels, p, e);
      if Overwritten(g, j) {
        var q, f :| LastByKey(g.prior, q) && Brings(g, f) && q.Concerns(j) && f.Concerns(j)
                    && KeyLess(q.Key(), f.Key()) && f.job != q.job;
        RowOfLocalJob(g, jobs, cancels, q, f);
      }
    } else {
      UnnamedJobsStay(g, jobs, cancels, j);
      forall e | Brings(g, e) && e.Concerns(j) ensures false { BroughtIsNamed(g, e); }
    }
  }

  lemma RowOfLocalJob(g: Given, jobs: seq<Event>, cancels: seq<Event>, p: Event, e: Event)
    requires Import(g, jobs, cancels) && g.Rebuilt(cancels).Ok? && LocalTable(g.prior).Ok?
    requires LastByKey(g.prior, p) && Brings(g, e) && e.Concerns(p.job.id)
    ensures var before, after, j := LocalTable(g.prior).value, g.Rebuilt(cancels).value, p.job.id;
            && j in before && before[j] == p.job
            && j in after && after[j] == if KeyLess(p.Key(), e.Key()) then e.job else p.job
  {
    PartsAreDistinct(g, cancels);
    NewestDecides(g.prior, p);
    NewestOfLocalJob(g, jobs, cancels, p, e);
    NewestDecides(g.Log(cancels), if KeyLess(p.Key(), e.Key()) then e else p);
  }

  lemma BroughtIsNamed(g: Given, e: Event)
    requires Brings(g, e) && e.Lifecycle?
    ensures g.Names(e.job.id)
  {
    if u :| g.Quarantines(u) && e == CancellationOf(g, u) {
      assert u in g.events && u.Concerns(e.job.id);
    } else {
      assert e.Concerns(e.job.id);
    }
  }

  /** Update order and creation order agree, job by job. */
  ghost predicate OrdersAgree(events: seq<Event>) {
    forall e, f :: e in events && f in events && e.Lifecycle? && f.Concerns(e.job.id) && KeyLess(e.Key(), f.Key())
                   ==> e.job.updatedAt <= f.job.updatedAt
  }

  lemma AgreeingOrdersDisarm(events: seq<Event>, tasks: set<Id>)
    requires DistinctIds(events) && OrdersAgree(events)
    ensures FinishedStayFinished(events, tasks)
  {
    forall u, c | LastByStamp(events, u) && LastByKey(events, c) && u.job.id == c.job.id && !Runnable(u)
      ensures !Candidate(c, tasks)
    {
      assert c.Concerns(u.job.id) && u.Concerns(c.job.id);
      assert KeyAtMost(u.Key(), c.Key()) && !Newer(StampOf(c), StampOf(u));
      SameIdOrLess(events, u, c);
    }
  }

  lemma SameIdOrLess(events: seq<Event>, u: Event, c: Event)
    requires DistinctIds(events) && u in events && c in events && KeyAtMost(u.Key(), c.Key())
    ensures u == c || KeyLess(u.Key(), c.Key())
  {
    if u.id == c.id { SameId(events, u, c); }
  }

  // ------------------------------------------------------- bundles of a queue's own log

  /** The bundle holds the whole history of each of its jobs, as a queue wrote it. */
  ghost predicate HoldsHistories(events: seq<Event>, log: seq<Event>) {
    forall e :: e in events && e.Lifecycle? ==>
                  Path(History(log, e.job.id))
                  && forall f :: f in History(log, e.job.id) <==> f in events && f.Concerns(e.job.id)
  }

  ghost predicate NoRetries(events: seq<Event>) {
    forall e :: e in events ==> !e.Is(JobRetried)
  }

  /** Without a retry, a history that ends runnable was runnable throughout. */
  lemma {:induction false} RunnableThroughout(h: seq<Event>, k: nat)
    requires Path(h) && k < |h| && Runnable(Last(h)) && NoRetries(h)
    ensures Runnable(h[k])
  {
    if k < |h| - 1 {
      var n := |h| - 1;
      assert Legal(h[..n], h[n]) && h[n] in h;
      assert forall e :: e in h[..n] ==> e in h;
      RunnableThroughout(h[..n], k);
    }
  }

  /** A queue's own log is always disarmed, whatever the clocks read, if no job in it was retried. */
  lemma QueueLogsWithoutRetriesDisarm(events: seq<Event>, log: seq<Event>, tasks: set<Id>)
    requires DistinctIds(events) && HoldsHistories(events, log) && NoRetries(events)
    ensures FinishedStayFinished(events, tasks)
  {
    forall u, c | LastByStamp(events, u) && LastByKey(events, c) && u.job.id == c.job.id && !Runnable(u)
      ensures !Candidate(c, tasks)
    {
      var h := History(log, c.job.id);
      assert u in h && c in h && Last(h) in h;
      PathIncreasing(h);
      var i :| 0 <= i < |h| && h[i] == c;
      assert KeyAtMost(Last(h).Key(), c.Key());
      assert i == |h| - 1;
      var k :| 0 <= k < |h| && h[k] == u;
      if Runnable(c) { RunnableThroughout(h, k); }
    }
  }
}
