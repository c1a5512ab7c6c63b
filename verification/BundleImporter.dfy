/** The importer: check the bundle's branches, order its events, audit them, quarantine its worker jobs,
    rebuild. */
module BundleImporter {
  import opened Common
  import opened Sorting
  import opened JobContract
  import opened JobHistory
  import opened JobProjection
  import opened BundleOrder
  import BundleSort
  import opened BundleLineage
  import opened BundleQuarantine
  import opened BundleImport
  import opened BundleOutcome
  import opened BundleEffects

  datatype Refusal =
    | Unsound(fault: LineageError)
    | NotOneSession
    | BranchMissing
    | Unordered(error: ImportError)
    | UnknownBranch
    | IdentityCollision
    | RepeatedId
    | RebuildFailed(rejection: Rejection)

  datatype Imported = Imported(given: Given, jobs: seq<Event>, cancels: seq<Event>, table: Table)

  function EventsOf(bundle: seq<BundleEvent>): (events: seq<Event>)
    ensures |events| == |bundle|
    ensures forall i :: 0 <= i < |bundle| ==> events[i] == bundle[i].event
  {
    seq(|bundle|, i requires 0 <= i < |bundle| => bundle[i].event)
  }

  ghost predicate OneSession(bundle: seq<BundleEvent>) {
    bundle != [] && bundle[0].event.session.Some?
    && forall b :: b in bundle ==> b.event.session == bundle[0].event.session
  }

  /** A local event with the identity, the session or the branch of an imported one. */
  ghost predicate Collides(prior: seq<Event>, events: seq<Event>) {
    exists e, f :: e in prior && f in events
                   && (e.id == f.id || (e.session.Some? && f.session == Some(e.session.value))
                       || (e.branch.Some? && f.branch == Some(e.branch.value)))
  }

  predicate SharesIdentity(e: Event, f: Event) {
    e.id == f.id || (e.session.Some? && e.session == f.session) || (e.branch.Some? && e.branch == f.branch)
  }

  method FindsCollision(prior: seq<Event>, events: seq<Event>) returns (found: bool)
    ensures found <==> Collides(prior, events)
  {
    for i := 0 to |prior|
      invariant forall e, f :: e in prior[..i] && f in events ==> !SharesIdentity(e, f)
    {
      for k := 0 to |events|
        invariant forall f :: f in events[..k] ==> !SharesIdentity(prior[i], f)
      {
        if SharesIdentity(prior[i], events[k]) { return true; }
      }
    }
    assert prior[..|prior|] == prior;
    found := false;
  }

  /** What the store looks for as it appends. */
  method FindsRepeatedId(log: seq<Event>) returns (found: bool)
    ensures found <==> !DistinctIds(log)
  {
    var seen: set<Id> := {};
    for i := 0 to |log|
      invariant forall k :: 0 <= k < i ==> log[k].id in seen
      invariant forall x :: x in seen ==> exists k :: 0 <= k < i && log[k].id == x
      invariant forall k, m :: 0 <= k < m < i ==> log[k].id != log[m].id
    {
      if log[i].id in seen { return true; }
      seen := seen + {log[i].id};
    }
    found := false;
  }

  /** The newest event, by `(created_at, id)`, among those on `branch`, or among all. */
  function Tip(events: seq<Event>, branch: Option<string>): (tip: Option<Event>)
    ensures tip.None? <==> forall e :: e in events ==> branch.Some? && e.branch != branch
    ensures tip.Some? ==> tip.value in events && (branch.Some? ==> tip.value.branch == branch)
    ensures tip.Some? ==> forall e :: e in events && (branch.Some? ==> e.branch == branch)
                                      ==> KeyAtMost(e.Key(), tip.value.Key())
  {
    if events == [] then None
    else
      var last := events[|events| - 1];
      assert events == events[..|events| - 1] + [last] && last in events;
      var tip := Tip(events[..|events| - 1], branch);
      if branch.Some? && last.branch != branch then tip
      else if tip.None? || KeyLess(tip.value.Key(), last.Key()) then Some(last)
      else tip
  }

  lemma OrderedIdsDiffer(bundle: seq<BundleEvent>, ordered: seq<BundleEvent>)
    requires Distinct(bundle) && multiset(ordered) == multiset(bundle) && Canonical(bundle, ordered)
    ensures DistinctIds(EventsOf(ordered))
  {
    SameMembers(bundle, ordered);
    forall i, j | 0 <= i < j < |ordered| ensures ordered[i].Id() != ordered[j].Id() {
      NoRepeats(bundle, ordered, i, j);
      if ordered[i].Id() == ordered[j].Id() { SameIdSameEvent(bundle, ordered[i], ordered[j]); }
    }
  }

  method CheckContext(bundle: seq<BundleEvent>) returns (refusal: Option<Refusal>)
    ensures refusal == Some(NotOneSession) <==> !OneSession(bundle)
    ensures refusal == Some(BranchMissing) <==> OneSession(bundle) && !OnBranches(bundle)
    ensures refusal.None? <==> OneSession(bundle) && OnBranches(bundle)
  {
    if bundle == [] || bundle[0].event.session.None? { return Some(NotOneSession); }
    var branchMissing := false;
    for i := 0 to |bundle|
      invariant forall b :: b in bundle[..i] ==> b.event.session == bundle[0].event.session
      invariant branchMissing <==> exists b :: b in bundle[..i] && b.event.branch.None?
    {
      assert bundle[..i + 1] == bundle[..i] + [bundle[i]];
      if bundle[i].event.session != bundle[0].event.session { return Some(NotOneSession); }
      if bundle[i].event.branch.None? { branchMissing := true; }
    }
    assert bundle[..|bundle|] == bundle;
    refusal := if branchMissing then Some(BranchMissing) else None;
  }

  /** The store finds the references of the bundle's own events among those before, in the sorted order. */
  lemma ImportedAreReferenced(bundle: seq<BundleEvent>, ordered: seq<BundleEvent>, g: Given, cancels: seq<Event>)
    requires Canonical(bundle, ordered) && g.events == EventsOf(ordered)
    ensures forall k :: |g.prior| <= k < |g.Known()| ==> FindsReferences(g.Log(cancels), k)
  {
    var log, n := g.Log(cancels), |g.prior|;
    forall k | n <= k < |g.Known()| ensures FindsReferences(log, k) {
      var m := k - n;
      assert log[k] == g.events[m] && LeastReady(bundle, ordered, m);
      forall id | log[k].parent == Some(id) || log[k].causation == Some(id) ensures Find(log[..k], id).Some? {
        assert id in ordered[m].Dependencies();
        IdsMember(ordered[..m], id);
        var i :| 0 <= i < m && ordered[..m][i].Id() == id;
        assert log[n + i] == g.events[i];
        FoundEarlier(log, n + i, k, id);
      }
    }
  }

  /** The audit event follows the newest event of the branch the manifest declares, or of the bundle. */
  ghost predicate Audits(audit: Event, events: seq<Event>, declared: Option<string>) {
    var tip := Tip(events, audit.branch);
    && audit.Other? && (declared.Some? ==> audit.branch == declared)
    && tip.Some? && audit.parent == audit.causation == Some(tip.value.id) && audit.session == tip.value.session
  }

  method AuditEvent(events: seq<Event>, declared: Option<string>, now: Time, id: Id, correlation: Id)
    returns (r: Result<Event, Refusal>)
    requires events != []
    ensures r.Ok? ==> Audits(r.value, events, declared) && r.value.id == id && r.value.createdAt == AuditTime(now, events)
    ensures r.Ok? ==> Follows(r.value, events, declared) && IsAuditTime(now, events, r.value.createdAt)
    ensures r.Err? ==> r == Err(UnknownBranch) && declared.Some? && forall e :: e in events ==> e.branch != declared
  {
    var tip := Tip(events, declared);
    if tip.None? {
      assert events[0] in events;
      return Err(UnknownBranch);
    }
    assert forall e :: e in events && (declared.Some? ==> e.branch == declared) ==> !Later(e, tip.value);
    tip := Tip(events, tip.value.branch);
    AuditTimeIs(now, events);
    r := Ok(Other(id, AuditTime(now, events), tip.value.session, tip.value.branch, Some(tip.value.id), Some(tip.value.id),
                  if tip.value.correlation.Some? then tip.value.correlation else Some(correlation)));
    assert IsTip(tip.value, r.value, events, declared);
  }

  /** The bundle's events in the order they are appended, if its branches, its session and its references
      are sound. */
  method OrderedEvents(bundle: seq<BundleEvent>) returns (r: Result<seq<BundleEvent>, Refusal>)
    ensures r.Ok? ==> SoundLineage(bundle) && OneSession(bundle) && Resolved(bundle) && !Cyclic(bundle)
    ensures r.Ok? ==> Canonical(bundle, r.value) && multiset(EventsOf(r.value)) == multiset(EventsOf(bundle))
    ensures r.Ok? ==> r.value != [] && DistinctIds(EventsOf(r.value))
    ensures r.Err? && r.error.Unsound? <==> !SoundLineage(bundle)
    ensures r == Err(NotOneSession) <==> SoundLineage(bundle) && !OneSession(bundle)
    ensures r.Err? && r.error.Unordered? <==>
            SoundLineage(bundle) && OneSession(bundle) && (!Resolved(bundle) || Cyclic(bundle))
    ensures r.Err? ==> r.error.Unsound? || r.error == NotOneSession || r.error.Unordered?
  {
    var fault := CheckLineage(bundle);
    if fault.Some? { return Err(Unsound(fault.value)); }
    var context := CheckContext(bundle);
    if context.Some? { return Err(context.value); }
    var sorted := BundleSort.TopologicalEvents(bundle);
    if sorted.Err? { return Err(Unordered(sorted.error)); }
    OrderedIdsDiffer(bundle, sorted.value);
    SameEvents(bundle, sorted.value);
    SameMembers(bundle, sorted.value);
    r := Ok(sorted.value);
  }

  /** What is imported: the bundle's events, reordered, the jobs its tasks name, and the audit event. */
  ghost predicate Arrives(g: Given, prior: seq<Event>, bundle: seq<BundleEvent>, declared: Option<string>, now: Time,
                          auditId: Id, ids: nat -> Id)
  {
    && g.prior == prior && g.events != [] && multiset(g.events) == multiset(EventsOf(bundle))
    && (forall j :: j in g.tasks <==> exists b :: b in bundle && b.taskJob == Some(j))
    && g.ids == ids && g.audit.id == auditId && Audits(g.audit, g.events, declared)
    && IsAuditTime(now, g.events, g.audit.createdAt) && Follows(g.audit, g.events, declared)
  }

  /** What the import leaves: references the store finds, the quarantine, the newest snapshot of each job, and
      nothing of the bundle that can run for a task, exactly when all that could is ended in time. */
  ghost predicate Settles(bundle: seq<BundleEvent>, g: Given, jobs: seq<Event>, cancels: seq<Event>, table: Table) {
    && Import(g, jobs, cancels) && g.Rebuilt(cancels) == Ok(table)
    && (forall k :: |g.prior| <= k < |g.Log(cancels)| ==> FindsReferences(g.Log(cancels), k))
    && Quarantine(bundle, g, jobs, cancels) && HoldsNewest(g.Log(cancels), table)
    && (Disarmed(g, table) <==> ArmedAreCancelled(g))
    && (NothingCanRun(bundle, g.events, table) <==> AllEndLater(bundle, g, jobs))
  }

  /** `import_directory`, from the parsed bundle on. `prior` is the local event table; `declared` is the
      branch the manifest names; the last four arguments are the clock and the generated identifiers. */
  method ImportBundle(prior: seq<Event>, bundle: seq<BundleEvent>, declared: Option<string>, now: Time, auditId: Id,
                      correlation: Id, ids: nat -> Id)
    returns (r: Result<Imported, Refusal>)
    ensures r.Ok? ==> SoundLineage(bundle) && OneSession(bundle) && Resolved(bundle) && !Cyclic(bundle)
    ensures r.Ok? ==> !Collides(prior, EventsOf(bundle))
    ensures r.Ok? ==> Arrives(r.value.given, prior, bundle, declared, now, auditId, ids)
    ensures r.Ok? ==> Settles(bundle, r.value.given, r.value.jobs, r.value.cancels, r.value.table)
    ensures r.Err? && r.error.Unsound? <==> !SoundLineage(bundle)
    ensures r == Err(NotOneSession) <==> SoundLineage(bundle) && !OneSession(bundle)
    ensures r.Err? && r.error.Unordered? <==>
            SoundLineage(bundle) && OneSession(bundle) && (!Resolved(bundle) || Cyclic(bundle))
    ensures r == Err(IdentityCollision) ==> Collides(prior, EventsOf(bundle))
  {
    var sorted := OrderedEvents(bundle);
    if sorted.Err? { return Err(sorted.error); }
    var events := EventsOf(sorted.value);
    var tasks := TaskJobs(bundle);
    var jobs := PendingWorkerJobs(events, tasks);
    var audited := AuditEvent(events, declared, now, auditId, correlation);
    if audited.Err? { return Err(UnknownBranch); }
    var cancels := QuarantineEvents(jobs, audited.value, ids);
    var collides := FindsCollision(prior, events);
    CollideAlike(prior, events, EventsOf(bundle));
    if collides { return Err(IdentityCollision); }
    var g := Given(prior, events, tasks, audited.value, ids);
    MakesImport(g, declared, now, jobs, cancels);
    TasksAreNamed(bundle);
    var rebuilt := Land(bundle, sorted.value, declared, g, jobs, cancels);
    if rebuilt.Err? { return Err(rebuilt.error); }
    r := Ok(Imported(g, jobs, cancels, rebuilt.value));
  }

  /** The events are appended, unless an identifier repeats, and the table is rebuilt from them. */
  method Land(bundle: seq<BundleEvent>, ordered: seq<BundleEvent>, declared: Option<string>, g: Given, jobs: seq<Event>,
              cancels: seq<Event>)
    returns (r: Result<Table, Refusal>)
    requires Canonical(bundle, ordered) && g.events == EventsOf(ordered) && Audits(g.audit, g.events, declared)
    requires g.tasks == TaskJobs(bundle) && (DistinctIds(g.Log(cancels)) ==> Import(g, jobs, cancels))
    ensures r.Ok? ==> Settles(bundle, g, jobs, cancels, r.value)
    ensures r == Err(RepeatedId) <==> !DistinctIds(g.Log(cancels))
    ensures r.Err? ==> r.error == RepeatedId || r.error.RebuildFailed?
  {
    var repeated := FindsRepeatedId(g.Log(cancels));
    if repeated { return Err(RepeatedId); }
    var rebuilt := g.Rebuilt(cancels);
    if rebuilt.Err? { return Err(RebuildFailed(rebuilt.error)); }
    Accepted(bundle, ordered, declared, g, jobs, cancels);
    r := Ok(rebuilt.value);
  }

  lemma TasksAreNamed(bundle: seq<BundleEvent>)
    ensures forall j :: j in TaskJobs(bundle) <==> exists b :: b in bundle && b.taskJob == Some(j)
  {
    forall j ensures j in TaskJobs(bundle) <==> exists b :: b in bundle && b.taskJob == Some(j) { TaskIsNamed(bundle, j); }
  }

  lemma CollideAlike(prior: seq<Event>, events: seq<Event>, read: seq<Event>)
    requires multiset(events) == multiset(read)
    ensures Collides(prior, events) <==> Collides(prior, read)
  {
    SameMembers(events, read);
  }

  lemma MakesImport(g: Given, declared: Option<string>, now: Time, jobs: seq<Event>, cancels: seq<Event>)
    requires g.events != [] && g.audit.createdAt == AuditTime(now, g.events) && Audits(g.audit, g.events, declared)
    requires Snapshots(jobs) && InStampOrder(jobs) && OnePerJob(jobs) && forall e :: e in jobs <==> g.Quarantines(e)
    requires |cancels| == |jobs|
    requires forall i :: 0 <= i < |jobs| ==> cancels[i] == Cancellation(jobs[i], g.audit, i + 1, g.ids(i))
    ensures DistinctIds(g.Log(cancels)) ==> Import(g, jobs, cancels)
  {
    forall e | e in g.events ensures e.createdAt < g.audit.createdAt {
      assert e.createdAt <= LatestCreation(g.events);
    }
  }

  /** What follows once every check has passed. */
  lemma Accepted(bundle: seq<BundleEvent>, ordered: seq<BundleEvent>, declared: Option<string>, g: Given,
                 jobs: seq<Event>, cancels: seq<Event>)
    requires Canonical(bundle, ordered) && g.events == EventsOf(ordered) && Audits(g.audit, g.events, declared)
    requires Import(g, jobs, cancels) && g.tasks == TaskJobs(bundle) && g.Rebuilt(cancels).Ok?
    ensures Settles(bundle, g, jobs, cancels, g.Rebuilt(cancels).value)
  {
    ImportDisarmsIff(g, jobs, cancels);
    RebuiltHoldsNewest(g.Log(cancels));
    ImportedAreReferenced(bundle, ordered, g, cancels);
    AdditionsAreReferenced(g, jobs, cancels, Tip(g.events, g.audit.branch).value);
    QuarantineIs(bundle, g, jobs, cancels);
    NothingCanRunIff(bundle, g, jobs, cancels);
  }

  lemma EventMembers(a: seq<BundleEvent>, b: seq<BundleEvent>, e: Event)
    requires e in EventsOf(a) && forall x :: x in a ==> x in b
    ensures e in EventsOf(b)
  {
    var i :| 0 <= i < |a| && EventsOf(a)[i] == e;
    assert a[i] in b;
    var k :| 0 <= k < |b| && b[k] == a[i];
    assert EventsOf(b)[k] == e;
  }

  /** Reordering a bundle reorders its events. */
  lemma SameEvents(bundle: seq<BundleEvent>, ordered: seq<BundleEvent>)
    requires Distinct(bundle) && multiset(ordered) == multiset(bundle) && DistinctIds(EventsOf(ordered))
    ensures multiset(EventsOf(ordered)) == multiset(EventsOf(bundle))
  {
    SameMembers(bundle, ordered);
    forall e ensures e in EventsOf(ordered) <==> e in EventsOf(bundle) {
      if e in EventsOf(ordered) { EventMembers(ordered, bundle, e); }
      if e in EventsOf(bundle) { EventMembers(bundle, ordered, e); }
    }
    SameMembersOnce(EventsOf(ordered), EventsOf(bundle));
  }
}
