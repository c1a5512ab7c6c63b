/** Lineage read off the fields of the records: walks from a record to one it mentions, and what the
    records at their ends carry. */
module LineageFields {
  import opened Common
  import opened LineageGraph
  import opened LineageRecords

  /** The envelope or the payload of the record names `x`. */
  predicate Mentions(e: Record, x: Ref) {
    || e.causation == Some(x) || e.parent == Some(x)
    || e.source == Some(x) || e.target == Some(x) || e.event == Some(x)
    || e.verificationSource == Some(x) || e.approver == Some(x)
    || x in e.sources
  }

  predicate WorkerMade(e: Record) {
    || (|e.kind| >= 7 && e.kind[..7] == "worker.") || e.actor == Worker
    || e.payload.artifactOrigin == Some("worker_generated") || e.metadata.artifactOrigin == Some("worker_generated")
  }

  predicate LabelledSynthetic(e: Record) {
    || e.payload.syntheticFixture || e.payload.materialOrigin == Some("synthetic_fixture")
    || e.metadata.syntheticFixture || e.metadata.materialOrigin == Some("synthetic_fixture")
  }

  predicate IsOrigin(o: Option<string>) {
    o == Some("oracle_generated") || o == Some("historical_fixture") || o == Some("synthetic_fixture")
  }

  /** Oracle output whose payload, or failing that whose metadata, names no origin. */
  predicate Unlabelled(e: Record) {
    e.kind == "oracle.output" && !IsOrigin(e.payload.materialOrigin)
    && !((e.payload.materialOrigin.None? || e.payload.materialOrigin == Some("")) && IsOrigin(e.metadata.materialOrigin))
  }

  /** The labels say something of the origin. */
  predicate Speaks(labels: Labels) {
    labels.materialOrigin.Some? || labels.syntheticFixture || labels.historicalFixture
  }

  predicate Says(labels: Labels, o: MaterialOrigin) {
    match o
    case OracleGenerated => labels.materialOrigin == Some("oracle_generated")
    case SyntheticFixture =>
      labels.materialOrigin == Some("synthetic_fixture") || (labels.materialOrigin.None? && labels.syntheticFixture)
    case HistoricalFixture =>
      labels.materialOrigin == Some("historical_fixture")
      || (labels.materialOrigin.None? && !labels.syntheticFixture && labels.historicalFixture)
    case Unknown => false
  }

  /** The payload says so, or the metadata if the payload says nothing. */
  predicate LabelledAs(e: Record, o: MaterialOrigin) {
    Says(e.payload, o) || (!Speaks(e.payload) && Says(e.metadata, o))
  }

  lemma MarkersAre(e: Record)
    ensures IsWorkerArtifact(e) <==> WorkerMade(e)
    ensures IsSyntheticFixture(e) <==> LabelledSynthetic(e)
    ensures IsUnlabelledOracleOutput(e) <==> Unlabelled(e)
    ensures forall o {:trigger LabelledAs(e, o)} :: o != Unknown ==> (ExplicitOrigin(e) == o <==> LabelledAs(e, o))
  {
  }

  lemma IsPresent(o: Option<Ref>, x: Ref)
    ensures x in Present(o) <==> o == Some(x)
  {
  }

  lemma InPayload(e: Record, x: Ref)
    ensures x in PayloadReferences(e) <==>
            e.source == Some(x) || e.target == Some(x) || e.event == Some(x)
            || e.verificationSource == Some(x) || e.approver == Some(x) || x in e.sources
  {
    IsPresent(e.source, x);
    IsPresent(e.target, x);
    IsPresent(e.event, x);
    IsPresent(e.verificationSource, x);
    IsPresent(e.approver, x);
  }

  lemma CitedAre(e: Record, x: Ref)
    ensures x in Cited(e) <==> Mentions(e, x)
    ensures x in ExportReferences(e) <==> Mentions(e, x) && x != e.id && x != ""
  {
    ReferencesAgree(e, x);
    InPayload(e, x);
    IsPresent(e.causation, x);
    IsPresent(e.parent, x);
    assert x in RowReferences(e) <==> x in Present(e.parent) || x in Present(e.causation) || x in PayloadReferences(e);
  }

  /** Each record of the walk is one of `events` and mentions the next. */
  ghost predicate Leads(events: set<Record>, walk: seq<Record>) {
    && walk != [] && (forall i :: 0 <= i < |walk| ==> walk[i] in events)
    && forall i, k :: 0 <= i < k < |walk| && k == i + 1 ==> Mentions(walk[i], walk[k].id)
  }

  /** From a record called `x` mentions lead to one that `p` holds of. */
  ghost predicate LeadsTo(events: set<Record>, p: Record -> bool, x: Ref) {
    exists walk: seq<Record> :: Leads(events, walk) && walk[0].id == x && p(walk[|walk| - 1])
  }

  lemma LeadsOn(events: set<Record>, e: Record, walk: seq<Record>)
    requires Leads(events, walk) && e in events && Mentions(e, walk[0].id)
    ensures Leads(events, [e] + walk)
  {
    var longer := [e] + walk;
    forall i, k | 0 <= i < k < |longer| && k == i + 1 ensures Mentions(longer[i], longer[k].id) {
      if i > 0 { assert longer[i] == walk[i - 1] && longer[k] == walk[k - 1]; }
    }
  }

  lemma LeadsTail(events: set<Record>, walk: seq<Record>)
    requires Leads(events, walk) && |walk| > 1
    ensures Leads(events, walk[1..]) && Mentions(walk[0], walk[1].id)
  {
    forall i, k | 0 <= i < k < |walk| - 1 && k == i + 1 ensures Mentions(walk[1..][i], walk[1..][k].id) {
      assert walk[1..][i] == walk[i + 1] && walk[1..][k] == walk[k + 1];
    }
  }

  /** The graph has an arrow wherever a record of one identifier mentions another known one. */
  ghost predicate Draws(g: Graph, events: set<Record>) {
    && (forall x :: x in g <==> exists e :: e in events && e.id == x)
    && (forall x, y :: Cites(g, x, y) ==> exists e :: e in events && e.id == x && Mentions(e, y))
    && (forall e, y :: e in events && Mentions(e, y) && y in g && y != e.id ==> Cites(g, e.id, y))
  }

  ghost predicate Marks(seeds: set<Ref>, events: set<Record>, p: Record -> bool) {
    forall x :: x in seeds <==> exists e :: e in events && e.id == x && p(e)
  }

  lemma {:induction false} WalkReaches(g: Graph, seeds: set<Ref>, events: set<Record>, p: Record -> bool, walk: seq<Record>)
    requires Draws(g, events) && Marks(seeds, events, p) && Leads(events, walk) && p(walk[|walk| - 1])
    ensures Reaches(g, seeds, walk[0].id)
  {
    if |walk| == 1 {
      SeedReaches(g, seeds, walk[0].id);
    } else {
      LeadsTail(events, walk);
      WalkReaches(g, seeds, events, p, walk[1..]);
      if walk[0].id != walk[1].id { CiterReaches(g, seeds, walk[0].id, walk[1].id); }
    }
  }

  lemma {:induction false} TrailLeads(g: Graph, seeds: set<Ref>, events: set<Record>, p: Record -> bool, path: seq<Ref>)
    returns (walk: seq<Record>)
    requires Draws(g, events) && Marks(seeds, events, p) && Trail(g, path) && path[|path| - 1] in seeds
    ensures Leads(events, walk) && walk[0].id == path[0] && p(walk[|walk| - 1])
  {
    if |path| == 1 {
      var e :| e in events && e.id == path[0] && p(e);
      walk := [e];
    } else {
      TrailTail(g, path, 1);
      TrailTail(g, path, 0);
      var rest := TrailLeads(g, seeds, events, p, path[1..]);
      var e :| e in events && e.id == path[0] && Mentions(e, path[1]);
      LeadsOn(events, e, rest);
      walk := [e] + rest;
    }
  }

  /** Reaching a seed in the graph is being led to it by mentions. */
  lemma ReachesIsLeadsTo(g: Graph, seeds: set<Ref>, events: set<Record>, p: Record -> bool, x: Ref)
    requires Draws(g, events) && Marks(seeds, events, p)
    ensures Reaches(g, seeds, x) <==> LeadsTo(events, p, x)
  {
    if Reaches(g, seeds, x) {
      var path :| Trail(g, path) && path[0] == x && path[|path| - 1] in seeds;
      var walk := TrailLeads(g, seeds, events, p, path);
    }
    if LeadsTo(events, p, x) {
      var walk: seq<Record> :| Leads(events, walk) && walk[0].id == x && p(walk[|walk| - 1]);
      WalkReaches(g, seeds, events, p, walk);
    }
  }

  // ------------------------------------------------------------------------ stores

  ghost function StoreRecords(store: Store): set<Record> {
    set x | x in store :: store[x]
  }

  ghost predicate OwnIds(store: Store) {
    forall x :: x in store ==> store[x].id == x
  }

  lemma CitationsDraw(store: Store)
    requires OwnIds(store)
    ensures Draws(Citations(store), StoreRecords(store))
  {
    var g, events := Citations(store), StoreRecords(store);
    forall x | x in g ensures exists e :: e in events && e.id == x { assert store[x] in events; }
    forall x, y | Cites(g, x, y) ensures exists e :: e in events && e.id == x && Mentions(e, y) {
      CitedAre(store[x], y);
      assert store[x] in events;
    }
    forall e, y | e in events && Mentions(e, y) && y in g && y != e.id ensures Cites(g, e.id, y) { CitedAre(e, y); }
  }

  /** In a store, an event has worker lineage exactly when mentions lead from it to something worker-made. */
  lemma WorkerLineageIs(store: Store, x: Ref)
    requires OwnIds(store)
    ensures HasWorkerLineage(store, x) <==> LeadsTo(StoreRecords(store), WorkerMade, x)
  {
    CitationsDraw(store);
    forall e { MarkersAre(e); }
    forall y | y in WorkerArtifacts(store) ensures exists e :: e in StoreRecords(store) && e.id == y && WorkerMade(e) {
      assert store[y] in StoreRecords(store);
    }
    ReachesIsLeadsTo(Citations(store), WorkerArtifacts(store), StoreRecords(store), WorkerMade, x);
  }

  /** And an origin in its ancestry exactly when they lead to something labelled so. */
  lemma OriginLineageIs(store: Store, o: MaterialOrigin, x: Ref)
    requires OwnIds(store) && o != Unknown
    ensures Reaches(Citations(store), WithOrigin(store, o), x)
            <==> LeadsTo(StoreRecords(store), (e: Record) => LabelledAs(e, o), x)
  {
    var p := (e: Record) => LabelledAs(e, o);
    CitationsDraw(store);
    forall e ensures ExplicitOrigin(e) == o <==> p(e) { MarkersAre(e); }
    forall y | y in WithOrigin(store, o) ensures exists e :: e in StoreRecords(store) && e.id == y && p(e) {
      assert store[y] in StoreRecords(store);
    }
    ReachesIsLeadsTo(Citations(store), WithOrigin(store, o), StoreRecords(store), p, x);
  }
}
