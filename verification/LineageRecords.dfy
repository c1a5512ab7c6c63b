/** Exported events as the lineage filters read them: labels, markers and cited references. */
module LineageRecords {
  import opened Common
  import opened LineageGraph

  datatype ActorKind = Human | Model | Host | System | Tool | Worker

  /** The labels a payload or a metadata mapping may carry. */
  datatype Labels = Labels(materialOrigin: Option<string>, syntheticFixture: bool, historicalFixture: bool,
                           artifactOrigin: Option<string>)

  datatype Record = Record(
    id: Ref,
    kind: string,
    actor: ActorKind,
    causation: Option<Ref>,
    parent: Option<Ref>,
    source: Option<Ref>,
    target: Option<Ref>,
    event: Option<Ref>,
    verificationSource: Option<Ref>,
    approver: Option<Ref>,
    sources: seq<Ref>,
    payload: Labels,
    metadata: Labels)

  datatype MaterialOrigin = OracleGenerated | HistoricalFixture | SyntheticFixture | Unknown

  // ----------------------------------------------------------------------- markers

  predicate IsWorkerArtifact(e: Record) {
    || "worker." <= e.kind
    || e.actor == Worker
    || e.payload.artifactOrigin == Some("worker_generated")
    || e.metadata.artifactOrigin == Some("worker_generated")
  }

  /** Any label says so: the marker of the export filter and of the projections. */
  predicate IsSyntheticFixture(e: Record) {
    || e.metadata.syntheticFixture || e.payload.syntheticFixture
    || e.metadata.materialOrigin == Some("synthetic_fixture")
    || e.payload.materialOrigin == Some("synthetic_fixture")
  }

  function Truthy(o: Option<string>): bool {
    o.Some? && o.value != ""
  }

  predicate IsUnlabelledOracleOutput(e: Record) {
    var origin := if Truthy(e.payload.materialOrigin) then e.payload.materialOrigin else e.metadata.materialOrigin;
    e.kind == "oracle.output"
    && origin != Some("oracle_generated") && origin != Some("historical_fixture") && origin != Some("synthetic_fixture")
  }

  function OriginNamed(name: string): MaterialOrigin {
    if name == "oracle_generated" then OracleGenerated
    else if name == "historical_fixture" then HistoricalFixture
    else if name == "synthetic_fixture" then SyntheticFixture
    else Unknown
  }

  function OriginOf(labels: Labels): Option<MaterialOrigin> {
    if labels.materialOrigin.Some? then Some(OriginNamed(labels.materialOrigin.value))
    else if labels.syntheticFixture then Some(SyntheticFixture)
    else if labels.historicalFixture then Some(HistoricalFixture)
    else None
  }

  /** The first label found decides: `explicit_material_origin`. */
  function ExplicitOrigin(e: Record): MaterialOrigin {
    if OriginOf(e.payload).Some? then OriginOf(e.payload).value
    else if OriginOf(e.metadata).Some? then OriginOf(e.metadata).value
    else Unknown
  }

  /** An earlier label of another kind hides a synthetic one. */
  predicate HidesSynthetic(e: Record) {
    if e.payload.materialOrigin.Some? && e.payload.materialOrigin != Some("synthetic_fixture") then
      IsSyntheticFixture(e)
    else if OriginOf(e.payload) == Some(HistoricalFixture) then
      e.metadata.syntheticFixture || e.metadata.materialOrigin == Some("synthetic_fixture")
    else
      OriginOf(e.payload).None? && e.metadata.syntheticFixture
      && e.metadata.materialOrigin.Some? && e.metadata.materialOrigin != Some("synthetic_fixture")
  }

  /** The two readings of the labels agree on an event unless an earlier label hides a synthetic one. */
  lemma LabelReadingsAgreeIff(e: Record)
    ensures (ExplicitOrigin(e) == SyntheticFixture <==> IsSyntheticFixture(e)) <==> !HidesSynthetic(e)
    ensures ExplicitOrigin(e) == SyntheticFixture ==> IsSyntheticFixture(e)
  {
  }

  // -------------------------------------------------------------------- references

  function Present(o: Option<Ref>): seq<Ref> {
    if o.Some? then [o.value] else []
  }

  function PayloadReferences(e: Record): seq<Ref> {
    Present(e.source) + Present(e.target) + Present(e.event) + Present(e.verificationSource) + Present(e.approver)
    + e.sources
  }

  /** `_lineage_references` of the projections. */
  function RowReferences(e: Record): seq<Ref> {
    Present(e.parent) + Present(e.causation) + PayloadReferences(e)
  }

  function Except(ids: seq<Ref>, dropped: set<Ref>): (r: seq<Ref>)
    ensures forall x :: x in r <==> x in ids && x !in dropped
  {
    if ids == [] then []
    else
      assert ids == ids[..|ids| - 1] + [ids[|ids| - 1]];
      Except(ids[..|ids| - 1], dropped) + if ids[|ids| - 1] in dropped then [] else [ids[|ids| - 1]]
  }

  /** `source_event_ids` of the material module: not the event itself, each once. */
  function MaterialReferences(e: Record): seq<Ref> {
    Dedup(Except(Present(e.causation) + Present(e.parent) + PayloadReferences(e), {e.id}))
  }

  /** `_source_event_ids` of the exporter: neither the event itself nor an empty string. */
  function ExportReferences(e: Record): seq<Ref> {
    Dedup(Except(Present(e.causation) + Present(e.parent) + PayloadReferences(e), {e.id, ""}))
  }

  /** Whatever a record cites, as the projections read it. */
  function Cited(e: Record): set<Ref> {
    set x | x in RowReferences(e)
  }

  lemma ReferencesAgree(e: Record, x: Ref)
    ensures x in MaterialReferences(e) <==> x in Cited(e) && x != e.id
    ensures x in ExportReferences(e) <==> x in Cited(e) && x != e.id && x != ""
  {
    var all := Present(e.causation) + Present(e.parent) + PayloadReferences(e);
    DedupMembers(Except(all, {e.id}), x);
    DedupMembers(Except(all, {e.id, ""}), x);
    assert x in all <==> x in RowReferences(e);
  }

  // ------------------------------------------------------------------------ stores

  /** Events by id, as a getter or the event table answers. */
  type Store = map<Ref, Record>

  ghost predicate Keyed(store: Store) {
    "" !in store && forall x :: x in store ==> store[x].id == x
  }

  ghost function Citations(store: Store): Graph {
    map x | x in store :: Cited(store[x])
  }

  ghost function WorkerArtifacts(store: Store): set<Ref> {
    set x | x in store && IsWorkerArtifact(store[x])
  }

  ghost function WithOrigin(store: Store, origin: MaterialOrigin): set<Ref> {
    set x | x in store && ExplicitOrigin(store[x]) == origin
  }

  ghost function SyntheticFixtures(store: Store): set<Ref> {
    set x | x in store && IsSyntheticFixture(store[x])
  }

  /** The event is a worker artifact or cites one, directly or through known events. */
  ghost predicate HasWorkerLineage(store: Store, x: Ref) {
    Reaches(Citations(store), WorkerArtifacts(store), x)
  }

  ghost predicate HasSyntheticLineage(store: Store, x: Ref) {
    Reaches(Citations(store), SyntheticFixtures(store), x)
  }

  /** The event or something it cites is labelled synthetic by its first label. */
  ghost predicate HasExplicitSynthetic(store: Store, x: Ref) {
    Reaches(Citations(store), WithOrigin(store, SyntheticFixture), x)
  }

  /** The two synthetic tests agree on a whole store exactly when each event that hides a synthetic
      label also cites, somewhere, one that shows it. */
  lemma SyntheticTestsAgreeIff(store: Store)
    ensures (forall x :: x in store ==> (HasSyntheticLineage(store, x) <==> HasExplicitSynthetic(store, x)))
            <==> (forall x :: x in store && HidesSynthetic(store[x]) ==> HasExplicitSynthetic(store, x))
  {
    var g := Citations(store);
    var any, first := SyntheticFixtures(store), WithOrigin(store, SyntheticFixture);
    forall x | x in store
      ensures x in first ==> x in any
      ensures HidesSynthetic(store[x]) <==> x in any && x !in first
    {
      LabelReadingsAgreeIff(store[x]);
    }
    MoreSeedsAgreeIff(g, any, first);
    SameLineageSameTests(store, any, first);
  }

  lemma SameLineageSameTests(store: Store, any: set<Ref>, first: set<Ref>)
    ensures var g := Citations(store);
            Lineage(g, any) == Lineage(g, first)
            <==> forall x :: x in store ==> (Reaches(g, any, x) <==> Reaches(g, first, x))
  {
    var g := Citations(store);
    forall x | x in store
      ensures (x in Lineage(g, any) <==> Reaches(g, any, x)) && (x in Lineage(g, first) <==> Reaches(g, first, x))
    {
    }
  }

  /** Labelled as oracle output in its payload and as a fixture in its metadata. */
  function TwiceLabelled(): Record {
    var none := Labels(None, false, false, None);
    Record("evt_a", "oracle.output", Model, None, None, None, None, None, None, None, [],
           none.(materialOrigin := Some("oracle_generated")), none.(syntheticFixture := true))
  }

  /** So the exporter and the projections call this event synthetic and the material module does not. */
  lemma TwiceLabelledSplitsTheTests()
    ensures HasSyntheticLineage(map["evt_a" := TwiceLabelled()], "evt_a")
    ensures !HasExplicitSynthetic(map["evt_a" := TwiceLabelled()], "evt_a")
  {
    var store := map["evt_a" := TwiceLabelled()];
    SeedReaches(Citations(store), SyntheticFixtures(store), "evt_a");
    ClosedAvoids(Citations(store), WithOrigin(store, SyntheticFixture), {"evt_a"}, "evt_a");
  }
}
