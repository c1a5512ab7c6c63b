/** The exporter's fixpoint filters, their composition, and their agreement with the other walks. */
module ExportFilters {
  import opened Common
  import opened LineageGraph
  import opened LineageRecords
  import opened LineageFields
  import opened MaterialLineage

  datatype ExportError = MissingId

  /** What the records with a given id cite; a list may hold several. */
  ghost function CitedUnder(events: seq<Record>, x: Ref): set<Ref> {
    set e, y | e in events && e.id == x && y in ExportReferences(e) :: y
  }

  ghost function StoredIds(events: seq<Record>): set<Ref> {
    set e | e in events :: e.id
  }

  ghost function ListGraph(events: seq<Record>): Graph {
    map x | x in StoredIds(events) :: CitedUnder(events, x)
  }

  function Seeds(events: seq<Record>, isSeed: Record -> bool): set<Ref> {
    set e | e in events && isSeed(e) :: e.id
  }

  /** The ids a filter drops: those of its seeds and of whatever cites them transitively. */
  ghost function Dropped(events: seq<Record>, isSeed: Record -> bool): set<Ref> {
    Lineage(ListGraph(events), Seeds(events, isSeed))
  }

  // ------------------------------------------------------------------ the fixpoint

  /** An event as the loop reads it: its id and what `_source_event_ids` returns. */
  datatype Citing = Citing(id: Ref, cites: set<Ref>)

  function Reading(e: Record): Citing {
    Citing(e.id, set y | y in ExportReferences(e))
  }

  function Readings(events: seq<Record>): seq<Citing> {
    seq(|events|, i requires 0 <= i < |events| => Reading(events[i]))
  }

  /** The event does not cite into `ids` from outside. */
  predicate Settled(c: Citing, ids: set<Ref>) {
    c.cites * ids == {} || c.id in ids
  }

  /** None of the first `n` events would still join. */
  ghost predicate SettledUpTo(list: seq<Citing>, n: nat, ids: set<Ref>)
    requires n <= |list|
  {
    forall i {:trigger Settled(list[i], ids)} :: 0 <= i < n ==> Settled(list[i], ids)
  }

  lemma SettledIsClosed(events: seq<Record>, ids: set<Ref>)
    requires SettledUpTo(Readings(events), |events|, ids)
    ensures ClosedUnderCiting(ListGraph(events), ids)
  {
    var g := ListGraph(events);
    forall x | CitesInto(g, x, ids) ensures x in ids {
      var y :| y in ids && Cites(g, x, y);
      var e :| e in events && e.id == x && y in ExportReferences(e);
      var i :| 0 <= i < |events| && events[i] == e;
      assert Settled(Readings(events)[i], ids);
      assert y in Reading(e).cites * ids;
    }
  }

  /** No event outside the lineage cites into it. */
  lemma DroppedIsSettled(events: seq<Record>, isSeed: Record -> bool)
    ensures SettledUpTo(Readings(events), |events|, Dropped(events, isSeed))
  {
    var ids := Dropped(events, isSeed);
    forall i | 0 <= i < |events| ensures Settled(Readings(events)[i], ids) {
      var e := events[i];
      if Reading(e).cites * ids != {} {
        var y := SomeMember(Reading(e).cites * ids);
        CitingIsDropped(events, isSeed, e, y);
      }
    }
  }

  lemma CitingIsDropped(events: seq<Record>, isSeed: Record -> bool, e: Record, y: Ref)
    requires e in events && y in ExportReferences(e) && y in Dropped(events, isSeed)
    ensures e.id in Dropped(events, isSeed)
  {
    var g := ListGraph(events);
    assert e.id in StoredIds(events) && y in CitedUnder(events, e.id);
    assert Cites(g, e.id, y);
    CiterReaches(g, Seeds(events, isSeed), e.id, y);
  }

  lemma SeedsAreDropped(events: seq<Record>, isSeed: Record -> bool)
    ensures Seeds(events, isSeed) <= Dropped(events, isSeed)
    ensures Dropped(events, isSeed) <= StoredIds(events)
  {
    LineageIsLeast(ListGraph(events), Seeds(events, isSeed));
    forall x | x in Seeds(events, isSeed) ensures x in ListGraph(events) {
      var e :| e in events && isSeed(e) && e.id == x;
    }
  }

  /** One pass of the loop: every event that cites one of `ids` joins. `all` is any settled set. */
  method Pass(list: seq<Citing>, ids: set<Ref>, ghost all: set<Ref>) returns (more: set<Ref>, changed: bool)
    requires ids <= all && SettledUpTo(list, |list|, all)
    ensures ids <= more <= all
    ensures changed <==> ids != more
    ensures !changed ==> SettledUpTo(list, |list|, ids)
  {
    more, changed := ids, false;
    for i := 0 to |list|
      invariant ids <= more <= all
      invariant changed <==> ids != more
      invariant !changed ==> SettledUpTo(list, i, ids)
    {
      if list[i].id !in more && list[i].cites * more != {} {
        assert Settled(list[i], all);
        more := more + {list[i].id};
        changed := true;
      }
    }
  }

  /** The loop shared by both filters: repeat passes until nothing changes. */
  method Closure(events: seq<Record>, isSeed: Record -> bool) returns (ids: set<Ref>)
    ensures ids == Dropped(events, isSeed)
  {
    ids := Seeds(events, isSeed);
    ghost var all := Dropped(events, isSeed);
    SeedsAreDropped(events, isSeed);
    DroppedIsSettled(events, isSeed);
    var list := Readings(events);
    var changed := true;
    while changed
      invariant Seeds(events, isSeed) <= ids <= all
      invariant !changed ==> SettledUpTo(list, |list|, ids)
      decreases all - ids, changed
    {
      ids, changed := Pass(list, ids, all);
    }
    SettledIsClosed(events, ids);
    ClosedSoundSetIsLineage(ListGraph(events), Seeds(events, isSeed), ids);
  }

  function Without(events: seq<Record>, gone: set<Ref>): seq<Record> {
    if events == [] then []
    else
      var last := events[|events| - 1];
      Without(events[..|events| - 1], gone) + if last.id in gone then [] else [last]
  }

  lemma {:induction false} WithoutMembers(events: seq<Record>, gone: set<Ref>, e: Record)
    ensures e in Without(events, gone) <==> e in events && e.id !in gone
  {
    if events != [] {
      WithoutMembers(events[..|events| - 1], gone, e);
      assert events == events[..|events| - 1] + [events[|events| - 1]];
    }
  }

  predicate SyntheticSeed(e: Record) {
    IsSyntheticFixture(e) || IsUnlabelledOracleOutput(e)
  }

  predicate AllHaveIds(events: seq<Record>) {
    forall i :: 0 <= i < |events| ==> events[i].id != ""
  }

  /** `_without_synthetic_lineage`. */
  method WithoutSyntheticLineage(events: seq<Record>) returns (r: Result<seq<Record>, ExportError>)
    ensures r == if AllHaveIds(events) then Ok(Without(events, Dropped(events, SyntheticSeed))) else Err(MissingId)
  {
    if !AllHaveIds(events) { return Err(MissingId); }
    var ids := Closure(events, SyntheticSeed);
    r := Ok(Without(events, ids));
  }

  /** `_without_worker_lineage`. */
  method WithoutWorkerLineage(events: seq<Record>) returns (r: Result<seq<Record>, ExportError>)
    ensures r == if AllHaveIds(events) then Ok(Without(events, Dropped(events, IsWorkerArtifact))) else Err(MissingId)
  {
    if !AllHaveIds(events) { return Err(MissingId); }
    var ids := Closure(events, IsWorkerArtifact);
    r := Ok(Without(events, ids));
  }

  // -------------------------------------------------------------------- composition

  /** Filtering restricts the graph to the survivors. */
  lemma SurvivorGraph(events: seq<Record>, gone: set<Ref>)
    ensures ListGraph(Without(events, gone)) == Restrict(ListGraph(events), gone)
  {
    var kept := Without(events, gone);
    forall e ensures e in kept <==> e in events && e.id !in gone { WithoutMembers(events, gone, e); }
    forall x ensures x in StoredIds(kept) <==> x in StoredIds(events) && x !in gone {
      if x in StoredIds(events) && x !in gone {
        var e :| e in events && e.id == x;
        assert e in kept;
      }
    }
    forall x | x in StoredIds(kept) ensures CitedUnder(kept, x) == CitedUnder(events, x) {
      assert x !in gone;
    }
  }

  lemma SurvivorSeeds(events: seq<Record>, isSeed: Record -> bool, gone: set<Ref>, x: Ref)
    requires x !in gone
    ensures x in Seeds(Without(events, gone), isSeed) <==> x in Seeds(events, isSeed)
  {
    if x in Seeds(events, isSeed) {
      var e :| e in events && isSeed(e) && e.id == x;
      WithoutMembers(events, gone, e);
    }
    if x in Seeds(Without(events, gone), isSeed) {
      var e :| e in Without(events, gone) && isSeed(e) && e.id == x;
      WithoutMembers(events, gone, e);
    }
  }

  /** What the second filter drops of the first one's survivors. */
  lemma DroppedOfSurvivors(events: seq<Record>, first: Record -> bool, second: Record -> bool, x: Ref)
    ensures x in Dropped(Without(events, Dropped(events, first)), second) <==>
            x in Dropped(events, second) && x !in Dropped(events, first)
  {
    var gone := Dropped(events, first);
    var kept := Restrict(ListGraph(events), gone);
    SurvivorGraph(events, gone);
    forall y | y in kept
      ensures y in Seeds(Without(events, gone), second) <==> y in Seeds(events, second)
    {
      SurvivorSeeds(events, second, gone, y);
    }
    SameSeedsSameLineage(kept, Seeds(Without(events, gone), second), Seeds(events, second));
    LineageWithinSurvivors(ListGraph(events), Seeds(events, first), Seeds(events, second), x);
  }

  lemma WithoutSnoc(events: seq<Record>, e: Record, gone: set<Ref>)
    ensures Without(events + [e], gone) == Without(events, gone) + if e.id in gone then [] else [e]
  {
    assert (events + [e])[..|events|] == events;
  }

  lemma {:induction false} WithoutTwice(events: seq<Record>, one: set<Ref>, two: set<Ref>, both: set<Ref>)
    requires forall x :: x in both <==> x in one || x in two
    ensures Without(Without(events, one), two) == Without(events, both)
  {
    if events != [] {
      var earlier, e := events[..|events| - 1], events[|events| - 1];
      assert events == earlier + [e];
      WithoutTwice(earlier, one, two, both);
      WithoutSnoc(earlier, e, one);
      WithoutSnoc(earlier, e, both);
      if e.id in one {
        assert Without(earlier, one) + [] == Without(earlier, one);
      } else {
        WithoutSnoc(Without(earlier, one), e, two);
      }
    }
  }

  /** Filtering twice removes exactly the union of the two lineages computed on the full list. */
  lemma CompositionIsUnion(events: seq<Record>, first: Record -> bool, second: Record -> bool)
    ensures var survivors := Without(events, Dropped(events, first));
            Without(survivors, Dropped(survivors, second))
            == Without(events, Dropped(events, first) + Dropped(events, second))
  {
    var survivors := Without(events, Dropped(events, first));
    forall x
      ensures x in Dropped(survivors, second) <==> x in Dropped(events, second) && x !in Dropped(events, first)
    {
      DroppedOfSurvivors(events, first, second, x);
    }
    WithoutTwice(events, Dropped(events, first), Dropped(survivors, second),
                 Dropped(events, first) + Dropped(events, second));
  }

  lemma FiltersCommute(events: seq<Record>, first: Record -> bool, second: Record -> bool)
    ensures var a, b := Without(events, Dropped(events, first)), Without(events, Dropped(events, second));
            Without(a, Dropped(a, second)) == Without(b, Dropped(b, first))
  {
    CompositionIsUnion(events, first, second);
    CompositionIsUnion(events, second, first);
    assert Dropped(events, first) + Dropped(events, second) == Dropped(events, second) + Dropped(events, first);
  }

  /** `_without_worker_lineage(_without_synthetic_lineage(events))`: no survivor is or cites, even
      through events that were dropped, a synthetic, unlabelled or worker seed. */
  method SelectedEvents(events: seq<Record>) returns (r: Result<seq<Record>, ExportError>)
    ensures r.Ok? <==> AllHaveIds(events)
    ensures r.Err? <==> exists e :: e in events && e.id == ""
    ensures r.Ok? ==> r.value == Without(events, Dropped(events, SyntheticSeed) + Dropped(events, IsWorkerArtifact))
    ensures r.Ok? ==> forall e :: e in r.value <==>
              e in events && !Reaches(ListGraph(events), Seeds(events, SyntheticSeed), e.id)
              && !Reaches(ListGraph(events), Seeds(events, IsWorkerArtifact), e.id)
    ensures r.Ok? ==> forall e :: e in r.value <==> e in events && !LeadsTo(ListRecords(events), Tainted, e.id)
  {
    var genuine := WithoutSyntheticLineage(events);
    assert AllHaveIds(events) <==> forall e :: e in events ==> e.id != "";
    if genuine.Err? { return genuine; }
    SurvivorsHaveIds(events, Dropped(events, SyntheticSeed));
    r := WithoutWorkerLineage(genuine.value);
    CompositionIsUnion(events, SyntheticSeed, IsWorkerArtifact);
    forall e
      ensures e in r.value <==> e in events && !Reaches(ListGraph(events), Seeds(events, SyntheticSeed), e.id)
                                && !Reaches(ListGraph(events), Seeds(events, IsWorkerArtifact), e.id)
    {
      Survives(events, SyntheticSeed, IsWorkerArtifact, e);
    }
    forall x
      ensures LeadsTo(ListRecords(events), Tainted, x)
              <==> Reaches(ListGraph(events), Seeds(events, SyntheticSeed), x)
                   || Reaches(ListGraph(events), Seeds(events, IsWorkerArtifact), x)
    {
      DroppedLeads(events, x);
    }
  }

  // ------------------------------------------------------------------- on the fields

  ghost function ListRecords(events: seq<Record>): set<Record> {
    set e | e in events
  }

  predicate TaintedByFixture(e: Record) {
    LabelledSynthetic(e) || Unlabelled(e)
  }

  /** What must not be exported. */
  predicate Tainted(e: Record) {
    TaintedByFixture(e) || WorkerMade(e)
  }

  lemma ListDraws(events: seq<Record>)
    requires AllHaveIds(events)
    ensures Draws(ListGraph(events), ListRecords(events))
  {
    var g := ListGraph(events);
    forall x, y | Cites(g, x, y) ensures exists e :: e in ListRecords(events) && e.id == x && Mentions(e, y) {
      var e :| e in events && e.id == x && y in ExportReferences(e);
      CitedAre(e, y);
    }
    forall e, y | e in ListRecords(events) && Mentions(e, y) && y in g && y != e.id ensures Cites(g, e.id, y) {
      var d :| d in events && d.id == y;
      var i :| 0 <= i < |events| && events[i] == d;
      CitedAre(e, y);
      assert y in CitedUnder(events, e.id);
    }
  }

  lemma SeedsMark(events: seq<Record>, isSeed: Record -> bool, p: Record -> bool)
    requires forall e :: isSeed(e) <==> p(e)
    ensures Marks(Seeds(events, isSeed), ListRecords(events), p)
  {
    forall x ensures x in Seeds(events, isSeed) <==> exists e :: e in ListRecords(events) && e.id == x && p(e) {
      if e :| e in ListRecords(events) && e.id == x && p(e) { assert e in events && isSeed(e); }
    }
  }

  /** Whoever is led to a tainted record is led to one of either kind. */
  lemma EitherTaint(events: set<Record>, x: Ref)
    ensures LeadsTo(events, Tainted, x) <==> LeadsTo(events, TaintedByFixture, x) || LeadsTo(events, WorkerMade, x)
  {
    if LeadsTo(events, Tainted, x) {
      var walk: seq<Record> :| Leads(events, walk) && walk[0].id == x && Tainted(walk[|walk| - 1]);
      assert TaintedByFixture(walk[|walk| - 1]) || WorkerMade(walk[|walk| - 1]);
    }
    if LeadsTo(events, TaintedByFixture, x) {
      var walk: seq<Record> :| Leads(events, walk) && walk[0].id == x && TaintedByFixture(walk[|walk| - 1]);
      assert Tainted(walk[|walk| - 1]);
    }
    if LeadsTo(events, WorkerMade, x) {
      var walk: seq<Record> :| Leads(events, walk) && walk[0].id == x && WorkerMade(walk[|walk| - 1]);
      assert Tainted(walk[|walk| - 1]);
    }
  }

  lemma DroppedLeads(events: seq<Record>, x: Ref)
    requires AllHaveIds(events)
    ensures LeadsTo(ListRecords(events), Tainted, x)
            <==> Reaches(ListGraph(events), Seeds(events, SyntheticSeed), x)
                 || Reaches(ListGraph(events), Seeds(events, IsWorkerArtifact), x)
  {
    var g, all := ListGraph(events), ListRecords(events);
    ListDraws(events);
    forall e ensures (SyntheticSeed(e) <==> TaintedByFixture(e)) && (IsWorkerArtifact(e) <==> WorkerMade(e)) { MarkersAre(e); }
    SeedsMark(events, SyntheticSeed, TaintedByFixture);
    SeedsMark(events, IsWorkerArtifact, WorkerMade);
    ReachesIsLeadsTo(g, Seeds(events, SyntheticSeed), all, TaintedByFixture, x);
    ReachesIsLeadsTo(g, Seeds(events, IsWorkerArtifact), all, WorkerMade, x);
    EitherTaint(all, x);
  }

  lemma SurvivorsHaveIds(events: seq<Record>, gone: set<Ref>)
    requires AllHaveIds(events)
    ensures AllHaveIds(Without(events, gone))
  {
    var kept := Without(events, gone);
    forall i | 0 <= i < |kept| ensures kept[i].id != "" {
      assert kept[i] in kept;
      WithoutMembers(events, gone, kept[i]);
    }
  }

  lemma Survives(events: seq<Record>, first: Record -> bool, second: Record -> bool, e: Record)
    ensures e in Without(events, Dropped(events, first) + Dropped(events, second)) <==>
            e in events && !Reaches(ListGraph(events), Seeds(events, first), e.id)
            && !Reaches(ListGraph(events), Seeds(events, second), e.id)
  {
    WithoutMembers(events, Dropped(events, first) + Dropped(events, second), e);
    if e in events { assert e.id in StoredIds(events); }
  }

  // ---------------------------------------------------------------------- agreement

  /** The list holds exactly the store's events, each under its own id. */
  ghost predicate Lists(events: seq<Record>, store: Store) {
    && Keyed(store)
    && (forall e :: e in events ==> e.id in store && store[e.id] == e)
    && (forall x :: x in store ==> store[x] in events)
  }

  lemma ListGraphIsCitations(events: seq<Record>, store: Store)
    requires Lists(events, store)
    ensures SameButDangling(ListGraph(events), Citations(store))
  {
    var g, h := ListGraph(events), Citations(store);
    forall x ensures x in StoredIds(events) <==> x in store {
      if x in store { assert store[x] in events; }
    }
    forall x, y | x in g && y in g && x != y ensures Cites(g, x, y) <==> Cites(h, x, y) {
      ReferencesAgree(store[x], y);
      assert store[x] in events;
      assert y in CitedUnder(events, x) <==> y in ExportReferences(store[x]);
    }
  }

  /** The exporter's fixpoint and the two walks decide the same thing of each stored event. */
  lemma WalksAgree(events: seq<Record>, store: Store, e: Record)
    requires Lists(events, store) && e in events
    ensures Known(store, e) == store
    ensures e.id in Dropped(events, IsWorkerArtifact) <==> HasWorkerLineage(store, e.id)
  {
    ListGraphIsCitations(events, store);
    forall x | x in ListGraph(events)
      ensures x in Seeds(events, IsWorkerArtifact) <==> x in WorkerArtifacts(store)
    {
      assert store[x] in events && store[x].id == x;
    }
    SameSeedsSameLineage(ListGraph(events), Seeds(events, IsWorkerArtifact), WorkerArtifacts(store));
    SameLineage(ListGraph(events), Citations(store), WorkerArtifacts(store));
    assert e.id in StoredIds(events);
  }
}
