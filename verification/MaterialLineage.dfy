/** The breadth-first walks of the material module. */
module MaterialLineage {
  import opened Common
  import opened LineageGraph
  import opened LineageRecords
  import opened LineageFields

  datatype LineageError = SafetyLimit

  /** What the walk has queued. */
  ghost predicate Queued(queue: seq<Record>, x: Ref) {
    exists i :: 0 <= i < |queue| && queue[i].id == x
  }

  ghost predicate FromKnown(known: Store, queue: seq<Record>) {
    forall i :: 0 <= i < |queue| ==> queue[i].id in known && known[queue[i].id] == queue[i]
  }

  /** The state of the walk from `start`: what it saw, queued or is about to look up is reached from
      `start`, and each known event cited by one it saw is among these. */
  ghost predicate Exploring(known: Store, start: Ref, seen: set<Ref>, queue: seq<Record>, pending: seq<Ref>) {
    && seen <= known.Keys && FromKnown(known, queue)
    && (start in seen || Queued(queue, start))
    && (forall x {:trigger Linked(Citations(known), start, x)} :: x in seen ==> Linked(Citations(known), start, x))
    && (forall i {:trigger Linked(Citations(known), start, queue[i].id)} :: 0 <= i < |queue| ==> Linked(Citations(known), start, queue[i].id))
    && (forall x {:trigger Linked(Citations(known), start, x)} :: x in pending && x in known ==> Linked(Citations(known), start, x))
    && (forall x, y {:trigger Cites(Citations(known), x, y)} :: x in seen && Cites(Citations(known), x, y) && y in known
                       ==> y in seen || Queued(queue, y) || y in pending)
  }

  lemma ExploringStarts(known: Store, e: Record)
    requires e.id in known && known[e.id] == e
    ensures Exploring(known, e.id, {}, [e], [])
  {
    SeedReaches(Citations(known), {e.id}, e.id);
    assert [e][0].id == e.id;
  }

  /** Nothing is queued: what was seen is closed under citations. */
  lemma ExploringEnds(known: Store, start: Ref, seen: set<Ref>)
    requires Exploring(known, start, seen, [], [])
    ensures start in seen && ClosedUnderCited(Citations(known), seen)
  {
  }

  lemma QueuedTail(queue: seq<Record>, y: Ref)
    requires queue != []
    ensures Queued(queue, y) <==> queue[0].id == y || Queued(queue[1..], y)
  {
    assert forall i :: 0 <= i < |queue| - 1 ==> queue[1..][i] == queue[i + 1];
    if queue[0].id != y && Queued(queue, y) {
      var i :| 0 <= i < |queue| && queue[i].id == y;
      assert queue[1..][i - 1].id == y;
    }
  }

  lemma QueuedSnoc(queue: seq<Record>, e: Record, y: Ref)
    ensures Queued(queue + [e], y) <==> Queued(queue, y) || e.id == y
  {
    assert (queue + [e])[|queue|] == e;
    assert forall i :: 0 <= i < |queue| ==> (queue + [e])[i] == queue[i];
  }

  lemma SkipSeen(known: Store, start: Ref, seen: set<Ref>, queue: seq<Record>)
    requires Exploring(known, start, seen, queue, []) && queue != [] && queue[0].id in seen
    ensures Exploring(known, start, seen, queue[1..], [])
  {
    forall y ensures Queued(queue, y) <==> queue[0].id == y || Queued(queue[1..], y) { QueuedTail(queue, y); }
  }

  lemma CitedAreLinked(g: Graph, start: Ref, x: Ref, cited: seq<Ref>)
    requires Linked(g, start, x) && forall y :: y in cited ==> Cites(g, x, y)
    ensures forall y {:trigger Linked(g, start, y)} :: y in cited && y in g ==> Linked(g, start, y)
  {
    forall y | y in cited && y in g ensures Linked(g, start, y) { LinkOn(g, start, x, y); }
  }

  /** The head of the queue is seen; `cited` is left to look up. */
  lemma Visit(known: Store, start: Ref, seen: set<Ref>, queue: seq<Record>, cited: seq<Ref>)
    requires Exploring(known, start, seen, queue, []) && queue != []
    requires forall y :: y in cited <==> Cites(Citations(known), queue[0].id, y) && y != queue[0].id
    ensures queue[0].id in known && Linked(Citations(known), start, queue[0].id)
    ensures Exploring(known, start, seen + {queue[0].id}, queue[1..], cited)
  {
    var current := queue[0];
    forall y ensures Queued(queue, y) <==> current.id == y || Queued(queue[1..], y) { QueuedTail(queue, y); }
    CitedAreLinked(Citations(known), start, current.id, cited);
  }

  lemma ReferencesCite(known: Store, e: Record, y: Ref)
    requires e.id in known && known[e.id] == e
    ensures y in MaterialReferences(e) <==> Cites(Citations(known), e.id, y) && y != e.id
  {
    ReferencesAgree(e, y);
  }

  lemma Enqueue(known: Store, start: Ref, seen: set<Ref>, queue: seq<Record>, pending: seq<Ref>)
    requires Exploring(known, start, seen, queue, pending) && pending != [] && pending[0] in known
    requires known[pending[0]].id == pending[0]
    ensures Exploring(known, start, seen, queue + [known[pending[0]]], pending[1..])
  {
    var e := known[pending[0]];
    forall y ensures Queued(queue + [e], y) <==> Queued(queue, y) || e.id == y { QueuedSnoc(queue, e, y); }
    assert forall x :: x in pending ==> x == pending[0] || x in pending[1..];
    assert forall x :: x in pending[1..] ==> x in pending;
  }

  lemma PassOver(known: Store, start: Ref, seen: set<Ref>, queue: seq<Record>, pending: seq<Ref>)
    requires Exploring(known, start, seen, queue, pending) && pending != []
    requires pending[0] !in known || pending[0] in seen
    ensures Exploring(known, start, seen, queue, pending[1..])
  {
    assert forall x :: x in pending ==> x == pending[0] || x in pending[1..];
    assert forall x :: x in pending[1..] ==> x in pending;
  }

  // ------------------------------------------------------------------------ the walks

  /** What the walk from `event` can look at: the event itself and whatever the getter finds. */
  ghost function Known(getter: Store, event: Record): Store {
    getter[event.id := event]
  }

  ghost predicate Walking(getter: Store, event: Record, seen: set<Ref>, queue: seq<Record>) {
    && Exploring(Known(getter, event), event.id, seen, queue, [])
    && (event.id in seen || (queue != [] && queue[0] == event))
  }

  /** The event and the known events it cites, directly or through others. */
  ghost function Reached(getter: Store, event: Record): set<Ref> {
    ReachedFrom(Citations(Known(getter, event)), event.id)
  }

  /** What has been found so far is part of what can be reached. */
  lemma Found(getter: Store, event: Record, seen: set<Ref>, queue: seq<Record>)
    requires Walking(getter, event, seen, queue) && queue != []
    ensures queue[0].id in Known(getter, event) && Known(getter, event)[queue[0].id] == queue[0]
    ensures Linked(Citations(Known(getter, event)), event.id, queue[0].id)
    ensures seen + {queue[0].id} <= Reached(getter, event) <= Known(getter, event).Keys
    ensures |seen + {queue[0].id}| <= |Reached(getter, event)|
  {
    SubsetSize(seen + {queue[0].id}, Reached(getter, event));
  }

  /** A walk that ends has found everything. */
  lemma FoundAll(getter: Store, event: Record, seen: set<Ref>)
    requires Walking(getter, event, seen, [])
    ensures seen == Reached(getter, event)
  {
    var g := Citations(Known(getter, event));
    ExploringEnds(Known(getter, event), event.id, seen);
    forall x | x in seen ensures x in ReachedFrom(g, event.id) { assert Linked(g, event.id, x); }
    forall x | x in ReachedFrom(g, event.id) ensures x in seen { ClosedReachesAll(g, event.id, seen, x); }
  }

  lemma Skip(getter: Store, event: Record, seen: set<Ref>, queue: seq<Record>)
    requires Walking(getter, event, seen, queue) && queue != [] && queue[0].id in seen
    ensures Walking(getter, event, seen, queue[1..])
  {
    SkipSeen(Known(getter, event), event.id, seen, queue);
  }

  /** Look up each event that the head of the queue cites, and queue those not seen. */
  method Expand(event: Record, getter: Store, seen: set<Ref>, queue: seq<Record>) returns (longer: seq<Record>)
    requires Keyed(getter) && Walking(getter, event, seen, queue) && queue != []
    ensures Walking(getter, event, seen + {queue[0].id}, longer)
  {
    ghost var known := Known(getter, event);
    var current := queue[0];
    var nowSeen := seen + {current.id};
    var references := MaterialReferences(current);
    forall y ensures y in references <==> Cites(Citations(known), current.id, y) && y != current.id {
      ReferencesCite(known, current, y);
    }
    Visit(known, event.id, seen, queue, references);
    longer := queue[1..];
    for i := 0 to |references|
      invariant Exploring(known, event.id, nowSeen, longer, references[i..])
    {
      assert references[i..][1..] == references[i + 1..];
      if references[i] in getter && getter[references[i]].id !in nowSeen {
        Enqueue(known, event.id, nowSeen, longer, references[i..]);
        longer := longer + [getter[references[i]]];
      } else {
        PassOver(known, event.id, nowSeen, longer, references[i..]);
      }
    }
  }

  /** `is_worker_lineage`. */
  method IsWorkerLineage(event: Record, getter: Store, maxEvents: nat) returns (r: Result<bool, LineageError>)
    requires Keyed(getter)
    ensures r.Ok? ==> (r.value <==> HasWorkerLineage(Known(getter, event), event.id))
    ensures r.Ok? ==> (r.value <==> LeadsTo(StoreRecords(Known(getter, event)), WorkerMade, event.id))
    ensures r.Err? ==> |Reached(getter, event)| > maxEvents
    ensures r.Ok? && !r.value ==> |Reached(getter, event)| <= maxEvents
  {
    var queue := [event];
    var seen: set<Ref> := {};
    ExploringStarts(Known(getter, event), event);
    WorkerLineageIs(Known(getter, event), event.id);
    while queue != []
      invariant Walking(getter, event, seen, queue)
      invariant seen !! WorkerArtifacts(Known(getter, event)) && |seen| <= maxEvents
      decreases Known(getter, event).Keys - seen, |queue|
    {
      var current := queue[0];
      Found(getter, event, seen, queue);
      if current.id in seen {
        Skip(getter, event, seen, queue);
        queue := queue[1..];
      } else {
        if |seen + {current.id}| > maxEvents { return Err(SafetyLimit); }
        if IsWorkerArtifact(current) {
          LinkToSeed(Citations(Known(getter, event)), WorkerArtifacts(Known(getter, event)), event.id, current.id);
          return Ok(true);
        }
        queue := Expand(event, getter, seen, queue);
        seen := seen + {current.id};
      }
    }
    FoundAll(getter, event, seen);
    ExploringEnds(Known(getter, event), event.id, seen);
    ClosedAvoids(Citations(Known(getter, event)), WorkerArtifacts(Known(getter, event)), seen, event.id);
    r := Ok(false);
  }

  ghost function Origins(known: Store, seen: set<Ref>): set<MaterialOrigin> {
    set x | x in seen && x in known && ExplicitOrigin(known[x]) != Unknown :: ExplicitOrigin(known[x])
  }

  function Gather(origins: set<MaterialOrigin>, e: Record): set<MaterialOrigin> {
    if ExplicitOrigin(e) == Unknown then origins else origins + {ExplicitOrigin(e)}
  }

  lemma OriginsGrow(known: Store, seen: set<Ref>, e: Record)
    requires e.id in known && known[e.id] == e
    ensures Origins(known, seen + {e.id}) == Gather(Origins(known, seen), e)
  {
  }

  lemma OriginsAreReached(known: Store, start: Ref, seen: set<Ref>, o: MaterialOrigin)
    requires Exploring(known, start, seen, [], []) && o != Unknown
    ensures o in Origins(known, seen) <==> Reaches(Citations(known), WithOrigin(known, o), start)
  {
    ExploringEnds(known, start, seen);
    if o in Origins(known, seen) {
      var x :| x in seen && x in known && ExplicitOrigin(known[x]) == o;
      LinkToSeed(Citations(known), WithOrigin(known, o), start, x);
    } else {
      ClosedAvoids(Citations(known), WithOrigin(known, o), seen, start);
    }
  }

  /** The labels are exactly those found in the event's cited ancestry. */
  ghost predicate AreOrigins(known: Store, start: Ref, origins: set<MaterialOrigin>) {
    && Unknown !in origins
    && forall o {:trigger o in origins} :: o != Unknown ==>
         (o in origins <==> Reaches(Citations(known), WithOrigin(known, o), start))
  }

  lemma OriginsFound(known: Store, start: Ref, seen: set<Ref>)
    requires Exploring(known, start, seen, [], [])
    ensures AreOrigins(known, start, Origins(known, seen))
  {
    forall o | o != Unknown
      ensures o in Origins(known, seen) <==> Reaches(Citations(known), WithOrigin(known, o), start)
    {
      OriginsAreReached(known, start, seen, o);
    }
  }

  lemma OrUnknown(origins: set<MaterialOrigin>)
    requires Unknown !in origins
    ensures (if origins == {} then {Unknown} else origins) - {Unknown} == origins
  {
  }

  /** Mentions lead from the event to a known one labelled so. */
  ghost predicate Leading(getter: Store, event: Record, o: MaterialOrigin) {
    LeadsTo(StoreRecords(Known(getter, event)), (e: Record) => LabelledAs(e, o), event.id)
  }

  lemma OriginsLead(getter: Store, event: Record, origins: set<MaterialOrigin>)
    requires Keyed(getter) && AreOrigins(Known(getter, event), event.id, origins - {Unknown})
    ensures forall o {:trigger Leading(getter, event, o)} :: o != Unknown ==> (o in origins <==> Leading(getter, event, o))
  {
    forall o | o != Unknown ensures o in origins <==> Leading(getter, event, o) {
      OriginLineageIs(Known(getter, event), o, event.id);
      assert o in origins <==> o in origins - {Unknown};
    }
  }

  /** `material_origins`: the explicit labels found anywhere in the cited ancestry. */
  method MaterialOrigins(event: Record, getter: Store, maxEvents: nat)
    returns (r: Result<set<MaterialOrigin>, LineageError>)
    requires Keyed(getter)
    ensures r.Ok? ==> AreOrigins(Known(getter, event), event.id, r.value - {Unknown})
    ensures r.Ok? ==> forall o {:trigger Leading(getter, event, o)} :: o != Unknown ==> (o in r.value <==> Leading(getter, event, o))
    ensures r.Ok? ==> r.value != {} && (Unknown in r.value <==> r.value == {Unknown})
    ensures r.Err? <==> |Reached(getter, event)| > maxEvents
  {
    var queue := [event];
    var seen: set<Ref> := {};
    var origins: set<MaterialOrigin> := {};
    ExploringStarts(Known(getter, event), event);
    while queue != []
      invariant Collecting(getter, event, seen, queue, origins, maxEvents)
      decreases Known(getter, event).Keys - seen, |queue|
    {
      var current := queue[0];
      Found(getter, event, seen, queue);
      if current.id in seen {
        Skip(getter, event, seen, queue);
        queue := queue[1..];
      } else {
        if |seen + {current.id}| > maxEvents { return Err(SafetyLimit); }
        OriginsGrow(Known(getter, event), seen, current);
        origins := Gather(origins, current);
        queue := Expand(event, getter, seen, queue);
        seen := seen + {current.id};
      }
    }
    Collected(getter, event, seen, origins, maxEvents);
    OriginsLead(getter, event, if origins == {} then {Unknown} else origins);
    r := Ok(if origins == {} then {Unknown} else origins);
  }

  /** The labels collected are those of the events seen, within the limit. */
  ghost predicate Collecting(getter: Store, event: Record, seen: set<Ref>, queue: seq<Record>,
                             origins: set<MaterialOrigin>, maxEvents: nat)
  {
    Walking(getter, event, seen, queue) && origins == Origins(Known(getter, event), seen) && |seen| <= maxEvents
  }

  lemma Collected(getter: Store, event: Record, seen: set<Ref>, origins: set<MaterialOrigin>, maxEvents: nat)
    requires Collecting(getter, event, seen, [], origins, maxEvents)
    ensures |Reached(getter, event)| <= maxEvents && Unknown !in origins
    ensures AreOrigins(Known(getter, event), event.id, (if origins == {} then {Unknown} else origins) - {Unknown})
  {
    FoundAll(getter, event, seen);
    OriginsFound(Known(getter, event), event.id, seen);
    OrUnknown(origins);
  }

  /** `is_synthetic_lineage`. */
  method IsSyntheticLineage(event: Record, getter: Store, maxEvents: nat) returns (r: Result<bool, LineageError>)
    requires Keyed(getter)
    ensures r.Ok? ==> (r.value <==> Reaches(Citations(Known(getter, event)),
                                            WithOrigin(Known(getter, event), SyntheticFixture), event.id))
    ensures r.Ok? ==> (r.value <==> Leading(getter, event, SyntheticFixture))
    ensures r.Err? <==> |Reached(getter, event)| > maxEvents
  {
    var origins := MaterialOrigins(event, getter, maxEvents);
    if origins.Err? { return Err(origins.error); }
    assert SyntheticFixture in origins.value - {Unknown} <==> SyntheticFixture in origins.value;
    r := Ok(SyntheticFixture in origins.value);
  }
}
