/** The depth-first walks of the projections, over stored rows. */
module ProjectionLineage {
  import opened Common
  import opened LineageGraph
  import opened LineageRecords
  import opened LineageFields
  import opened MaterialLineage

  const SAFETY_LIMIT := 10000

  /** The start, and every identifier, known or not, that a known event reached from it cites. */
  ghost function MentionedFrom(g: Graph, start: Ref): set<Ref> {
    {start} + set x, y | x in ReachedFrom(g, start) && y in g[x] :: y
  }

  /** The state of the walk from `start`, which may be unknown, and so may anything queued. */
  ghost predicate Descending(g: Graph, start: Ref, seen: set<Ref>, queue: seq<Ref>) {
    && seen <= MentionedFrom(g, start)
    && (forall i :: 0 <= i < |queue| ==> queue[i] in MentionedFrom(g, start))
    && (start in seen || start in queue)
    && (forall x {:trigger Linked(g, start, x)} :: x in g && (x in seen || x in queue) ==> Linked(g, start, x))
    && (forall x, y {:trigger Cites(g, x, y)} :: x in seen && Cites(g, x, y) ==> y in seen || y in queue)
  }

  lemma DescendingStarts(g: Graph, start: Ref)
    ensures Descending(g, start, {}, [start])
  {
    if start in g { SeedReaches(g, {start}, start); }
  }

  lemma PopMembers(queue: seq<Ref>, y: Ref)
    requires queue != []
    ensures y in queue <==> y in queue[..|queue| - 1] || y == queue[|queue| - 1]
  {
    assert queue == queue[..|queue| - 1] + [queue[|queue| - 1]];
  }

  lemma PopSeen(g: Graph, start: Ref, seen: set<Ref>, queue: seq<Ref>)
    requires Descending(g, start, seen, queue) && queue != []
    requires queue[|queue| - 1] in seen
    ensures Descending(g, start, seen, queue[..|queue| - 1])
  {
    forall y ensures y in queue <==> y in queue[..|queue| - 1] || y == queue[|queue| - 1] { PopMembers(queue, y); }
  }

  lemma PopUnknown(g: Graph, start: Ref, seen: set<Ref>, queue: seq<Ref>)
    requires Descending(g, start, seen, queue) && queue != []
    requires queue[|queue| - 1] !in g
    ensures Descending(g, start, seen + {queue[|queue| - 1]}, queue[..|queue| - 1])
  {
    forall y ensures y in queue <==> y in queue[..|queue| - 1] || y == queue[|queue| - 1] { PopMembers(queue, y); }
  }

  /** Visiting a known row queues whatever it cites that has not been seen. */
  lemma PopKnown(g: Graph, start: Ref, seen: set<Ref>, queue: seq<Ref>, cited: seq<Ref>)
    requires Descending(g, start, seen, queue) && queue != []
    requires var id := queue[|queue| - 1];
             id in g && forall y :: y in cited <==> Cites(g, id, y) && y !in seen + {id}
    ensures var id := queue[|queue| - 1];
            Linked(g, start, id) && Descending(g, start, seen + {id}, queue[..|queue| - 1] + cited)
  {
    var id := queue[|queue| - 1];
    forall y ensures y in queue <==> y in queue[..|queue| - 1] || y == id { PopMembers(queue, y); }
    assert id in queue && Linked(g, start, id);
    forall y | y in cited ensures y in MentionedFrom(g, start) && (y in g ==> Linked(g, start, y)) {
      assert Cites(g, id, y);
      if y in g { LinkOn(g, start, id, y); }
    }
    var longer := queue[..|queue| - 1] + cited;
    forall i | 0 <= i < |longer| ensures longer[i] in MentionedFrom(g, start) {
      if i >= |queue| - 1 { assert longer[i] in cited; }
    }
  }

  lemma DescendingEnds(g: Graph, start: Ref, seen: set<Ref>, seeds: set<Ref>)
    requires Descending(g, start, seen, []) && seen !! seeds
    ensures !Reaches(g, seeds, start) && seen == MentionedFrom(g, start)
  {
    assert ClosedUnderCited(g, seen);
    ClosedAvoids(g, seeds, seen, start);
    forall y | y in MentionedFrom(g, start) && y != start ensures y in seen {
      var x :| x in ReachedFrom(g, start) && y in g[x];
      ClosedReachesAll(g, start, seen, x);
      assert Cites(g, x, y);
    }
  }

  /** The references appended to the stack at a known row. */
  function Unseen(row: Record, seen: set<Ref>): seq<Ref> {
    Except(RowReferences(row), seen)
  }

  lemma UnseenCited(rows: Store, id: Ref, seen: set<Ref>, y: Ref)
    requires id in rows
    ensures y in Unseen(rows[id], seen) <==> Cites(Citations(rows), id, y) && y !in seen
  {
    assert y in RowReferences(rows[id]) <==> y in Cited(rows[id]);
  }

  /** `_stored_event_has_worker_lineage`. */
  method StoredEventHasWorkerLineage(rows: Store, id: Ref) returns (r: Result<bool, LineageError>)
    requires Keyed(rows)
    ensures r.Ok? ==> (r.value <==> HasWorkerLineage(rows, id))
    ensures r.Ok? ==> (r.value <==> LeadsTo(StoreRecords(rows), WorkerMade, id))
    ensures r.Err? ==> |MentionedFrom(Citations(rows), id)| > SAFETY_LIMIT
    ensures r.Ok? && !r.value ==> |MentionedFrom(Citations(rows), id)| <= SAFETY_LIMIT
  {
    ghost var g := Citations(rows);
    WorkerLineageIs(rows, id);
    var queue := [id];
    var seen: set<Ref> := {};
    DescendingStarts(g, id);
    while queue != []
      invariant Descending(g, id, seen, queue)
      invariant seen !! WorkerArtifacts(rows) && |seen| <= SAFETY_LIMIT
      decreases MentionedFrom(g, id) - seen, |queue|
    {
      var current := queue[|queue| - 1];
      if current in seen {
        PopSeen(g, id, seen, queue);
        queue := queue[..|queue| - 1];
      } else if |seen + {current}| > SAFETY_LIMIT {
        SubsetSize(seen + {current}, MentionedFrom(g, id));
        return Err(SafetyLimit);
      } else if current !in rows {
        PopUnknown(g, id, seen, queue);
        queue, seen := queue[..|queue| - 1], seen + {current};
      } else {
        var cited := Unseen(rows[current], seen + {current});
        forall y ensures y in cited <==> Cites(g, current, y) && y !in seen + {current} {
          UnseenCited(rows, current, seen + {current}, y);
        }
        PopKnown(g, id, seen, queue, cited);
        if IsWorkerArtifact(rows[current]) {
          LinkToSeed(g, WorkerArtifacts(rows), id, current);
          return Ok(true);
        }
        queue := queue[..|queue| - 1] + cited;
        seen := seen + {current};
      }
    }
    DescendingEnds(g, id, seen, WorkerArtifacts(rows));
    r := Ok(false);
  }

  lemma KnownExtends(rows: Store, event: Record)
    requires Keyed(rows) && (event.id in rows ==> rows[event.id] == event)
    ensures Extends(Citations(rows), Citations(Known(rows, event)), WorkerArtifacts(rows),
                    WorkerArtifacts(Known(rows, event)), event.id)
    ensures Citations(Known(rows, event))[event.id] == Cited(event)
    ensures event.id in WorkerArtifacts(Known(rows, event)) <==> IsWorkerArtifact(event)
  {
  }

  /** An event that cites worker lineage has it. */
  lemma CitingPassesLineage(rows: Store, event: Record, y: Ref)
    requires Keyed(rows) && (event.id in rows ==> rows[event.id] == event)
    requires y in Cited(event) && HasWorkerLineage(rows, y)
    ensures HasWorkerLineage(Known(rows, event), event.id)
  {
    var g, h := Citations(rows), Citations(Known(rows, event));
    KnownExtends(rows, event);
    ReachesInExtension(g, h, WorkerArtifacts(rows), WorkerArtifacts(Known(rows, event)), event.id, y);
    assert Cites(h, event.id, y);
    CiterReaches(h, WorkerArtifacts(Known(rows, event)), event.id, y);
  }

  /** There is no other way to have it but to be an artifact. */
  lemma LineageComesFromReferences(rows: Store, event: Record)
    requires Keyed(rows) && (event.id in rows ==> rows[event.id] == event)
    requires !IsWorkerArtifact(event) && forall y :: y in Cited(event) ==> !HasWorkerLineage(rows, y)
    ensures !HasWorkerLineage(Known(rows, event), event.id)
  {
    KnownExtends(rows, event);
    NewEventAvoids(Citations(rows), Citations(Known(rows, event)), WorkerArtifacts(rows),
                   WorkerArtifacts(Known(rows, event)), event.id);
  }

  ghost predicate SomeHasLineage(rows: Store, references: seq<Ref>) {
    exists k {:trigger references[k]} :: 0 <= k < |references| && HasWorkerLineage(rows, references[k])
  }

  ghost predicate SomeIsTooLarge(rows: Store, references: seq<Ref>) {
    exists k {:trigger references[k]} :: 0 <= k < |references| && |MentionedFrom(Citations(rows), references[k])| > SAFETY_LIMIT
  }

  /** `any(...)` over references. */
  method AnyHasWorkerLineage(rows: Store, references: seq<Ref>) returns (r: Result<bool, LineageError>)
    requires Keyed(rows)
    ensures r.Ok? ==> (r.value <==> SomeHasLineage(rows, references))
    ensures r.Err? ==> SomeIsTooLarge(rows, references)
  {
    for i := 0 to |references|
      invariant !SomeHasLineage(rows, references[..i])
    {
      var reference := references[i];
      r := StoredEventHasWorkerLineage(rows, reference);
      if r.Err? { return; }
      SomeSnoc(rows, references, i);
      if r.value {
        SomeOfAll(rows, references, i + 1);
        return;
      }
    }
    assert references[..|references|] == references;
    r := Ok(false);
  }

  lemma SomeSnoc(rows: Store, references: seq<Ref>, i: nat)
    requires i < |references|
    ensures SomeHasLineage(rows, references[..i + 1]) <==>
            SomeHasLineage(rows, references[..i]) || HasWorkerLineage(rows, references[i])
  {
    var longer, shorter := references[..i + 1], references[..i];
    assert longer == shorter + [references[i]] && longer[i] == references[i];
    if k :| 0 <= k < |shorter| && HasWorkerLineage(rows, shorter[k]) {
      assert longer[k] == shorter[k];
    }
    if k :| 0 <= k < |longer| && HasWorkerLineage(rows, longer[k]) {
      if k < i { assert shorter[k] == longer[k]; }
    }
  }

  lemma SomeOfAll(rows: Store, references: seq<Ref>, i: nat)
    requires i <= |references| && SomeHasLineage(rows, references[..i])
    ensures SomeHasLineage(rows, references)
  {
    var k :| 0 <= k < i && HasWorkerLineage(rows, references[..i][k]);
    assert references[k] == references[..i][k];
  }

  /** Some event it cites mentions, directly or through others, more identifiers than the limit. */
  ghost predicate TooLarge(rows: Store, event: Record) {
    exists y :: y in Cited(event) && |MentionedFrom(Citations(rows), y)| > SAFETY_LIMIT
  }

  /** `_worker_lineage` of an event being projected, which may already be stored. */
  method WorkerLineage(rows: Store, event: Record) returns (r: Result<bool, LineageError>)
    requires Keyed(rows) && (event.id in rows ==> rows[event.id] == event)
    ensures r.Ok? ==> (r.value <==> HasWorkerLineage(Known(rows, event), event.id))
    ensures r.Ok? ==> (r.value <==> LeadsTo(StoreRecords(Known(rows, event)), WorkerMade, event.id))
    ensures r.Err? ==> TooLarge(rows, event)
  {
    WorkerLineageIs(Known(rows, event), event.id);
    if IsWorkerArtifact(event) {
      SeedReaches(Citations(Known(rows, event)), WorkerArtifacts(Known(rows, event)), event.id);
      return Ok(true);
    }
    var references := RowReferences(event);
    r := AnyHasWorkerLineage(rows, references);
    Decided(rows, event, references, r);
  }

  lemma Decided(rows: Store, event: Record, references: seq<Ref>, r: Result<bool, LineageError>)
    requires Keyed(rows) && (event.id in rows ==> rows[event.id] == event)
    requires !IsWorkerArtifact(event) && forall y :: y in references <==> y in Cited(event)
    requires r.Ok? ==> (r.value <==> SomeHasLineage(rows, references))
    requires r.Err? ==> SomeIsTooLarge(rows, references)
    ensures r.Ok? ==> (r.value <==> HasWorkerLineage(Known(rows, event), event.id))
    ensures r.Err? ==> TooLarge(rows, event)
  {
    if r.Err? {
      var k :| 0 <= k < |references| && |MentionedFrom(Citations(rows), references[k])| > SAFETY_LIMIT;
      assert references[k] in references;
    } else if r.value {
      var k :| 0 <= k < |references| && HasWorkerLineage(rows, references[k]);
      assert references[k] in references;
      CitingPassesLineage(rows, event, references[k]);
    } else {
      forall y | y in Cited(event) ensures !HasWorkerLineage(rows, y) {
        assert y in references;
        var k :| 0 <= k < |references| && references[k] == y;
      }
      LineageComesFromReferences(rows, event);
    }
  }
}
