/** The sort itself, as the importer runs it: maps of outstanding dependencies and of
    dependants, a ready list kept sorted, and one event emitted per turn. */
module BundleSort {
  import opened Common
  import opened Sorting
  import opened JobContract
  import opened BundleOrder

  type Index = map<Id, BundleEvent>

  function ById(events: seq<BundleEvent>): Index {
    if events == [] then map[]
    else ById(events[..|events| - 1])[events[|events| - 1].Id() := events[|events| - 1]]
  }

  /** The index holds the events under their ids. */
  ghost predicate Indexes(events: seq<BundleEvent>, byId: Index) {
    && (forall b :: b in events ==> b.Id() in byId && byId[b.Id()] == b)
    && (forall x :: x in byId ==> byId[x] in events && byId[x].Id() == x)
  }

  lemma {:induction false} IndexKeys(events: seq<BundleEvent>)
    ensures ById(events).Keys == Ids(events)
  {
    if events != [] {
      var n := |events| - 1;
      IndexKeys(events[..n]);
      IdsSnoc(events[..n], events[n]);
      assert events == events[..n] + [events[n]];
    }
  }

  lemma DistinctSnoc(events: seq<BundleEvent>, b: BundleEvent)
    ensures Distinct(events + [b]) <==> Distinct(events) && b.Id() !in Ids(events)
  {
    var longer := events + [b];
    IdsMember(events, b.Id());
    if Distinct(longer) {
      assert forall i :: 0 <= i < |events| ==> longer[i] == events[i] && longer[i].Id() != longer[|events|].Id();
    }
  }

  lemma SizeAfter(byId: Index, x: Id, b: BundleEvent)
    ensures |byId[x := b]| == |byId| + if x in byId then 0 else 1
  {
    assert byId[x := b].Keys == byId.Keys + {x};
    assert |byId| == |byId.Keys| && |byId[x := b]| == |byId[x := b].Keys|;
  }

  /** Comparing the sizes detects a repeated id. */
  lemma {:induction false} IndexSize(events: seq<BundleEvent>)
    ensures |ById(events)| <= |events|
    ensures |ById(events)| == |events| <==> Distinct(events)
  {
    if events != [] {
      var n := |events| - 1;
      var earlier := events[..n];
      assert events == earlier + [events[n]];
      IndexSize(earlier);
      IndexKeys(earlier);
      DistinctSnoc(earlier, events[n]);
      SizeAfter(ById(earlier), events[n].Id(), events[n]);
    }
  }

  lemma {:induction false} IndexIsFaithful(events: seq<BundleEvent>)
    requires Distinct(events)
    ensures Indexes(events, ById(events))
  {
    if events != [] {
      var n := |events| - 1;
      var earlier := events[..n];
      assert events == earlier + [events[n]] && events[n] in events;
      IndexIsFaithful(earlier);
      IndexKeys(earlier);
      IdsMember(earlier, events[n].Id());
      assert forall b :: b in events ==> b in earlier || b == events[n];
      assert forall b :: b in earlier ==> b in events && b.Id() != events[n].Id();
    }
  }

  lemma IdsSnoc(events: seq<BundleEvent>, b: BundleEvent)
    ensures Ids(events + [b]) == Ids(events) + {b.Id()}
  {
    assert forall e :: e in events + [b] <==> e in events || e == b;
  }

  function KeyOf(byId: Index): Id -> Key {
    (x: Id) => if x in byId then byId[x].Key() else Key(0, x)
  }

  // ------------------------------------------------- reading the references

  /** `dependants[x]` are the events, among those read so far, that depend on `x`. */
  ghost predicate Linked(byId: Index, read: set<Id>, dependants: map<Id, set<Id>>) {
    && dependants.Keys == byId.Keys
    && forall x, y :: x in byId ==> (y in dependants[x] <==> y in read && y in byId && x in byId[y].Dependencies())
  }

  /** `y` has been registered with the events of `done`, and nothing else has changed. */
  ghost predicate Registered(dependants: map<Id, set<Id>>, linked: map<Id, set<Id>>, y: Id, done: set<Id>) {
    linked.Keys == dependants.Keys
    && forall x :: x in dependants ==> linked[x] == dependants[x] + if x in done then {y} else {}
  }

  lemma RegisterOne(dependants: map<Id, set<Id>>, linked: map<Id, set<Id>>, y: Id, done: set<Id>, x: Id)
    requires Registered(dependants, linked, y, done) && x in dependants
    ensures Registered(dependants, linked[x := linked[x] + {y}], y, done + {x})
  {
  }

  lemma RegisteredIsLinked(byId: Index, read: set<Id>, dependants: map<Id, set<Id>>, linked: map<Id, set<Id>>, y: Id)
    requires Linked(byId, read, dependants) && y in byId && y !in read
    requires Registered(dependants, linked, y, byId[y].Dependencies())
    ensures Linked(byId, read + {y}, linked)
  {
    forall x, z | x in byId
      ensures z in linked[x] <==> z in read + {y} && z in byId && x in byId[z].Dependencies()
    {
      assert z in dependants[x] <==> z in read && z in byId && x in byId[z].Dependencies();
    }
  }

  lemma IndexedIds(events: seq<BundleEvent>, byId: Index)
    requires Indexes(events, byId)
    ensures byId.Keys == Ids(events)
  {
    forall x ensures x in byId <==> x in Ids(events) {
      if x in byId { assert byId[x] in events; }
    }
  }

  lemma SessionsAgree(events: seq<BundleEvent>, byId: Index, b: BundleEvent)
    requires Indexes(events, byId) && b.Dependencies() <= byId.Keys && b.Id() !in b.Dependencies()
    requires forall x :: x in b.Dependencies() ==> byId[x].event.session == b.event.session
    ensures ResolvesIn(b, events)
  {
    IndexedIds(events, byId);
    forall d | d in events && DependsOn(b, d) ensures d.event.session == b.event.session {
      assert byId[d.Id()] == d;
    }
  }

  /** Check one event's references and register it with each event it depends on. */
  method Link(events: seq<BundleEvent>, byId: Index, b: BundleEvent, ghost read: set<Id>,
              dependants: map<Id, set<Id>>)
    returns (r: Result<map<Id, set<Id>>, ImportError>)
    requires Indexes(events, byId) && b in events && b.Id() !in read
    requires Linked(byId, read, dependants)
    ensures r.Ok? <==> ResolvesIn(b, events)
    ensures r.Ok? ==> Linked(byId, read + {b.Id()}, r.value)
    ensures r.Err? ==> !r.error.DuplicateIds? && !r.error.CyclicReferences?
  {
    var references := b.Dependencies();
    IndexedIds(events, byId);
    if b.Id() in references { return Err(SelfReference(b.Id())); }
    var missing := references - byId.Keys;
    if missing != {} {
      ghost var m := SomeMember(missing);
      return Err(Dangling(b.Id(), missing));
    }
    assert forall x :: x in references ==> x in byId;
    var linked := dependants;
    var todo := references;
    ghost var done: set<Id> := {};
    while todo != {}
      invariant Split(references, todo, done)
      invariant Registered(dependants, linked, b.Id(), done)
      invariant forall x :: x in done ==> byId[x].event.session == b.event.session
      decreases todo
    {
      ghost var some := SomeMember(todo);
      var reference :| reference in todo;
      if byId[reference].event.session != b.event.session {
        assert DependsOn(b, byId[reference]) && byId[reference] in events;
        return Err(CrossSession(b.Id(), reference));
      }
      RegisterOne(dependants, linked, b.Id(), done, reference);
      linked := linked[reference := linked[reference] + {b.Id()}];
      SplitMove(references, todo, done, reference);
      todo, done := todo - {reference}, done + {reference};
    }
    SplitDone(references, done);
    SessionsAgree(events, byId, b);
    RegisteredIsLinked(byId, read, dependants, linked, b.Id());
    r := Ok(linked);
  }

  // ------------------------------------------------------------ one emission

  /** Outstanding dependencies after the events of `emitted`. */
  ghost predicate Outstanding(byId: Index, emitted: set<Id>, dependencies: map<Id, set<Id>>) {
    dependencies.Keys == byId.Keys
    && forall x :: x in byId ==> dependencies[x] == byId[x].Dependencies() - emitted
  }

  /** The ready list: each event not emitted whose dependencies all have been, once. */
  ghost predicate IsReady(dependencies: map<Id, set<Id>>, emitted: set<Id>, ready: seq<Id>) {
    && NoDuplicates(ready)
    && (forall x :: x in ready <==> x in dependencies && x !in emitted && dependencies[x] == {})
  }

  /** `id` has been struck off the events of `done`, and nothing else has changed. */
  ghost predicate Struck(dependencies: map<Id, set<Id>>, left: map<Id, set<Id>>, id: Id, done: set<Id>) {
    left.Keys == dependencies.Keys
    && forall x :: x in dependencies ==> left[x] == dependencies[x] - if x in done then {id} else {}
  }

  lemma StrikeOne(dependencies: map<Id, set<Id>>, left: map<Id, set<Id>>, id: Id, done: set<Id>, x: Id)
    requires Struck(dependencies, left, id, done) && x in dependencies
    ensures Struck(dependencies, left[x := left[x] - {id}], id, done + {x})
  {
  }

  lemma StruckIsOutstanding(byId: Index, before: set<Id>, id: Id, dependencies: map<Id, set<Id>>,
                            left: map<Id, set<Id>>, done: set<Id>)
    requires Outstanding(byId, before, dependencies) && Struck(dependencies, left, id, done)
    requires forall y :: y in byId ==> (y in done <==> id in byId[y].Dependencies())
    ensures Outstanding(byId, before + {id}, left)
  {
    forall x | x in byId ensures left[x] == byId[x].Dependencies() - (before + {id}) {
      assert dependencies[x] == byId[x].Dependencies() - before;
    }
  }

  /** A dependant whose last dependency goes joins the list. */
  lemma ReadyOne(left: map<Id, set<Id>>, emitted: set<Id>, list: seq<Id>, x: Id, rest: set<Id>)
    requires IsReady(left, emitted, list) && x in left && rest <= left[x]
    ensures IsReady(left[x := rest], emitted,
                    if rest == {} && x !in emitted && x !in list then list + [x] else list)
  {
    var next := if rest == {} && x !in emitted && x !in list then list + [x] else list;
    forall i, j | 0 <= i < j < |next| ensures next[i] != next[j] {
      if j == |list| { assert list[i] in list; }
    }
  }

  /** Strike the emitted event off its dependants and append those that become ready. */
  method Release(byId: Index, dependants: map<Id, set<Id>>, id: Id, ghost before: set<Id>, emitted: set<Id>,
                 dependencies: map<Id, set<Id>>, ready: seq<Id>)
    returns (left: map<Id, set<Id>>, list: seq<Id>)
    requires id in byId && emitted == before + {id}
    requires Linked(byId, byId.Keys, dependants)
    requires Outstanding(byId, before, dependencies) && IsReady(dependencies, emitted, ready)
    ensures Outstanding(byId, emitted, left) && IsReady(left, emitted, list)
  {
    left, list := dependencies, ready;
    var todo := dependants[id];
    ghost var done: set<Id> := {};
    while todo != {}
      invariant Split(dependants[id], todo, done)
      invariant Struck(dependencies, left, id, done)
      invariant IsReady(left, emitted, list)
      decreases todo
    {
      ghost var some := SomeMember(todo);
      var dependant :| dependant in todo;
      assert dependant in dependants[id] && dependant in byId;
      StrikeOne(dependencies, left, id, done, dependant);
      ReadyOne(left, emitted, list, dependant, left[dependant] - {id});
      left := left[dependant := left[dependant] - {id}];
      if left[dependant] == {} && dependant !in emitted && dependant !in list {
        list := list + [dependant];
      }
      SplitMove(dependants[id], todo, done, dependant);
      todo, done := todo - {dependant}, done + {dependant};
    }
    SplitDone(dependants[id], done);
    StruckIsOutstanding(byId, before, id, dependencies, left, done);
  }

  // ------------------------------------------------------------- the whole sort

  /** The ids of the events that depend on nothing, in input order. */
  function Unblocked(events: seq<BundleEvent>): seq<Id> {
    if events == [] then []
    else
      var b := events[|events| - 1];
      Unblocked(events[..|events| - 1]) + if b.Dependencies() == {} then [b.Id()] else []
  }

  lemma {:induction false} UnblockedMembers(events: seq<BundleEvent>, x: Id)
    ensures x in Unblocked(events) <==> exists b :: b in events && b.Id() == x && b.Dependencies() == {}
  {
    if events != [] {
      var n := |events| - 1;
      UnblockedMembers(events[..n], x);
      assert events == events[..n] + [events[n]] && events[n] in events;
      assert forall b :: b in events <==> b in events[..n] || b == events[n];
    }
  }

  lemma {:induction false} UnblockedOnce(events: seq<BundleEvent>)
    requires Distinct(events)
    ensures NoDuplicates(Unblocked(events))
  {
    if events != [] {
      var n := |events| - 1;
      UnblockedOnce(events[..n]);
      UnblockedMembers(events[..n], events[n].Id());
      assert forall i :: 0 <= i < n ==> events[..n][i].Id() != events[n].Id();
    }
  }

  lemma UnblockedIsReady(events: seq<BundleEvent>, byId: Index, dependencies: map<Id, set<Id>>)
    requires Distinct(events) && Indexes(events, byId) && Outstanding(byId, {}, dependencies)
    ensures IsReady(dependencies, {}, Unblocked(events))
  {
    UnblockedOnce(events);
    forall x ensures x in Unblocked(events) <==> x in dependencies && dependencies[x] == {} {
      UnblockedMembers(events, x);
      if x in byId { assert byId[x] in events && dependencies[x] == byId[x].Dependencies() - {}; }
    }
  }

  lemma ReorderReady(dependencies: map<Id, set<Id>>, emitted: set<Id>, list: seq<Id>, sorted: seq<Id>)
    requires IsReady(dependencies, emitted, list) && multiset(sorted) == multiset(list)
    ensures IsReady(dependencies, emitted, sorted)
  {
    SameMembers(sorted, list);
    NoDuplicatesReordered(list, sorted);
  }

  lemma PopReady(dependencies: map<Id, set<Id>>, emitted: set<Id>, ready: seq<Id>)
    requires IsReady(dependencies, emitted, ready) && ready != []
    ensures IsReady(dependencies, emitted + {ready[0]}, ready[1..])
  {
    assert ready == [ready[0]] + ready[1..];
    assert forall x :: x in ready <==> x == ready[0] || x in ready[1..];
    assert forall i :: 0 <= i < |ready| - 1 ==> ready[1..][i] == ready[i + 1];
  }

  /** Emitting the head of the sorted ready list extends the canonical order. */
  lemma EmitLeast(events: seq<BundleEvent>, byId: Index, ordered: seq<BundleEvent>, emitted: set<Id>,
                  dependencies: map<Id, set<Id>>, ready: seq<Id>)
    requires Indexes(events, byId) && Outstanding(byId, emitted, dependencies)
    requires IsReady(dependencies, emitted, ready) && Sorted(ready, KeyOf(byId)) && ready != []
    requires Canonical(events, ordered) && Ids(ordered) == emitted
    ensures ready[0] in byId && ready[0] !in emitted
    ensures Canonical(events, ordered + [byId[ready[0]]])
  {
    var x := ready[0];
    assert x in ready;
    var out := ordered + [byId[x]];
    forall k | 0 <= k < |out| ensures LeastReady(events, out, k) {
      if k < |ordered| {
        assert LeastReady(events, ordered, k) && out[..k] == ordered[..k] && out[k] == ordered[k];
      } else {
        assert out[..k] == ordered && out[k] == byId[x] && dependencies[x] == {};
        forall b | b in events && b !in ordered && b.Dependencies() <= emitted
          ensures KeyAtMost(out[k].Key(), b.Key())
        {
          NotEmitted(events, byId, ordered, b);
          assert dependencies[b.Id()] == {} && b.Id() in ready;
          var i :| 0 <= i < |ready| && ready[i] == b.Id();
          assert KeyAtMost(KeyOf(byId)(ready[0]), KeyOf(byId)(ready[i]));
        }
      }
    }
  }

  lemma NotEmitted(events: seq<BundleEvent>, byId: Index, ordered: seq<BundleEvent>, b: BundleEvent)
    requires Indexes(events, byId) && Canonical(events, ordered) && b in events && b !in ordered
    ensures b.Id() !in Ids(ordered)
  {
    IdsMember(ordered, b.Id());
    forall i | 0 <= i < |ordered| ensures ordered[i].Id() != b.Id() {
      assert LeastReady(events, ordered, i);
      assert byId[b.Id()] == b && byId[ordered[i].Id()] == ordered[i];
    }
  }

  /** The events whose ids are in `ids`. */
  ghost function Of(events: seq<BundleEvent>, ids: set<Id>): set<BundleEvent> {
    set b | b in events && b.Id() in ids
  }

  /** `ids` names exactly the events stuck on each other, whichever way they are found. */
  ghost predicate AllStuck(events: seq<BundleEvent>, ids: set<Id>) {
    && ids != {} && ids <= Ids(events) && Stuck(Of(events, ids))
    && forall stuck {:trigger Stuck(stuck)} ::
         Stuck(stuck) && (forall b :: b in stuck ==> b in events) ==> stuck <= Of(events, ids)
  }

  /** What the order emits is never stuck. */
  lemma {:induction false} EmittedIsNotStuck(events: seq<BundleEvent>, ordered: seq<BundleEvent>,
                                             stuck: set<BundleEvent>, k: nat)
    requires Distinct(events) && Canonical(events, ordered) && k < |ordered|
    requires Stuck(stuck) && forall b :: b in stuck ==> b in events
    ensures ordered[k] !in stuck
  {
    if ordered[k] in stuck {
      assert Blocked(stuck, ordered[k]);
      var d :| d in stuck && DependsOn(ordered[k], d);
      var j := EarlierPosition(events, ordered, k, d);
      EmittedIsNotStuck(events, ordered, stuck, j);
    }
  }

  /** Whatever an emitted event depends on has been emitted. */
  lemma EmittedIsClear(events: seq<BundleEvent>, byId: Index, ordered: seq<BundleEvent>, x: Id)
    requires Indexes(events, byId) && Canonical(events, ordered) && x in Ids(ordered)
    ensures x in byId && byId[x].Dependencies() <= Ids(ordered)
  {
    IdsMember(ordered, x);
    var i :| 0 <= i < |ordered| && ordered[i].Id() == x;
    assert LeastReady(events, ordered, i);
    assert forall b :: b in ordered[..i] ==> b in ordered;
  }

  lemma WhatIsLeft(events: seq<BundleEvent>, byId: Index, ordered: seq<BundleEvent>, dependencies: map<Id, set<Id>>)
    requires Indexes(events, byId) && Canonical(events, ordered)
    requires Outstanding(byId, Ids(ordered), dependencies) && IsReady(dependencies, Ids(ordered), [])
    ensures (set x | x in dependencies && dependencies[x] != {}) == byId.Keys - Ids(ordered)
  {
    forall x | x in byId ensures dependencies[x] != {} <==> x !in Ids(ordered) {
      if x in Ids(ordered) {
        EmittedIsClear(events, byId, ordered, x);
      } else {
        assert x !in [];
      }
    }
  }

  /** What remains when nothing is ready is exactly what is stuck. */
  lemma RestIsStuck(events: seq<BundleEvent>, byId: Index, ordered: seq<BundleEvent>, dependencies: map<Id, set<Id>>,
                    ids: set<Id>)
    requires Resolved(events) && Indexes(events, byId) && Canonical(events, ordered)
    requires Outstanding(byId, Ids(ordered), dependencies)
    requires ids == byId.Keys - Ids(ordered) && ids != {} && forall x :: x in ids ==> dependencies[x] != {}
    ensures AllStuck(events, ids) && Cyclic(events)
  {
    IndexedIds(events, byId);
    var rest := Of(events, ids);
    RestIsBlocked(events, byId, ids, Ids(ordered), dependencies);
    var x := SomeMember(ids);
    assert byId[x] in rest;
    StuckMeansCyclic(events, rest);
    forall stuck {:trigger Stuck(stuck)} | Stuck(stuck) && (forall b :: b in stuck ==> b in events)
      ensures stuck <= rest
    {
      StuckIsLeft(events, byId, ordered, ids, stuck);
    }
  }

  lemma StuckIsLeft(events: seq<BundleEvent>, byId: Index, ordered: seq<BundleEvent>, ids: set<Id>,
                    stuck: set<BundleEvent>)
    requires Distinct(events) && Indexes(events, byId) && Canonical(events, ordered)
    requires ids == byId.Keys - Ids(ordered)
    requires Stuck(stuck) && forall b :: b in stuck ==> b in events
    ensures stuck <= Of(events, ids)
  {
    forall b | b in stuck ensures b !in ordered && b in Of(events, ids) {
      forall k | 0 <= k < |ordered| ensures ordered[k] != b {
        EmittedIsNotStuck(events, ordered, stuck, k);
      }
      NotEmitted(events, byId, ordered, b);
    }
  }

  lemma RestIsBlocked(events: seq<BundleEvent>, byId: Index, ids: set<Id>, emitted: set<Id>,
                      dependencies: map<Id, set<Id>>)
    requires Resolved(events) && Indexes(events, byId) && Outstanding(byId, emitted, dependencies)
    requires ids == byId.Keys - emitted && forall x :: x in ids ==> dependencies[x] != {}
    ensures Stuck(Of(events, ids))
  {
    IndexedIds(events, byId);
    forall b | b in Of(events, ids) ensures Blocked(Of(events, ids), b) {
      var y := SomeMember(dependencies[b.Id()]);
      assert ResolvesIn(b, events) && y in b.Dependencies() && byId[b.Id()] == b;
      assert byId[y] in Of(events, ids) && DependsOn(b, byId[y]);
    }
  }

  /** Every event emitted: the order is a permutation and there is no cycle. */
  lemma AllEmitted(events: seq<BundleEvent>, byId: Index, ordered: seq<BundleEvent>)
    requires Distinct(events) && Indexes(events, byId) && Canonical(events, ordered)
    requires byId.Keys <= Ids(ordered)
    ensures multiset(ordered) == multiset(events) && !Cyclic(events)
  {
    forall b ensures b in events <==> b in ordered {
      if b in events && b !in ordered { NotEmitted(events, byId, ordered, b); }
      if k :| 0 <= k < |ordered| && ordered[k] == b { assert LeastReady(events, ordered, k); }
    }
    forall i, j | 0 <= i < j < |ordered| ensures ordered[i] != ordered[j] { NoRepeats(events, ordered, i, j); }
    SameMembersOnce(ordered, events);
    SortedMeansAcyclic(events, ordered);
  }

  /** The state at the head of the emitting loop. */
  ghost predicate Turn(events: seq<BundleEvent>, byId: Index, ordered: seq<BundleEvent>, emitted: set<Id>,
                       dependencies: map<Id, set<Id>>, ready: seq<Id>)
  {
    && Outstanding(byId, emitted, dependencies) && IsReady(dependencies, emitted, ready)
    && Sorted(ready, KeyOf(byId))
    && Canonical(events, ordered) && Ids(ordered) == emitted
    && emitted <= byId.Keys && |emitted| == |ordered|
  }

  lemma FirstTurn(events: seq<BundleEvent>, byId: Index, dependencies: map<Id, set<Id>>)
    requires Distinct(events) && Indexes(events, byId) && Outstanding(byId, {}, dependencies)
    ensures Turn(events, byId, [], {}, dependencies, SortBy(Unblocked(events), KeyOf(byId)))
  {
    UnblockedIsReady(events, byId, dependencies);
    ReorderReady(dependencies, {}, Unblocked(events), SortBy(Unblocked(events), KeyOf(byId)));
  }

  lemma NextTurn(events: seq<BundleEvent>, byId: Index, ordered: seq<BundleEvent>, emitted: set<Id>,
                 dependencies: map<Id, set<Id>>, ready: seq<Id>, left: map<Id, set<Id>>, list: seq<Id>)
    requires Indexes(events, byId) && Turn(events, byId, ordered, emitted, dependencies, ready) && ready != []
    requires Outstanding(byId, emitted + {ready[0]}, left) && IsReady(left, emitted + {ready[0]}, list)
    ensures ready[0] in byId && ready[0] !in emitted
    ensures Turn(events, byId, ordered + [byId[ready[0]]], emitted + {ready[0]}, left, SortBy(list, KeyOf(byId)))
  {
    EmitLeast(events, byId, ordered, emitted, dependencies, ready);
    IdsSnoc(ordered, byId[ready[0]]);
    assert byId[ready[0]].Id() == ready[0];
    ReorderReady(left, emitted + {ready[0]}, list, SortBy(list, KeyOf(byId)));
  }

  /** `_topological_events`. */
  method TopologicalEvents(events: seq<BundleEvent>) returns (r: Result<seq<BundleEvent>, ImportError>)
    ensures r.Ok? <==> Resolved(events) && !Cyclic(events)
    ensures r.Ok? ==> multiset(r.value) == multiset(events) && Canonical(events, r.value)
    ensures r.Ok? ==> RefersWithin(events) && forall k :: 0 <= k < |r.value| ==> ComesNext(events, r.value, k)
    ensures r.Err? && !r.error.CyclicReferences? <==> !RefersWithin(events)
    ensures r == Err(DuplicateIds) <==> !Distinct(events)
    ensures r.Err? && r.error.CyclicReferences? <==> Resolved(events) && Cyclic(events)
    ensures r.Err? && r.error.CyclicReferences? ==> AllStuck(events, r.error.ids)
  {
    var byId := ById(events);
    IndexSize(events);
    RefersWithinIff(events);
    if |byId| != |events| { return Err(DuplicateIds); }
    IndexIsFaithful(events);
    var dependencies, dependants := ReadReferences(events, byId);
    if dependants.Err? { return Err(dependants.error); }
    r := Emit(events, byId, dependencies, dependants.value);
    if r.Ok? {
      forall k | 0 <= k < |r.value| ensures ComesNext(events, r.value, k) { CanonicalOnFields(events, r.value, k); }
    }
  }

  /** The references of the first `n` events have been read. */
  ghost predicate ReadUpTo(events: seq<BundleEvent>, byId: Index, n: nat, dependencies: map<Id, set<Id>>)
    requires n <= |events|
  {
    && dependencies.Keys == Ids(events[..n])
    && (forall x :: x in dependencies ==> x in byId && dependencies[x] == byId[x].Dependencies())
  }

  ghost predicate ResolvedUpTo(events: seq<BundleEvent>, n: nat)
    requires n <= |events|
  {
    forall i :: 0 <= i < n ==> ResolvesIn(events[i], events)
  }

  lemma ReadOneMore(events: seq<BundleEvent>, byId: Index, n: nat, dependencies: map<Id, set<Id>>)
    requires n < |events| && Indexes(events, byId) && ReadUpTo(events, byId, n, dependencies)
    ensures Ids(events[..n + 1]) == Ids(events[..n]) + {events[n].Id()}
    ensures ReadUpTo(events, byId, n + 1, dependencies[events[n].Id() := events[n].Dependencies()])
  {
    assert events[..n + 1] == events[..n] + [events[n]] && events[n] in events;
    IdsSnoc(events[..n], events[n]);
  }

  lemma AllResolved(events: seq<BundleEvent>)
    requires Distinct(events) && ResolvedUpTo(events, |events|)
    ensures Resolved(events)
  {
    forall b | b in events ensures ResolvesIn(b, events) {
      var i :| 0 <= i < |events| && events[i] == b;
    }
  }

  lemma AllRead(events: seq<BundleEvent>, byId: Index, dependencies: map<Id, set<Id>>)
    requires Indexes(events, byId) && ReadUpTo(events, byId, |events|, dependencies)
    ensures Ids(events[..|events|]) == byId.Keys && Outstanding(byId, {}, dependencies)
  {
    assert events[..|events|] == events;
    IndexedIds(events, byId);
  }

  lemma NewId(events: seq<BundleEvent>, n: nat)
    requires Distinct(events) && n < |events|
    ensures events[n].Id() !in Ids(events[..n])
  {
    IdsMember(events[..n], events[n].Id());
  }

  method ReadReferences(events: seq<BundleEvent>, byId: Index)
    returns (dependencies: map<Id, set<Id>>, dependants: Result<map<Id, set<Id>>, ImportError>)
    requires Distinct(events) && Indexes(events, byId)
    ensures dependants.Ok? <==> Resolved(events)
    ensures dependants.Ok? ==> Linked(byId, byId.Keys, dependants.value) && Outstanding(byId, {}, dependencies)
    ensures dependants.Err? ==> !dependants.error.DuplicateIds? && !dependants.error.CyclicReferences?
  {
    var linked: map<Id, set<Id>> := map x | x in byId :: {};
    dependencies := map[];
    for i := 0 to |events|
      invariant Linked(byId, Ids(events[..i]), linked)
      invariant ReadUpTo(events, byId, i, dependencies) && ResolvedUpTo(events, i)
    {
      var b := events[i];
      NewId(events, i);
      ReadOneMore(events, byId, i, dependencies);
      var step := Link(events, byId, b, Ids(events[..i]), linked);
      if step.Err? { return dependencies, Err(step.error); }
      linked := step.value;
      dependencies := dependencies[b.Id() := b.Dependencies()];
    }
    AllRead(events, byId, dependencies);
    AllResolved(events);
    dependants := Ok(linked);
  }

  method Emit(events: seq<BundleEvent>, byId: Index, references: map<Id, set<Id>>, dependants: map<Id, set<Id>>)
    returns (r: Result<seq<BundleEvent>, ImportError>)
    requires Resolved(events) && Indexes(events, byId) && |byId| == |events|
    requires Linked(byId, byId.Keys, dependants) && Outstanding(byId, {}, references)
    ensures r.Ok? <==> !Cyclic(events)
    ensures r.Ok? ==> multiset(r.value) == multiset(events) && Canonical(events, r.value)
    ensures r.Err? ==> r.error.CyclicReferences? && AllStuck(events, r.error.ids)
  {
    var dependencies := references;
    var ready := SortBy(Unblocked(events), KeyOf(byId));
    FirstTurn(events, byId, dependencies);
    var ordered: seq<BundleEvent> := [];
    var emitted: set<Id> := {};
    while ready != []
      invariant Turn(events, byId, ordered, emitted, dependencies, ready)
      decreases byId.Keys - emitted
    {
      PopReady(dependencies, emitted, ready);
      EmitLeast(events, byId, ordered, emitted, dependencies, ready);
      var id := ready[0];
      var left, list := Release(byId, dependants, id, emitted, emitted + {id}, dependencies, ready[1..]);
      NextTurn(events, byId, ordered, emitted, dependencies, ready, left, list);
      ordered := ordered + [byId[id]];
      emitted := emitted + {id};
      dependencies := left;
      ready := SortBy(list, KeyOf(byId));
    }
    var left := set x | x in dependencies && dependencies[x] != {};
    WhatIsLeft(events, byId, ordered, dependencies);
    SubsetSize(emitted, byId.Keys);
    assert |byId| == |byId.Keys|;
    if |ordered| != |events| {
      RestIsStuck(events, byId, ordered, dependencies, left);
      return Err(CyclicReferences(left));
    }
    AllEmitted(events, byId, ordered);
    r := Ok(ordered);
  }
}
