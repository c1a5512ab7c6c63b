/** Ordering the events of an imported bundle: Kahn's algorithm with a sorted ready list. */
module BundleOrder {
  import opened Common
  import opened Sorting
  import opened JobContract

  /** What an event says of its branch: the checkpoint that opens the session, a fork with the fields of its
      payload, or nothing. */
  datatype Role =
    | OpensSession
    | ForksBranch(source: Option<Id>, parentBranch: Option<string>, branch: Option<string>)
    | Ordinary

  /** An event read from a bundle, with the event references its payload and metadata hold.
      `taskJob` is the job a worker-task request names. */
  datatype BundleEvent = BundleEvent(
    event: Event,
    payloadReferences: set<Id>,
    metadataReferences: set<Id>,
    taskJob: Option<Id>,
    role: Role)
  {
    function Id(): Id {
      event.id
    }

    function Key(): Key {
      event.Key()
    }

    /** Everything the event must come after. */
    function Dependencies(): set<Id> {
      payloadReferences + metadataReferences
      + (if event.parent.Some? then {event.parent.value} else {})
      + (if event.causation.Some? then {event.causation.value} else {})
    }
  }

  datatype ImportError =
    | DuplicateIds
    | SelfReference(id: Id)
    | Dangling(id: Id, missing: set<Id>)
    | CrossSession(id: Id, reference: Id)
    | CyclicReferences(ids: set<Id>)

  // ------------------------------------------------------------- what is promised

  ghost predicate Distinct(events: seq<BundleEvent>) {
    forall i, j :: 0 <= i < j < |events| ==> events[i].Id() != events[j].Id()
  }

  function Ids(events: seq<BundleEvent>): set<Id> {
    set b | b in events :: b.Id()
  }

  predicate DependsOn(b: BundleEvent, d: BundleEvent) {
    d.Id() in b.Dependencies()
  }

  /** The event refers to other events of the bundle, all in its own session. */
  ghost predicate ResolvesIn(b: BundleEvent, events: seq<BundleEvent>) {
    && b.Id() !in b.Dependencies()
    && b.Dependencies() <= Ids(events)
    && forall d :: d in events && DependsOn(b, d) ==> d.event.session == b.event.session
  }

  ghost predicate Resolved(events: seq<BundleEvent>) {
    Distinct(events) && forall b :: b in events ==> ResolvesIn(b, events)
  }

  /** Each event of the walk depends on the next. */
  ghost predicate Descends(walk: seq<BundleEvent>) {
    forall i, j :: 0 <= i < j < |walk| && j == i + 1 ==> DependsOn(walk[i], walk[j])
  }

  /** A closed walk along dependencies. */
  ghost predicate Cycle(events: seq<BundleEvent>, walk: seq<BundleEvent>) {
    && |walk| >= 2 && walk[0] == walk[|walk| - 1]
    && (forall i :: 0 <= i < |walk| ==> walk[i] in events)
    && Descends(walk)
  }

  ghost predicate Cyclic(events: seq<BundleEvent>) {
    exists walk :: Cycle(events, walk)
  }

  /** Position `k` holds the least event, by `(created_at, id)`, of those not yet emitted whose
      dependencies all have been. */
  ghost predicate LeastReady(events: seq<BundleEvent>, out: seq<BundleEvent>, k: nat)
    requires k < |out|
  {
    && out[k] in events && out[k] !in out[..k]
    && out[k].Dependencies() <= Ids(out[..k])
    && forall b :: b in events && b !in out[..k] && b.Dependencies() <= Ids(out[..k])
                   ==> KeyAtMost(out[k].Key(), b.Key())
  }

  ghost predicate Canonical(events: seq<BundleEvent>, out: seq<BundleEvent>) {
    forall k :: 0 <= k < |out| ==> LeastReady(events, out, k)
  }

  lemma IdsMember(events: seq<BundleEvent>, x: Id)
    ensures x in Ids(events) <==> exists i :: 0 <= i < |events| && events[i].Id() == x
  {
    if i :| 0 <= i < |events| && events[i].Id() == x {
      assert events[i] in events;
    }
  }

  lemma SameIdSameEvent(events: seq<BundleEvent>, a: BundleEvent, b: BundleEvent)
    requires Distinct(events) && a in events && b in events && a.Id() == b.Id()
    ensures a == b
  {
    var i :| 0 <= i < |events| && events[i] == a;
    var j :| 0 <= j < |events| && events[j] == b;
  }

  // ------------------------------------------------------ the same, on the fields

  /** The payload, the metadata or the envelope of the event refers to `x`. */
  predicate RefersTo(b: BundleEvent, x: Id) {
    || b.event.parent == Some(x) || b.event.causation == Some(x)
    || x in b.payloadReferences || x in b.metadataReferences
  }

  /** Everything referred to is another event of the bundle, in the same session. */
  ghost predicate RefersWithin(events: seq<BundleEvent>) {
    && (forall i, j :: 0 <= i < j < |events| ==> events[i].event.id != events[j].event.id)
    && (forall b, x :: b in events && RefersTo(b, x) ==>
          x != b.event.id && exists d :: d in events && d.event.id == x && d.event.session == b.event.session)
  }

  lemma RefersWithinIff(events: seq<BundleEvent>)
    ensures RefersWithin(events) <==> Resolved(events)
  {
    forall b, x ensures RefersTo(b, x) <==> x in b.Dependencies() {
    }
    if Resolved(events) {
      forall b, x | b in events && RefersTo(b, x)
        ensures x != b.event.id && exists d :: d in events && d.event.id == x && d.event.session == b.event.session
      {
        assert ResolvesIn(b, events) && x in Ids(events);
        var d :| d in events && d.Id() == x;
        assert DependsOn(b, d);
      }
    }
    if RefersWithin(events) {
      forall b | b in events ensures ResolvesIn(b, events) {
        ResolvesOnFields(events, b);
      }
    }
  }

  lemma ResolvesOnFields(events: seq<BundleEvent>, b: BundleEvent)
    requires RefersWithin(events) && b in events && forall x :: RefersTo(b, x) <==> x in b.Dependencies()
    ensures ResolvesIn(b, events)
  {
    forall x | x in b.Dependencies() ensures x in Ids(events) && x != b.Id() {
      assert RefersTo(b, x);
      var d :| d in events && d.event.id == x;
      assert d.Id() == x;
    }
    forall d | d in events && DependsOn(b, d) ensures d.event.session == b.event.session {
      assert RefersTo(b, d.Id());
      var e :| e in events && e.event.id == d.Id() && e.event.session == b.event.session;
      SameIdSameEvent(events, d, e);
    }
  }

  ghost predicate IsAmongFirst(out: seq<BundleEvent>, k: nat, x: Id)
    requires k <= |out|
  {
    exists i :: 0 <= i < k && out[i].event.id == x
  }

  /** The order of an import: an event comes after everything it refers to, and of those that could come next
      the one created first comes, by identifier among equals. */
  ghost predicate ComesNext(events: seq<BundleEvent>, out: seq<BundleEvent>, k: nat)
    requires k < |out|
  {
    && (forall x :: RefersTo(out[k], x) ==> IsAmongFirst(out, k, x))
    && forall m :: k < m < |out| && (forall x :: RefersTo(out[m], x) ==> IsAmongFirst(out, k, x))
                   ==> out[k].event.createdAt < out[m].event.createdAt
                       || (out[k].event.createdAt == out[m].event.createdAt && out[k].event.id < out[m].event.id)
  }

  lemma ReadyOnFields(out: seq<BundleEvent>, k: nat, b: BundleEvent)
    requires k <= |out|
    ensures b.Dependencies() <= Ids(out[..k])
            <==> forall x :: RefersTo(b, x) ==> IsAmongFirst(out, k, x)
  {
    forall x ensures x in Ids(out[..k]) <==> IsAmongFirst(out, k, x) { IdsMember(out[..k], x); }
    if forall x :: RefersTo(b, x) ==> IsAmongFirst(out, k, x) {
      forall x | x in b.Dependencies() ensures x in Ids(out[..k]) { assert RefersTo(b, x); }
    }
    if b.Dependencies() <= Ids(out[..k]) {
      forall x | RefersTo(b, x) ensures IsAmongFirst(out, k, x) { assert x in b.Dependencies(); }
    }
  }

  lemma CanonicalOnFields(events: seq<BundleEvent>, out: seq<BundleEvent>, k: nat)
    requires Distinct(events) && multiset(out) == multiset(events) && Canonical(events, out) && k < |out|
    ensures ComesNext(events, out, k)
  {
    assert LeastReady(events, out, k);
    SameMembers(events, out);
    ReadyOnFields(out, k, out[k]);
    forall m | k < m < |out| && (forall x :: RefersTo(out[m], x) ==> IsAmongFirst(out, k, x))
      ensures out[k].event.createdAt < out[m].event.createdAt
              || (out[k].event.createdAt == out[m].event.createdAt && out[k].event.id < out[m].event.id)
    {
      ReadyOnFields(out, k, out[m]);
      assert LeastReady(events, out, m);
      forall i | 0 <= i < k ensures out[i] != out[m] { assert out[..m][i] == out[i]; }
      assert out[m] !in out[..k] && KeyAtMost(out[k].Key(), out[m].Key());
      assert out[..m][k] == out[k];
      if out[k].Id() == out[m].Id() { SameIdSameEvent(events, out[k], out[m]); }
    }
  }

  // ------------------------------------------------- the canonical order is unique

  /** Two canonical orders of the same events agree, whatever order the events were read in. */
  lemma {:induction false} CanonicalPrefix(one: seq<BundleEvent>, two: seq<BundleEvent>, a: seq<BundleEvent>,
                                           b: seq<BundleEvent>, k: nat)
    requires Distinct(one) && (forall e :: e in one <==> e in two)
    requires Canonical(one, a) && Canonical(two, b) && k <= |a| && k <= |b|
    ensures a[..k] == b[..k]
  {
    if k > 0 {
      CanonicalPrefix(one, two, a, b, k - 1);
      assert LeastReady(one, a, k - 1) && LeastReady(two, b, k - 1);
      assert a[..k - 1] == b[..k - 1];
      assert a[k - 1].Key() == b[k - 1].Key();
      SameIdSameEvent(one, a[k - 1], b[k - 1]);
      assert a[..k] == a[..k - 1] + [a[k - 1]] && b[..k] == b[..k - 1] + [b[k - 1]];
    }
  }

  lemma OrderIgnoresInputOrder(one: seq<BundleEvent>, two: seq<BundleEvent>, a: seq<BundleEvent>, b: seq<BundleEvent>)
    requires Distinct(one) && multiset(one) == multiset(two)
    requires multiset(a) == multiset(one) && multiset(b) == multiset(two)
    requires Canonical(one, a) && Canonical(two, b)
    ensures a == b
  {
    SameMembers(one, two);
    assert |multiset(a)| == |a| && |multiset(b)| == |b|;
    CanonicalPrefix(one, two, a, b, |a|);
    assert a[..|a|] == a && b[..|b|] == b;
  }

  // ------------------------------------------------------ success means no cycle

  /** Along a dependency the position in a canonical order strictly decreases. */
  lemma EarlierPosition(events: seq<BundleEvent>, out: seq<BundleEvent>, k: nat, d: BundleEvent) returns (j: nat)
    requires Distinct(events) && Canonical(events, out) && k < |out|
    requires d in events && DependsOn(out[k], d)
    ensures j < k && out[j] == d
  {
    assert LeastReady(events, out, k);
    IdsMember(out[..k], d.Id());
    j :| 0 <= j < k && out[..k][j].Id() == d.Id();
    assert LeastReady(events, out, j);
    SameIdSameEvent(events, out[j], d);
  }

  lemma {:induction false} WalkDescends(events: seq<BundleEvent>, out: seq<BundleEvent>, walk: seq<BundleEvent>, i: nat)
    returns (k: nat)
    requires Distinct(events) && Canonical(events, out) && (forall e :: e in events ==> e in out)
    requires i < |walk| && forall m :: 0 <= m < |walk| ==> walk[m] in events
    requires Descends(walk)
    ensures k < |out| && out[k] == walk[i]
    ensures i > 0 ==> exists p :: k < p < |out| && out[p] == walk[0]
  {
    if i == 0 {
      assert walk[0] in out;
      k :| 0 <= k < |out| && out[k] == walk[0];
    } else {
      var p := WalkDescends(events, out, walk, i - 1);
      k := EarlierPosition(events, out, p, walk[i]);
    }
  }

  lemma NoRepeats(events: seq<BundleEvent>, out: seq<BundleEvent>, k: nat, p: nat)
    requires Canonical(events, out) && k < p < |out|
    ensures out[k] != out[p]
  {
    assert LeastReady(events, out, p);
    assert out[..p][k] == out[k];
  }

  lemma SortedMeansAcyclic(events: seq<BundleEvent>, out: seq<BundleEvent>)
    requires Distinct(events) && Canonical(events, out) && (forall e :: e in events ==> e in out)
    ensures !Cyclic(events)
  {
    if walk :| Cycle(events, walk) {
      var k := WalkDescends(events, out, walk, |walk| - 1);
      var p :| k < p < |out| && out[p] == walk[0];
      NoRepeats(events, out, k, p);
    }
  }

  // ------------------------------------------------- a leftover contains a cycle

  /** Events stuck on each other: each depends on another of them. */
  ghost predicate Stuck(stuck: set<BundleEvent>) {
    forall b {:trigger Blocked(stuck, b)} :: b in stuck ==> Blocked(stuck, b)
  }

  ghost predicate Blocked(stuck: set<BundleEvent>, b: BundleEvent) {
    exists d :: d in stuck && DependsOn(b, d)
  }

  ghost predicate Within(walk: seq<BundleEvent>, events: set<BundleEvent>) {
    forall i :: 0 <= i < |walk| ==> walk[i] in events
  }

  lemma WalkGrows(walk: seq<BundleEvent>, d: BundleEvent)
    requires walk != [] && Descends(walk) && DependsOn(walk[|walk| - 1], d)
    ensures Descends(walk + [d])
  {
    var longer := walk + [d];
    forall i, j | 0 <= i < j < |longer| && j == i + 1 ensures DependsOn(longer[i], longer[j]) {
      if j < |walk| { assert DependsOn(walk[i], walk[j]); }
    }
  }

  lemma SliceDescends(walk: seq<BundleEvent>, lo: nat, hi: nat)
    requires Descends(walk) && lo <= hi <= |walk|
    ensures Descends(walk[lo..hi])
  {
    forall i, j | 0 <= i < j < hi - lo && j == i + 1 ensures DependsOn(walk[lo..hi][i], walk[lo..hi][j]) {
      assert DependsOn(walk[lo + i], walk[lo + j]);
    }
  }

  lemma {:induction false} WalkInside(stuck: set<BundleEvent>, n: nat) returns (walk: seq<BundleEvent>)
    requires Stuck(stuck) && stuck != {}
    ensures |walk| == n + 1 && Within(walk, stuck) && Descends(walk)
  {
    if n == 0 {
      var b := SomeMember(stuck);
      walk := [b];
    } else {
      var earlier := WalkInside(stuck, n - 1);
      assert Blocked(stuck, earlier[n - 1]);
      var d :| d in stuck && DependsOn(earlier[n - 1], d);
      WalkGrows(earlier, d);
      walk := earlier + [d];
    }
  }

  /** A sequence longer than the set it is drawn from repeats a value. */
  lemma {:induction false} Pigeonhole(walk: seq<BundleEvent>, holes: set<BundleEvent>) returns (i: nat, j: nat)
    requires |walk| > |holes| && Within(walk, holes)
    ensures i < j < |walk| && walk[i] == walk[j]
    decreases |walk|
  {
    var n := |walk| - 1;
    if k :| 0 <= k < n && walk[k] == walk[n] {
      i, j := k, n;
    } else {
      assert walk[n] in holes;
      var fewer := holes - {walk[n]};
      assert |fewer| == |holes| - 1;
      forall k | 0 <= k < n ensures walk[..n][k] in fewer {
        assert walk[k] in holes && walk[k] != walk[n];
      }
      i, j := Pigeonhole(walk[..n], fewer);
    }
  }

  lemma StuckMeansCyclic(events: seq<BundleEvent>, stuck: set<BundleEvent>)
    requires Stuck(stuck) && stuck != {} && forall b :: b in stuck ==> b in events
    ensures Cyclic(events)
  {
    var walk := WalkInside(stuck, |stuck|);
    var i, j := Pigeonhole(walk, stuck);
    var loop := walk[i..j + 1];
    forall k | 0 <= k < |loop| ensures loop[k] in events {
      assert loop[k] == walk[i + k] && walk[i + k] in stuck;
    }
    SliceDescends(walk, i, j + 1);
    assert Cycle(events, loop);
  }
}
