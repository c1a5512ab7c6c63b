/** Citation graphs, possibly cyclic and with dangling references, and what reaches a seed. */
module LineageGraph {

  type Ref = string

  /** What each known event cites; a citation need not be known. */
  type Graph = map<Ref, set<Ref>>

  predicate Cites(g: Graph, x: Ref, y: Ref) {
    x in g && y in g[x]
  }

  ghost predicate Trail(g: Graph, path: seq<Ref>) {
    && path != []
    && (forall i :: 0 <= i < |path| ==> path[i] in g)
    && (forall i, j :: 0 <= i < j < |path| && j == i + 1 ==> Cites(g, path[i], path[j]))
  }

  /** `x` is a seed or cites, through known events, one that is. */
  ghost predicate Reaches(g: Graph, seeds: set<Ref>, x: Ref) {
    exists path :: Trail(g, path) && path[0] == x && path[|path| - 1] in seeds
  }

  lemma SeedReaches(g: Graph, seeds: set<Ref>, x: Ref)
    requires x in g && x in seeds
    ensures Reaches(g, seeds, x)
  {
    assert Trail(g, [x]);
  }

  lemma CiterReaches(g: Graph, seeds: set<Ref>, x: Ref, y: Ref)
    requires Cites(g, x, y) && Reaches(g, seeds, y)
    ensures Reaches(g, seeds, x)
  {
    var path :| Trail(g, path) && path[0] == y && path[|path| - 1] in seeds;
    var longer := [x] + path;
    forall i, j | 0 <= i < j < |longer| && j == i + 1 ensures Cites(g, longer[i], longer[j]) {
      if i > 0 { assert Cites(g, path[i - 1], path[j - 1]); }
    }
    assert Trail(g, longer);
  }

  lemma TrailTail(g: Graph, path: seq<Ref>, k: nat)
    requires Trail(g, path) && k < |path|
    ensures Trail(g, path[k..]) && path[k..][0] == path[k] && path[k..][|path| - k - 1] == path[|path| - 1]
    ensures k + 1 < |path| ==> Cites(g, path[k], path[k + 1])
  {
    forall i, j | 0 <= i < j < |path| - k && j == i + 1 ensures Cites(g, path[k..][i], path[k..][j]) {
      assert Cites(g, path[k + i], path[k + j]);
    }
  }

  // --------------------------------------------------------------------- closed sets

  /** Contains each known event that cites one of its members. */
  ghost predicate ClosedUnderCiting(g: Graph, s: set<Ref>) {
    forall x {:trigger CitesInto(g, x, s)} :: CitesInto(g, x, s) ==> x in s
  }

  ghost predicate CitesInto(g: Graph, x: Ref, s: set<Ref>) {
    exists y :: y in s && Cites(g, x, y)
  }

  /** Contains each known event that a member cites. */
  ghost predicate ClosedUnderCited(g: Graph, s: set<Ref>) {
    forall x, y :: x in s && Cites(g, x, y) && y in g ==> y in s
  }

  lemma {:induction false} ClosedCatchesPath(g: Graph, s: set<Ref>, path: seq<Ref>)
    requires ClosedUnderCiting(g, s) && Trail(g, path) && path[|path| - 1] in s
    ensures path[0] in s
    decreases |path|
  {
    if |path| > 1 {
      TrailTail(g, path, 1);
      TrailTail(g, path, 0);
      ClosedCatchesPath(g, s, path[1..]);
      assert CitesInto(g, path[0], s);
    }
  }

  /** A closed set that holds the seeds holds everything that reaches one. */
  lemma ClosedCatches(g: Graph, seeds: set<Ref>, s: set<Ref>, x: Ref)
    requires ClosedUnderCiting(g, s) && (forall y :: y in seeds && y in g ==> y in s) && Reaches(g, seeds, x)
    ensures x in s
  {
    var path :| Trail(g, path) && path[0] == x && path[|path| - 1] in seeds;
    ClosedCatchesPath(g, s, path);
  }

  lemma {:induction false} ClosedFollowsPath(g: Graph, s: set<Ref>, path: seq<Ref>)
    requires ClosedUnderCited(g, s) && Trail(g, path) && path[0] in s
    ensures path[|path| - 1] in s
    decreases |path|
  {
    if |path| > 1 {
      TrailTail(g, path, 1);
      TrailTail(g, path, 0);
      ClosedFollowsPath(g, s, path[1..]);
    }
  }

  /** Nothing in a set closed under citations and free of seeds reaches a seed. */
  lemma ClosedAvoids(g: Graph, seeds: set<Ref>, s: set<Ref>, x: Ref)
    requires ClosedUnderCited(g, s) && s !! seeds && x in s
    ensures !Reaches(g, seeds, x)
  {
    if path :| Trail(g, path) && path[0] == x && path[|path| - 1] in seeds {
      ClosedFollowsPath(g, s, path);
    }
  }

  ghost function Lineage(g: Graph, seeds: set<Ref>): set<Ref> {
    set x | x in g && Reaches(g, seeds, x)
  }

  /** The lineage is the least set that holds the known seeds and whatever cites a member. */
  lemma LineageIsLeast(g: Graph, seeds: set<Ref>)
    ensures ClosedUnderCiting(g, Lineage(g, seeds))
    ensures forall x :: x in seeds && x in g ==> x in Lineage(g, seeds)
    ensures forall s {:trigger ClosedUnderCiting(g, s)} ::
              ClosedUnderCiting(g, s) && (forall x :: x in seeds && x in g ==> x in s) ==> Lineage(g, seeds) <= s
  {
    forall x | x in seeds && x in g ensures x in Lineage(g, seeds) { SeedReaches(g, seeds, x); }
    forall x | CitesInto(g, x, Lineage(g, seeds)) ensures x in Lineage(g, seeds) {
      var y :| y in Lineage(g, seeds) && Cites(g, x, y);
      CiterReaches(g, seeds, x, y);
    }
    forall s, x | ClosedUnderCiting(g, s) && (forall y :: y in seeds && y in g ==> y in s) && x in Lineage(g, seeds)
      ensures x in s
    {
      ClosedCatches(g, seeds, s, x);
    }
  }

  /** A set between the seeds and their lineage that is closed is the lineage. */
  lemma ClosedSoundSetIsLineage(g: Graph, seeds: set<Ref>, s: set<Ref>)
    requires ClosedUnderCiting(g, s) && (forall x :: x in seeds && x in g ==> x in s) && s <= Lineage(g, seeds)
    ensures s == Lineage(g, seeds)
  {
    LineageIsLeast(g, seeds);
  }

  /** `y` is reached from `x` through known events. */
  ghost predicate Linked(g: Graph, x: Ref, y: Ref) {
    Reaches(g, {y}, x)
  }

  lemma LinkOn(g: Graph, x: Ref, y: Ref, z: Ref)
    requires Linked(g, x, y) && Cites(g, y, z) && z in g
    ensures Linked(g, x, z)
  {
    SeedReaches(g, {z}, z);
    LineageIsLeast(g, {z});
    CiterReaches(g, {z}, y, z);
    ClosedCatches(g, {y}, Lineage(g, {z}), x);
  }

  lemma LinkToSeed(g: Graph, seeds: set<Ref>, x: Ref, y: Ref)
    requires Linked(g, x, y) && y in seeds
    ensures Reaches(g, seeds, x)
  {
    var path :| Trail(g, path) && path[0] == x && path[|path| - 1] in {y};
  }

  /** The known events reached from `x`. */
  ghost function ReachedFrom(g: Graph, x: Ref): set<Ref> {
    set y | y in g && Linked(g, x, y)
  }

  /** A closed set of reached events that holds the start holds them all. */
  lemma ClosedReachesAll(g: Graph, x: Ref, s: set<Ref>, y: Ref)
    requires ClosedUnderCited(g, s) && x in s && y in ReachedFrom(g, x)
    ensures y in s
  {
    if y !in s { ClosedAvoids(g, {y}, s, x); }
  }

  // ------------------------------------------------------------- comparing graphs

  /** The graphs differ only in citations of oneself and of unknown events. */
  ghost predicate SameButDangling(g: Graph, h: Graph) {
    g.Keys == h.Keys && forall x, y :: x in g && y in g && x != y ==> (Cites(g, x, y) <==> Cites(h, x, y))
  }

  lemma ReachesInEither(g: Graph, h: Graph, seeds: set<Ref>, x: Ref)
    requires SameButDangling(g, h) && Reaches(g, seeds, x)
    ensures Reaches(h, seeds, x)
  {
    var s := Lineage(h, seeds);
    LineageIsLeast(h, seeds);
    forall a | CitesInto(g, a, s) ensures a in s {
      var b :| b in s && Cites(g, a, b);
      if a != b { assert Cites(h, a, b) && CitesInto(h, a, s); }
    }
    ClosedCatches(g, seeds, s, x);
  }

  lemma SameLineage(g: Graph, h: Graph, seeds: set<Ref>)
    requires SameButDangling(g, h)
    ensures Lineage(g, seeds) == Lineage(h, seeds)
    ensures forall x :: Reaches(g, seeds, x) <==> Reaches(h, seeds, x)
  {
    forall x ensures Reaches(g, seeds, x) <==> Reaches(h, seeds, x) {
      if Reaches(g, seeds, x) { ReachesInEither(g, h, seeds, x); }
      if Reaches(h, seeds, x) { ReachesInEither(h, g, seeds, x); }
    }
  }

  lemma SameSeedsSameLineage(g: Graph, seeds: set<Ref>, others: set<Ref>)
    requires forall x :: x in g ==> (x in seeds <==> x in others)
    ensures Lineage(g, seeds) == Lineage(g, others)
  {
    LineageIsLeast(g, seeds);
    LineageIsLeast(g, others);
  }

  /** More seeds reach no further exactly when each extra one already reaches one of the others. */
  lemma MoreSeedsAgreeIff(g: Graph, all: set<Ref>, some: set<Ref>)
    requires forall x :: x in g && x in some ==> x in all
    ensures Lineage(g, all) == Lineage(g, some) <==> forall x :: x in g && x in all && x !in some ==> x in Lineage(g, some)
  {
    LineageIsLeast(g, all);
    LineageIsLeast(g, some);
    assert ClosedUnderCiting(g, Lineage(g, all)) && ClosedUnderCiting(g, Lineage(g, some));
  }

  /** The graph of the events that survive a filter. */
  ghost function Restrict(g: Graph, gone: set<Ref>): Graph {
    map x | x in g && x !in gone :: g[x]
  }

  /** Restricting to the survivors of one lineage leaves exactly the rest of the other: filters compose
      to the union of the lineages computed on the full graph. */
  lemma LineageWithinSurvivors(g: Graph, first: set<Ref>, second: set<Ref>, x: Ref)
    ensures x in Lineage(Restrict(g, Lineage(g, first)), second) <==>
            x in Lineage(g, second) && x !in Lineage(g, first)
  {
    var gone := Lineage(g, first);
    var kept := Restrict(g, gone);
    LineageIsLeast(g, first);
    LineageIsLeast(g, second);
    LineageIsLeast(kept, second);
    if x in Lineage(kept, second) {
      forall a | CitesInto(kept, a, Lineage(g, second)) ensures a in Lineage(g, second) {
        var b :| b in Lineage(g, second) && Cites(kept, a, b);
        assert Cites(g, a, b) && CitesInto(g, a, Lineage(g, second));
      }
      ClosedCatches(kept, second, Lineage(g, second), x);
    }
    if x in Lineage(g, second) && x !in gone {
      var s := gone + Lineage(kept, second);
      forall a | CitesInto(g, a, s) ensures a in s {
        var b :| b in s && Cites(g, a, b);
        if b in gone {
          assert CitesInto(g, a, gone);
        } else if a !in gone {
          assert Cites(kept, a, b) && CitesInto(kept, a, Lineage(kept, second));
        }
      }
      ClosedCatches(g, second, s, x);
    }
  }

  // ------------------------------------------------------------ one more event

  /** `h` is `g` with the event `e`, which `g` may already hold. */
  ghost predicate Extends(g: Graph, h: Graph, seeds: set<Ref>, more: set<Ref>, e: Ref) {
    && h.Keys == g.Keys + {e} && (forall x :: x in g ==> h[x] == g[x])
    && (forall x :: x in g ==> (x in seeds <==> x in more))
  }

  lemma ReachesInExtension(g: Graph, h: Graph, seeds: set<Ref>, more: set<Ref>, e: Ref, y: Ref)
    requires Extends(g, h, seeds, more, e) && Reaches(g, seeds, y)
    ensures Reaches(h, more, y)
  {
    var s := Lineage(h, more);
    LineageIsLeast(h, more);
    forall a | CitesInto(g, a, s) ensures a in s {
      var b :| b in s && Cites(g, a, b);
      assert Cites(h, a, b) && CitesInto(h, a, s);
    }
    forall a | a in seeds && a in g ensures a in s { assert a in more; }
    ClosedCatches(g, seeds, s, y);
  }

  /** The new event reaches a seed only as one or through a citation that did without it. */
  lemma NewEventAvoids(g: Graph, h: Graph, seeds: set<Ref>, more: set<Ref>, e: Ref)
    requires Extends(g, h, seeds, more, e)
    requires e !in more && forall y :: y in h[e] ==> !Reaches(g, seeds, y)
    ensures !Reaches(h, more, e)
  {
    var all := Lineage(g, seeds);
    var s := all - {e};
    LineageIsLeast(g, seeds);
    forall a | CitesInto(h, a, s) ensures a in s {
      var b :| b in s && Cites(h, a, b);
      assert Reaches(g, seeds, b);
      assert a != e;
      assert Cites(g, a, b) && CitesInto(g, a, all);
    }
    if Reaches(h, more, e) {
      ClosedCatches(h, more, s, e);
    }
  }
}
