/** Rows that point at a parent row: the chain from the root to a row, and the loop that climbs it.
    Both the events of a log and the branches of a session form such a table. */
module Ancestry {
  import opened Common
  import opened Sorting

  datatype Node = Node(id: Id, up: Option<Id>)

  datatype ClimbError = Missing(id: Id) | Loop(id: Id)

  /** `SELECT ... WHERE id = ?`. */
  function Lookup(nodes: seq<Node>, id: Id): (n: Option<Node>)
    ensures n.Some? ==> n.value in nodes && n.value.id == id
    ensures n.None? ==> forall m :: m in nodes ==> m.id != id
  {
    if nodes == [] then None
    else
      var last := nodes[|nodes| - 1];
      assert nodes == nodes[..|nodes| - 1] + [last];
      if last.id == id then Some(last) else Lookup(nodes[..|nodes| - 1], id)
  }

  predicate Knows(nodes: seq<Node>, id: Id) {
    Lookup(nodes, id).Some?
  }

  /** Each row is new and points only at an earlier row. */
  ghost predicate Rooted(nodes: seq<Node>) {
    nodes != [] ==>
      var earlier := nodes[..|nodes| - 1];
      var last := nodes[|nodes| - 1];
      Rooted(earlier) && !Knows(earlier, last.id) && (last.up.Some? ==> Knows(earlier, last.up.value))
  }

  /** The ancestors of `id`, root first, ending with `id`. */
  function Chain(nodes: seq<Node>, id: Id): seq<Id> {
    if nodes == [] then []
    else
      var earlier := nodes[..|nodes| - 1];
      var last := nodes[|nodes| - 1];
      if last.id != id then Chain(earlier, id)
      else (if last.up.Some? then Chain(earlier, last.up.value) else []) + [id]
  }

  lemma ChainAppend(nodes: seq<Node>, n: Node, id: Id)
    ensures id != n.id ==> Chain(nodes + [n], id) == Chain(nodes, id) && Lookup(nodes + [n], id) == Lookup(nodes, id)
    ensures Chain(nodes + [n], n.id) == (if n.up.Some? then Chain(nodes, n.up.value) else []) + [n.id]
    ensures Lookup(nodes + [n], n.id) == Some(n)
    ensures Rooted(nodes + [n]) <==> Rooted(nodes) && !Knows(nodes, n.id) && (n.up.Some? ==> Knows(nodes, n.up.value))
  {
    assert (nodes + [n])[..|nodes|] == nodes;
  }

  lemma {:induction false} ChainMembers(nodes: seq<Node>, id: Id, x: Id)
    requires Rooted(nodes) && x in Chain(nodes, id)
    ensures Knows(nodes, x)
  {
    var earlier := nodes[..|nodes| - 1];
    var last := nodes[|nodes| - 1];
    if last.id != id {
      ChainMembers(earlier, id, x);
    } else if x != id {
      ChainMembers(earlier, last.up.value, x);
    }
  }

  lemma {:induction false} ChainEnds(nodes: seq<Node>, id: Id)
    ensures Knows(nodes, id) <==> Chain(nodes, id) != []
    ensures Knows(nodes, id) ==> Chain(nodes, id)[|Chain(nodes, id)| - 1] == id
  {
    if nodes != [] && nodes[|nodes| - 1].id != id {
      ChainEnds(nodes[..|nodes| - 1], id);
    }
  }

  /** Below the last row the chains are those of the earlier rows. */
  lemma ChainBelow(nodes: seq<Node>, id: Id)
    requires Rooted(nodes) && nodes != [] && Knows(nodes[..|nodes| - 1], id)
    ensures Chain(nodes, id) == Chain(nodes[..|nodes| - 1], id)
    ensures Lookup(nodes, id) == Lookup(nodes[..|nodes| - 1], id)
  {
  }

  /** A row's chain is its parent's chain and the row. */
  lemma {:induction false} ChainStep(nodes: seq<Node>, id: Id)
    requires Rooted(nodes) && Knows(nodes, id)
    ensures var up := Lookup(nodes, id).value.up;
            (up.Some? ==> Knows(nodes, up.value))
            && Chain(nodes, id) == (if up.Some? then Chain(nodes, up.value) else []) + [id]
  {
    var earlier := nodes[..|nodes| - 1];
    var last := nodes[|nodes| - 1];
    if last.id != id {
      ChainStep(earlier, id);
    }
    var up := Lookup(nodes, id).value.up;
    if up.Some? { ChainBelow(nodes, up.value); }
  }

  /** The chain of an ancestor is where the chain begins. */
  lemma {:induction false} ChainOfAncestor(nodes: seq<Node>, id: Id, x: Id)
    requires Rooted(nodes) && x in Chain(nodes, id)
    ensures Chain(nodes, x) <= Chain(nodes, id)
  {
    var earlier := nodes[..|nodes| - 1];
    var last := nodes[|nodes| - 1];
    if last.id != id {
      ChainMembers(earlier, id, x);
      ChainOfAncestor(earlier, id, x);
      ChainBelow(nodes, x);
    } else if x != id {
      ChainMembers(earlier, last.up.value, x);
      ChainOfAncestor(earlier, last.up.value, x);
      ChainBelow(nodes, x);
    }
  }

  lemma {:induction false} ChainRepeatsNothing(nodes: seq<Node>, id: Id)
    requires Rooted(nodes)
    ensures NoDuplicates(Chain(nodes, id))
  {
    if nodes != [] {
      var earlier := nodes[..|nodes| - 1];
      var last := nodes[|nodes| - 1];
      if last.id != id {
        ChainRepeatsNothing(earlier, id);
      } else if last.up.Some? {
        ChainRepeatsNothing(earlier, last.up.value);
        if id in Chain(earlier, last.up.value) { ChainMembers(earlier, last.up.value, id); }
      }
    }
  }

  // --------------------------------------------------------------------- climbing

  predicate PointsAt(nodes: seq<Node>, x: Id, y: Id) {
    Knows(nodes, x) && Lookup(nodes, x).value.up == Some(y)
  }

  /** Each row of the walk is known and points at the next. */
  ghost predicate Walk(nodes: seq<Node>, walk: seq<Id>) {
    forall i, j :: 0 <= i < j < |walk| && j == i + 1 ==> PointsAt(nodes, walk[i], walk[j])
  }

  function Reversed(walk: seq<Id>): (r: seq<Id>)
    ensures |r| == |walk|
    ensures forall i :: 0 <= i < |walk| ==> r[i] == walk[|walk| - 1 - i]
  {
    if walk == [] then [] else Reversed(walk[1..]) + [walk[0]]
  }

  lemma {:induction false} ReversedSnoc(walk: seq<Id>, x: Id)
    ensures Reversed(walk + [x]) == [x] + Reversed(walk)
  {
    if walk != [] {
      ReversedSnoc(walk[1..], x);
      assert (walk + [x])[1..] == walk[1..] + [x];
    }
  }

  /** What the climb from `start` finds: the whole chain, a missing row, or a row met twice. */
  ghost predicate Finds(nodes: seq<Node>, start: Id, walk: seq<Id>, r: Result<seq<Id>, ClimbError>) {
    && walk != [] && walk[0] == start && Walk(nodes, walk)
    && match r
       case Ok(chain) =>
         && chain == Reversed(walk) && NoDuplicates(walk)
         && Knows(nodes, walk[|walk| - 1]) && Lookup(nodes, walk[|walk| - 1]).value.up.None?
       case Err(Missing(id)) => walk[|walk| - 1] == id && !Knows(nodes, id)
       case Err(Loop(id)) => walk[|walk| - 1] == id && id in walk[..|walk| - 1]
  }

  ghost function Ids(nodes: seq<Node>): set<Id> {
    set n | n in nodes :: n.id
  }

  /** What is left of the chain while climbing. */
  ghost predicate Remaining(nodes: seq<Node>, start: Id, walked: seq<Id>, current: Option<Id>) {
    && (current.Some? ==> Knows(nodes, current.value))
    && Chain(nodes, start) == (if current.Some? then Chain(nodes, current.value) else []) + Reversed(walked)
  }

  lemma NotRepeated(before: seq<Id>, walked: seq<Id>, id: Id)
    requires before != [] && before[|before| - 1] == id && NoDuplicates(before + Reversed(walked))
    ensures id !in walked
  {
    var all := before + Reversed(walked);
    forall i | 0 <= i < |walked| ensures walked[i] != id {
      assert all[|before| + (|walked| - 1 - i)] == walked[i] && all[|before| - 1] == id;
    }
  }

  lemma RemainingStep(nodes: seq<Node>, start: Id, walked: seq<Id>, id: Id)
    requires Rooted(nodes) && Remaining(nodes, start, walked, Some(id))
    ensures id !in walked
    ensures Remaining(nodes, start, walked + [id], Lookup(nodes, id).value.up)
  {
    ChainStep(nodes, id);
    ReversedSnoc(walked, id);
    ChainRepeatsNothing(nodes, start);
    NotRepeated(Chain(nodes, id), walked, id);
    var up := Lookup(nodes, id).value.up;
    Associative(if up.Some? then Chain(nodes, up.value) else [], [id], Reversed(walked));
  }

  lemma WalkStep(nodes: seq<Node>, walked: seq<Id>, id: Id)
    requires Walk(nodes, walked) && (walked != [] ==> PointsAt(nodes, walked[|walked| - 1], id))
    ensures Walk(nodes, walked + [id])
  {
    var longer := walked + [id];
    forall i, j | 0 <= i < j < |longer| && j == i + 1
      ensures PointsAt(nodes, longer[i], longer[j])
    {
      if j < |walked| { assert PointsAt(nodes, walked[i], walked[j]); }
    }
  }

  /** The loop of `_parent_chain` and of the branch lineage. */
  method Climb(nodes: seq<Node>, start: Id) returns (r: Result<seq<Id>, ClimbError>)
    ensures exists walk :: Finds(nodes, start, walk, r)
    ensures Rooted(nodes) ==> r == if Knows(nodes, start) then Ok(Chain(nodes, start)) else Err(Missing(start))
  {
    var walked: seq<Id> := [];
    var seen: set<Id> := {};
    var current := Some(start);
    assert Chain(nodes, start) + [] == Chain(nodes, start);
    while current.Some?
      invariant Walk(nodes, walked) && NoDuplicates(walked)
      invariant forall x :: x in walked <==> x in seen
      invariant seen <= Ids(nodes)
      invariant walked == [] ==> current == Some(start)
      invariant walked != [] ==> walked[0] == start && Knows(nodes, start) && Knows(nodes, walked[|walked| - 1])
                                 && Lookup(nodes, walked[|walked| - 1]).value.up == current
      invariant Rooted(nodes) && Knows(nodes, start) ==> Remaining(nodes, start, walked, current)
      decreases Ids(nodes) - seen, current.Some?
    {
      var id := current.value;
      WalkStep(nodes, walked, id);
      if Rooted(nodes) && Knows(nodes, start) { RemainingStep(nodes, start, walked, id); }
      if id in seen {
        r := Err(Loop(id));
        assert Finds(nodes, start, walked + [id], r);
        return;
      }
      var row := Lookup(nodes, id);
      if row.None? {
        r := Err(Missing(id));
        assert Finds(nodes, start, walked + [id], r);
        return;
      }
      assert id in Ids(nodes) && id !in seen;
      seen := seen + {id};
      walked := walked + [id];
      current := row.value.up;
    }
    r := Ok(Reversed(walked));
    assert [] + Reversed(walked) == Reversed(walked);
    assert Finds(nodes, start, walked, r);
  }
}
