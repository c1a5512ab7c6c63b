/** What holds of visible history in every reachable state: it is closed under parents, stays within
    the branch's lineage, and is touched by no other branch. */
module BranchVisibility {
  import opened Common
  import opened Sorting
  import opened Ancestry
  import opened BranchHistory

  /** Visibility as a set. */
  lemma VisibleIsSeen(s: State, b: Id, x: Id)
    requires Inv(s)
    ensures x in Visible(s, b) <==> Sees(s, b, x)
  {
    DedupMembers(Inherited(s, b) + Own(s.log, b), x);
    OwnMembers(s.log, b, x);
  }

  lemma {:induction false} OnMembers(log: seq<BranchEvent>, b: Id)
    ensures forall e :: e in On(log, b) <==> e in log && e.branch == Some(b)
  {
    if log != [] {
      OnMembers(log[..|log| - 1], b);
      assert log == log[..|log| - 1] + [log[|log| - 1]];
    }
  }

  lemma OwnMembers(log: seq<BranchEvent>, b: Id, x: Id)
    requires Rooted(EventNodes(log))
    ensures x in Own(log, b) <==> EventAt(log, x).Some? && EventAt(log, x).value.branch == Some(b)
  {
    var sorted := InOrder(On(log, b));
    OnMembers(log, b);
    SameMembers(On(log, b), sorted);
    if i :| 0 <= i < |sorted| && sorted[i].id == x {
      assert sorted[i] in sorted;
      KnownIfMember(log, sorted[i]);
    }
    if EventAt(log, x).Some? && EventAt(log, x).value.branch == Some(b) {
      assert EventAt(log, x).value in sorted;
      var i :| 0 <= i < |sorted| && sorted[i] == EventAt(log, x).value;
      assert Own(log, b)[i] == x;
    }
  }

  // -------------------------------------------------------------- closed under parents

  lemma VisibleIsParentClosed(s: State, b: Id, x: Id)
    requires Inv(s) && x in Visible(s, b)
    ensures EventAt(s.log, x).Some?
    ensures var parent := EventAt(s.log, x).value.parent; parent.Some? ==> parent.value in Visible(s, b)
  {
    VisibleIsSeen(s, b, x);
    EventNode(s.log, x);
    var nodes := EventNodes(s.log);
    if x in Inherited(s, b) {
      var fork := BranchAt(s.branches, b).value.fork.value;
      ChainMembers(nodes, fork, x);
      ChainOfAncestor(nodes, fork, x);
      ChainStep(nodes, x);
      var up := Lookup(nodes, x).value.up;
      if up.Some? {
        ChainEnds(nodes, up.value);
        assert up.value in Chain(nodes, x);
        VisibleIsSeen(s, b, up.value);
      }
    } else {
      var e := EventAt(s.log, x).value;
      assert ParentSeen(s, e);
      if e.parent.Some? { VisibleIsSeen(s, b, e.parent.value); }
    }
  }

  /** So the whole ancestry of a visible event is visible. */
  lemma {:induction false} AncestryIsVisible(s: State, b: Id, x: Id, y: Id)
    requires Inv(s) && x in Visible(s, b) && y in Chain(EventNodes(s.log), x)
    ensures y in Visible(s, b)
    decreases |Chain(EventNodes(s.log), x)|
  {
    VisibleIsParentClosed(s, b, x);
    EventNode(s.log, x);
    ChainStep(EventNodes(s.log), x);
    if y != x {
      AncestryIsVisible(s, b, EventAt(s.log, x).value.parent.value, y);
    }
  }

  // ---------------------------------------------------------------- within the lineage

  ghost predicate OnLineage(s: State, c: Id, x: Id) {
    EventAt(s.log, x).Some? && EventAt(s.log, x).value.branch.Some?
    && (EventAt(s.log, x).value.branch.value == c || EventAt(s.log, x).value.branch.value in Lineage(s, c))
  }

  /** The ancestry of an event on branch `c` never leaves the lineage of `c`. */
  lemma {:induction false} AncestryStaysOnLineage(s: State, c: Id, y: Id, z: Id)
    requires Inv(s) && EventAt(s.log, y).Some? && EventAt(s.log, y).value.branch == Some(c)
    requires z in Chain(EventNodes(s.log), y)
    ensures OnLineage(s, c, z)
    decreases |Lineage(s, c)|, |Chain(EventNodes(s.log), y)|
  {
    var nodes := EventNodes(s.log);
    EventNode(s.log, y);
    ChainStep(nodes, y);
    if z != y {
      var e := EventAt(s.log, y).value;
      assert ParentSeen(s, e);
      var p := e.parent.value;
      if p in Inherited(s, c) {
        var fork := BranchAt(s.branches, c).value.fork.value;
        assert RowSound(s, c);
        var above := BranchAt(s.branches, c).value.parent.value;
        BranchNode(s.branches, c);
        ChainStep(BranchNodes(s.branches), c);
        ChainOfAncestor(nodes, fork, p);
        BranchNode(s.branches, above);
        AncestryStaysOnLineage(s, above, fork, z);
        ChainEnds(BranchNodes(s.branches), above);
      } else {
        AncestryStaysOnLineage(s, c, p, z);
      }
    }
  }

  /** Whatever a branch with a row shows, and all its ancestry, is on the branch's lineage. */
  lemma VisibleStaysOnLineage(s: State, b: Id, x: Id, z: Id)
    requires Inv(s) && BranchAt(s.branches, b).Some? && x in Visible(s, b)
    requires z in Chain(EventNodes(s.log), x)
    ensures EventAt(s.log, z).Some? && EventAt(s.log, z).value.branch.Some?
    ensures EventAt(s.log, z).value.branch.value in Lineage(s, b)
  {
    BranchNode(s.branches, b);
    ChainEnds(BranchNodes(s.branches), b);
    VisibleIsSeen(s, b, x);
    if x in Inherited(s, b) {
      var nodes := EventNodes(s.log);
      var fork := BranchAt(s.branches, b).value.fork.value;
      assert RowSound(s, b);
      var above := BranchAt(s.branches, b).value.parent.value;
      ChainOfAncestor(nodes, fork, x);
      AncestryStaysOnLineage(s, above, fork, z);
      ChainStep(BranchNodes(s.branches), b);
      BranchNode(s.branches, above);
      ChainEnds(BranchNodes(s.branches), above);
    } else {
      AncestryStaysOnLineage(s, b, x, z);
    }
  }

  // --------------------------------------------------------------- no repeated events

  lemma OwnRepeatsNothing(log: seq<BranchEvent>, b: Id)
    requires Rooted(EventNodes(log))
    ensures NoDuplicates(Own(log, b))
  {
    OnRepeatsNothing(log, b);
    OnMembers(log, b);
    var sorted := InOrder(On(log, b));
    SameMembers(On(log, b), sorted);
    NoDuplicatesReordered(On(log, b), sorted);
    forall i, j | 0 <= i < j < |sorted| ensures sorted[i].id != sorted[j].id {
      assert sorted[i] in sorted && sorted[j] in sorted;
      KnownIfMember(log, sorted[i]);
      KnownIfMember(log, sorted[j]);
    }
  }

  lemma {:induction false} OnRepeatsNothing(log: seq<BranchEvent>, b: Id)
    requires Rooted(EventNodes(log))
    ensures NoDuplicates(On(log, b))
  {
    if log != [] {
      var n := |log| - 1;
      assert EventNodes(log)[..n] == EventNodes(log[..n]);
      OnRepeatsNothing(log[..n], b);
      OnMembers(log[..n], b);
      EventNode(log[..n], log[n].id);
      assert forall e :: e in On(log[..n], b) ==> e.id != log[n].id;
    }
  }

  /** What is inherited is never the branch's own, so nothing is dropped as a repeat. */
  lemma VisibleIsInheritedThenOwn(s: State, b: Id)
    requires Inv(s)
    ensures Visible(s, b) == Inherited(s, b) + Own(s.log, b)
    ensures NoDuplicates(Visible(s, b))
  {
    var inherited, own := Inherited(s, b), Own(s.log, b);
    OwnRepeatsNothing(s.log, b);
    if inherited != [] {
      ChainRepeatsNothing(EventNodes(s.log), BranchAt(s.branches, b).value.fork.value);
      forall x | x in inherited ensures x !in own { InheritedIsNotOwn(s, b, x); }
    }
    assert NoDuplicates(inherited + own) by {
      forall i, j | 0 <= i < j < |inherited + own| ensures (inherited + own)[i] != (inherited + own)[j] {
        if i < |inherited| <= j { assert inherited[i] in inherited && own[j - |inherited|] in own; }
      }
    }
    DedupNothing(inherited + own);
  }

  lemma InheritedIsNotOwn(s: State, b: Id, x: Id)
    requires Inv(s) && x in Inherited(s, b)
    ensures x !in Own(s.log, b)
  {
    OwnMembers(s.log, b, x);
    var rows := BranchNodes(s.branches);
    var row := BranchAt(s.branches, b).value;
    assert RowSound(s, b);
    AncestryStaysOnLineage(s, row.parent.value, row.fork.value, x);
    BranchNode(s.branches, b);
    ChainStep(rows, b);
    ChainEnds(rows, row.parent.value);
    ChainRepeatsNothing(rows, b);
    var lineage := Chain(rows, b);
    assert lineage[|lineage| - 1] == b;
    forall i | 0 <= i < |lineage| - 1 ensures Chain(rows, row.parent.value)[i] != b {
      assert lineage[i] == Chain(rows, row.parent.value)[i];
    }
  }

  // ----------------------------------------------------------------------- isolation

  lemma {:induction false} OnAppend(log: seq<BranchEvent>, e: BranchEvent, b: Id)
    ensures On(log + [e], b) == On(log, b) + if e.branch == Some(b) then [e] else []
  {
    assert (log + [e])[..|log|] == log;
  }

  /** One step on another branch changes nothing a branch shows. */
  lemma OtherBranchesDoNotShow(s: State, e: BranchEvent, b: Id)
    requires Inv(s) && Follows(s, e) && e.branch != Some(b)
    ensures Visible(Next(s, e), b) == Visible(s, b)
  {
    InheritedAfter(s, e, b);
    OnAppend(s.log, e, b);
    assert On(s.log, b) + [] == On(s.log, b);
  }

  /** Branch isolation: no sequence of steps elsewhere, on the parent or on siblings, shows. */
  lemma {:induction false} BranchIsolation(s: State, steps: seq<BranchEvent>, t: State, b: Id)
    requires Inv(s) && Leads(s, steps, t) && forall i :: 0 <= i < |steps| ==> steps[i].branch != Some(b)
    ensures Inv(t) && Visible(t, b) == Visible(s, b)
    decreases |steps|
  {
    if steps != [] {
      OtherBranchesDoNotShow(s, steps[0], b);
      StepKeeps(s, steps[0]);
      BranchIsolation(Next(s, steps[0]), steps[1..], t, b);
    }
  }

  /** An event of the branch itself leaves the inherited prefix alone and adds only itself. */
  lemma OwnEventsKeepTheInheritedPrefix(s: State, e: BranchEvent, b: Id, x: Id)
    requires Inv(s) && Follows(s, e) && e.branch == Some(b) && BranchAt(s.branches, b).Some?
    ensures Inherited(s, b) <= Visible(Next(s, e), b)
    ensures x in Visible(Next(s, e), b) <==> x in Visible(s, b) || x == e.id
    ensures |Visible(Next(s, e), b)| == |Visible(s, b)| + 1
  {
    StepKeeps(s, e);
    InheritedAfter(s, e, b);
    VisibleIsInheritedThenOwn(s, b);
    VisibleIsInheritedThenOwn(Next(s, e), b);
    OnAppend(s.log, e, b);
    VisibleIsSeen(s, b, x);
    VisibleIsSeen(Next(s, e), b, x);
    EventAppend(s.log, e, x);
    SameMembers(On(s.log, b), InOrder(On(s.log, b)));
    SameMembers(On(s.log + [e], b), InOrder(On(s.log + [e], b)));
  }

  /** The newest event of a branch is shown last. */
  lemma NewestIsLast(s: State, e: BranchEvent, b: Id)
    requires Inv(s) && Follows(s, e) && e.branch == Some(b) && BranchAt(s.branches, b).Some?
    requires forall d :: d in On(s.log, b) ==> KeyAtMost(d.Key(), e.Key())
    ensures Visible(Next(s, e), b) == Visible(s, b) + [e.id]
  {
    StepKeeps(s, e);
    InheritedAfter(s, e, b);
    VisibleIsInheritedThenOwn(s, b);
    VisibleIsInheritedThenOwn(Next(s, e), b);
    OwnAppend(s.log, e, b);
    Associative(Inherited(s, b), Own(s.log, b), [e.id]);
  }

  lemma SortNewest(events: seq<BranchEvent>, e: BranchEvent)
    requires forall d :: d in events ==> KeyAtMost(d.Key(), e.Key())
    ensures InOrder(events + [e]) == InOrder(events) + [e]
  {
    var key := (d: BranchEvent) => d.Key();
    var rest := SortBy(events, key);
    SameMembers(events, rest);
    assert (events + [e])[..|events|] == events;
    assert Slot(e, rest, key) == |rest| by {
      if rest != [] { assert rest[|rest| - 1] in rest; }
    }
    assert rest[..|rest|] == rest;
  }

  lemma FirstOwn(log: seq<BranchEvent>, e: BranchEvent, b: Id)
    requires On(log, b) == [] && e.branch == Some(b)
    ensures Own(log + [e], b) == [e.id]
  {
    OnAppend(log, e, b);
    assert On(log + [e], b) == [e];
    SortNewest([], e);
  }

  lemma OwnAppend(log: seq<BranchEvent>, e: BranchEvent, b: Id)
    requires e.branch == Some(b) && forall d :: d in On(log, b) ==> KeyAtMost(d.Key(), e.Key())
    ensures Own(log + [e], b) == Own(log, b) + [e.id]
  {
    OnAppend(log, e, b);
    SortNewest(On(log, b), e);
    IdsSnoc(InOrder(On(log, b)), e);
  }

  lemma IdsSnoc(events: seq<BranchEvent>, e: BranchEvent)
    ensures EventIds(events + [e]) == EventIds(events) + [e.id]
  {
  }

  /** A new fork shows exactly the ancestry of the event it forks from, then the fork itself,
      whatever else was happening on the parent branch at the time. */
  lemma ForkShowsItsOrigin(s: State, e: BranchEvent)
    requires Inv(s) && Follows(s, e) && e.operation.Forked? && On(s.log, e.operation.branch) == []
    ensures Visible(Next(s, e), e.operation.branch) == Chain(EventNodes(s.log), e.operation.forkEvent) + [e.id]
  {
    var b := e.operation.branch;
    StepKeeps(s, e);
    ProjectRow(s.branches, e, b);
    RowAppend(s.branches, NewRow(s.branches, e).value, b);
    VisibleIsInheritedThenOwn(Next(s, e), b);
    EventAppend(s.log, e, e.operation.forkEvent);
    FirstOwn(s.log, e, b);
  }
}
