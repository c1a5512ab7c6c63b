/** The branches of a bundle: one root, one origin for each other branch, and no other way across. */
module BundleLineage {
  import opened Common
  import opened JobContract
  import opened BundleOrder
  import opened BundleSort

  datatype LineageError = RepeatedIds | NoSingleRoot | NoBranch | NoSingleOrigin | RootIsForked | Crosses | OriginDisagrees

  /** The event at `root` is the only one that opens the session, and it is on a branch. */
  ghost predicate SingleRoot(bundle: seq<BundleEvent>, root: nat) {
    && root < |bundle| && bundle[root].event.branch.Some?
    && forall i :: 0 <= i < |bundle| ==> (bundle[i].role.OpensSession? <==> i == root)
  }

  ghost predicate OnBranches(bundle: seq<BundleEvent>) {
    forall b :: b in bundle ==> b.event.branch.Some?
  }

  predicate ForksOn(b: BundleEvent, branch: Option<string>) {
    b.role.ForksBranch? && b.event.branch == branch
  }

  /** How many forks introduce the branch. */
  function Forks(bundle: seq<BundleEvent>, branch: Option<string>): nat {
    if bundle == [] then 0
    else
      var n := |bundle| - 1;
      Forks(bundle[..n], branch) + if ForksOn(bundle[n], branch) then 1 else 0
  }

  predicate CrossesTo(b: BundleEvent, parent: BundleEvent) {
    b.event.parent == Some(parent.Id()) && parent.event.branch != b.event.branch
  }

  predicate Agrees(b: BundleEvent, parent: BundleEvent) {
    b.role == ForksBranch(Some(parent.Id()), parent.event.branch, b.event.branch)
  }

  /** Event `i` introduces the branch. */
  ghost predicate IntroducedAt(bundle: seq<BundleEvent>, branch: Option<string>, i: nat) {
    i < |bundle| && bundle[i].role.ForksBranch? && bundle[i].event.branch == branch
  }

  ghost predicate IntroducedOnce(bundle: seq<BundleEvent>, branch: Option<string>) {
    exists i :: IntroducedAt(bundle, branch, i) && forall k :: IntroducedAt(bundle, branch, k) ==> k == i
  }

  /** Every other branch is introduced by one fork, and the root branch by none. */
  ghost predicate SingleOrigins(bundle: seq<BundleEvent>, root: Option<string>) {
    && (forall b :: b in bundle && b.event.branch != root ==> IntroducedOnce(bundle, b.event.branch))
    && forall i :: !IntroducedAt(bundle, root, i)
  }

  lemma {:induction false} SomeFork(bundle: seq<BundleEvent>, branch: Option<string>) returns (i: nat)
    requires Forks(bundle, branch) > 0
    ensures IntroducedAt(bundle, branch, i)
  {
    var n := |bundle| - 1;
    if ForksOn(bundle[n], branch) {
      i := n;
    } else {
      i := SomeFork(bundle[..n], branch);
      assert bundle[..n][i] == bundle[i];
    }
  }

  lemma {:induction false} AnotherFork(bundle: seq<BundleEvent>, branch: Option<string>, i: nat) returns (k: nat)
    requires Forks(bundle, branch) > 1 && IntroducedAt(bundle, branch, i)
    ensures IntroducedAt(bundle, branch, k) && k != i
  {
    var n := |bundle| - 1;
    if i < n && ForksOn(bundle[n], branch) {
      k := n;
    } else if i < n {
      assert bundle[..n][i] == bundle[i];
      k := AnotherFork(bundle[..n], branch, i);
      assert bundle[..n][k] == bundle[k];
    } else {
      k := SomeFork(bundle[..n], branch);
      assert bundle[..n][k] == bundle[k];
    }
  }

  /** Counting forks decides it. */
  lemma ForksCount(bundle: seq<BundleEvent>, branch: Option<string>)
    ensures Forks(bundle, branch) == 1 <==> IntroducedOnce(bundle, branch)
    ensures Forks(bundle, branch) == 0 <==> forall i :: !IntroducedAt(bundle, branch, i)
  {
    forall i, k | IntroducedAt(bundle, branch, i) && IntroducedAt(bundle, branch, k)
      ensures Forks(bundle, branch) >= if i == k then 1 else 2
    {
      TwoForks(bundle, branch, i, k);
    }
    if Forks(bundle, branch) > 0 {
      var i := SomeFork(bundle, branch);
      if Forks(bundle, branch) > 1 { var k := AnotherFork(bundle, branch, i); }
    }
  }

  /** A parent on another branch is the one a fork names as its origin. */
  ghost predicate CrossingsAgree(bundle: seq<BundleEvent>) {
    forall b, p :: b in bundle && p in bundle && CrossesTo(b, p) ==> Agrees(b, p)
  }

  ghost predicate SoundLineage(bundle: seq<BundleEvent>) {
    && Distinct(bundle) && OnBranches(bundle) && CrossingsAgree(bundle)
    && exists root: nat :: SingleRoot(bundle, root) && SingleOrigins(bundle, bundle[root].event.branch)
  }

  lemma {:induction false} TwoForks(bundle: seq<BundleEvent>, branch: Option<string>, i: nat, k: nat)
    requires i < |bundle| && k < |bundle| && ForksOn(bundle[i], branch) && ForksOn(bundle[k], branch)
    ensures Forks(bundle, branch) >= if i == k then 1 else 2
  {
    var n := |bundle| - 1;
    if i < n && k < n {
      TwoForks(bundle[..n], branch, i, k);
    } else if i != k {
      var m := if i < n then i else k;
      TwoForks(bundle[..n], branch, m, m);
    }
  }

  /** In a sound bundle parents lead out of a branch at one event only, and never out of the root's. */
  lemma BranchIsLeftOnce(bundle: seq<BundleEvent>, b: BundleEvent, p: BundleEvent, c: BundleEvent, q: BundleEvent)
    requires SoundLineage(bundle) && b in bundle && p in bundle && c in bundle && q in bundle
    requires CrossesTo(b, p) && CrossesTo(c, q) && b.event.branch == c.event.branch
    ensures b == c && p == q
    ensures forall root: nat :: SingleRoot(bundle, root) ==> bundle[root].event.branch != b.event.branch
  {
    assert Agrees(b, p) && Agrees(c, q);
    var i :| 0 <= i < |bundle| && bundle[i] == b;
    var k :| 0 <= k < |bundle| && bundle[k] == c;
    assert IntroducedAt(bundle, b.event.branch, i) && IntroducedAt(bundle, b.event.branch, k);
    SameIdSameEvent(bundle, p, q);
  }

  method FindRoot(bundle: seq<BundleEvent>) returns (root: Option<nat>)
    ensures root.Some? ==> SingleRoot(bundle, root.value)
    ensures root.None? ==> forall i: nat :: !SingleRoot(bundle, i)
  {
    root := None;
    for i := 0 to |bundle|
      invariant match root
                case None => forall k :: 0 <= k < i ==> !bundle[k].role.OpensSession?
                case Some(r) => r < i && forall k :: 0 <= k < i ==> (bundle[k].role.OpensSession? <==> k == r)
    {
      if bundle[i].role.OpensSession? {
        if root.Some? {
          assert bundle[root.value].role.OpensSession? && root.value != i;
          return None;
        }
        root := Some(i);
      }
    }
    if root.Some? && bundle[root.value].event.branch.None? {
      assert bundle[root.value].role.OpensSession?;
      root := None;
    }
  }

  /** The first event, if any, on no branch, or on one that is not the root's and is not forked once. */
  method CheckOrigins(bundle: seq<BundleEvent>, root: Option<string>) returns (error: Option<LineageError>)
    ensures error.None? <==> OnBranches(bundle) && SingleOrigins(bundle, root)
    ensures error == Some(NoBranch) <==> !OnBranches(bundle)
    ensures error.Some? ==> error.value == NoBranch || error.value == NoSingleOrigin || error.value == RootIsForked
  {
    for i := 0 to |bundle|
      invariant forall b :: b in bundle[..i] ==> b.event.branch.Some?
    {
      assert bundle[..i + 1] == bundle[..i] + [bundle[i]];
      if bundle[i].event.branch.None? {
        assert bundle[i] in bundle;
        return Some(NoBranch);
      }
    }
    assert bundle[..|bundle|] == bundle;
    for i := 0 to |bundle|
      invariant forall b :: b in bundle[..i] && b.event.branch != root ==> IntroducedOnce(bundle, b.event.branch)
    {
      assert bundle[..i + 1] == bundle[..i] + [bundle[i]];
      ForksCount(bundle, bundle[i].event.branch);
      if bundle[i].event.branch != root && Forks(bundle, bundle[i].event.branch) != 1 {
        assert bundle[i] in bundle;
        return Some(NoSingleOrigin);
      }
    }
    ForksCount(bundle, root);
    error := if Forks(bundle, root) != 0 then Some(RootIsForked) else None;
  }

  method CheckCrossings(bundle: seq<BundleEvent>, byId: Index) returns (error: Option<LineageError>)
    requires Indexes(bundle, byId)
    ensures error.None? <==> CrossingsAgree(bundle)
    ensures error.Some? ==> error.value == Crosses || error.value == OriginDisagrees
  {
    for i := 0 to |bundle|
      invariant forall b, p :: b in bundle[..i] && p in bundle && CrossesTo(b, p) ==> Agrees(b, p)
    {
      var b := bundle[i];
      assert bundle[..i + 1] == bundle[..i] + [b] && b in bundle;
      if b.event.parent.Some? && b.event.parent.value in byId {
        var x := b.event.parent.value;
        assert x in byId.Keys && byId[x].Id() == x;
        var parent := byId[x];
        if parent.event.branch != b.event.branch {
          assert parent in bundle && CrossesTo(b, parent);
          if !b.role.ForksBranch? { return Some(Crosses); }
          if b.role != ForksBranch(Some(parent.Id()), parent.event.branch, b.event.branch) {
            return Some(OriginDisagrees);
          }
        }
      }
    }
    assert bundle[..|bundle|] == bundle;
    error := None;
  }

  /** `_validate_branch_lineage`, after the check for repeated identifiers. */
  method CheckLineage(bundle: seq<BundleEvent>) returns (error: Option<LineageError>)
    ensures error.None? <==> SoundLineage(bundle)
    ensures error == Some(RepeatedIds) <==> !Distinct(bundle)
    ensures error == Some(NoSingleRoot) <==> Distinct(bundle) && forall i: nat :: !SingleRoot(bundle, i)
  {
    var byId := ById(bundle);
    IndexSize(bundle);
    if |byId| != |bundle| { return Some(RepeatedIds); }
    IndexIsFaithful(bundle);
    var root := FindRoot(bundle);
    if root.None? { return Some(NoSingleRoot); }
    assert forall i: nat :: SingleRoot(bundle, i) ==> i == root.value;
    error := CheckOrigins(bundle, bundle[root.value].event.branch);
    if error.Some? { return; }
    error := CheckCrossings(bundle, byId);
  }
}
