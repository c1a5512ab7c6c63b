/** Sessions fork into branches; a branch sees the ancestry of its fork event and its own events. */
module BranchHistory {
  import opened Common
  import opened Sorting
  import opened Ancestry

  datatype Operation =
    | Narrative
    | Forked(branch: Id, parentBranch: Id, forkEvent: Id)
    | Archived(branch: Id)

  datatype BranchEvent = BranchEvent(id: Id, createdAt: Time, session: Option<Id>, branch: Option<Id>,
                                     parent: Option<Id>, operation: Operation)
  {
    function Key(): Key {
      Common.Key(createdAt, id)
    }
  }

  /** A row of the branches table. */
  datatype Branch = Branch(id: Id, session: Id, parent: Option<Id>, fork: Option<Id>, archived: bool)

  /** The event table and the branches table, each in insertion order. */
  datatype State = State(log: seq<BranchEvent>, branches: seq<Branch>)

  function EventNodes(log: seq<BranchEvent>): (nodes: seq<Node>)
    ensures |nodes| == |log|
  {
    seq(|log|, i requires 0 <= i < |log| => Node(log[i].id, log[i].parent))
  }

  function BranchNodes(branches: seq<Branch>): (nodes: seq<Node>)
    ensures |nodes| == |branches|
  {
    seq(|branches|, i requires 0 <= i < |branches| => Node(branches[i].id, branches[i].parent))
  }

  function EventAt(log: seq<BranchEvent>, id: Id): (e: Option<BranchEvent>)
    ensures e.Some? ==> e.value in log && e.value.id == id
    ensures e.None? ==> forall d :: d in log ==> d.id != id
  {
    if log == [] then None
    else if log[|log| - 1].id == id then Some(log[|log| - 1])
    else EventAt(log[..|log| - 1], id)
  }

  function BranchAt(branches: seq<Branch>, id: Id): (b: Option<Branch>)
    ensures b.Some? ==> b.value in branches && b.value.id == id
    ensures b.None? ==> forall c :: c in branches ==> c.id != id
  {
    if branches == [] then None
    else if branches[|branches| - 1].id == id then Some(branches[|branches| - 1])
    else BranchAt(branches[..|branches| - 1], id)
  }

  lemma {:induction false} EventNode(log: seq<BranchEvent>, id: Id)
    ensures Knows(EventNodes(log), id) <==> EventAt(log, id).Some?
    ensures Knows(EventNodes(log), id) ==> Lookup(EventNodes(log), id).value.up == EventAt(log, id).value.parent
  {
    if log != [] {
      var n := |log| - 1;
      EventNode(log[..n], id);
      assert EventNodes(log)[..n] == EventNodes(log[..n]);
    }
  }

  lemma {:induction false} BranchNode(branches: seq<Branch>, id: Id)
    ensures Knows(BranchNodes(branches), id) <==> BranchAt(branches, id).Some?
    ensures Knows(BranchNodes(branches), id) ==>
              Lookup(BranchNodes(branches), id).value.up == BranchAt(branches, id).value.parent
  {
    if branches != [] {
      var n := |branches| - 1;
      BranchNode(branches[..n], id);
      assert BranchNodes(branches)[..n] == BranchNodes(branches[..n]);
    }
  }

  // ---------------------------------------------------------------- the projection

  function Archive(branches: seq<Branch>, id: Id): (r: seq<Branch>)
    ensures |r| == |branches|
    ensures forall i :: 0 <= i < |r| ==>
              r[i] == if branches[i].id == id then branches[i].(archived := true) else branches[i]
  {
    seq(|branches|, i requires 0 <= i < |branches| =>
        if branches[i].id == id then branches[i].(archived := true) else branches[i])
  }

  function InsertOrIgnore(branches: seq<Branch>, row: Branch): seq<Branch> {
    if BranchAt(branches, row.id).Some? then branches else branches + [row]
  }

  /** `INSERT OR REPLACE`. */
  function Put(branches: seq<Branch>, row: Branch): seq<Branch> {
    (seq(|branches|, i requires 0 <= i < |branches| => if branches[i].id == row.id then row else branches[i]))
    + if BranchAt(branches, row.id).Some? then [] else [row]
  }

  /** The branch half of `_project_session_and_branch`. */
  function Project(branches: seq<Branch>, e: BranchEvent): seq<Branch> {
    if e.session.None? then branches
    else
      match e.operation
      case Forked(branch, parentBranch, forkEvent) =>
        Put(branches, Branch(branch, e.session.value, Some(parentBranch), Some(forkEvent), false))
      case Narrative => Rooting(branches, e)
      case Archived(branch) => Archive(Rooting(branches, e), branch)
  }

  /** An event on a branch with no row makes it a root branch. */
  function Rooting(branches: seq<Branch>, e: BranchEvent): seq<Branch>
    requires e.session.Some?
  {
    if e.branch.None? then branches
    else InsertOrIgnore(branches, Branch(e.branch.value, e.session.value, None, None, false))
  }

  function Next(s: State, e: BranchEvent): State {
    State(s.log + [e], Project(s.branches, e))
  }

  // ------------------------------------------------------------------ what is visible

  function On(log: seq<BranchEvent>, b: Id): seq<BranchEvent> {
    if log == [] then []
    else
      var last := log[|log| - 1];
      On(log[..|log| - 1], b) + if last.branch == Some(b) then [last] else []
  }

  function EventIds(events: seq<BranchEvent>): (ids: seq<Id>)
    ensures |ids| == |events|
    ensures forall i :: 0 <= i < |ids| ==> ids[i] == events[i].id
  {
    seq(|events|, i requires 0 <= i < |events| => events[i].id)
  }

  function InOrder(events: seq<BranchEvent>): (sorted: seq<BranchEvent>)
    ensures multiset(sorted) == multiset(events)
    ensures forall i, k :: 0 <= i < k < |sorted| ==>
              sorted[i].createdAt < sorted[k].createdAt
              || (sorted[i].createdAt == sorted[k].createdAt && sorted[i].id <= sorted[k].id)
  {
    var key := (e: BranchEvent) => e.Key();
    var sorted := SortBy(events, key);
    assert forall i, k :: 0 <= i < k < |sorted| ==> KeyAtMost(key(sorted[i]), key(sorted[k]));
    sorted
  }

  /** The branch's own events, `ORDER BY created_at, id`. */
  function Own(log: seq<BranchEvent>, b: Id): seq<Id> {
    EventIds(InOrder(On(log, b)))
  }

  function Inherited(s: State, b: Id): seq<Id> {
    var row := BranchAt(s.branches, b);
    if row.Some? && row.value.fork.Some? then Chain(EventNodes(s.log), row.value.fork.value) else []
  }

  function Visible(s: State, b: Id): seq<Id> {
    Dedup(Inherited(s, b) + Own(s.log, b))
  }

  /** The branches whose events the branch may show. */
  function Lineage(s: State, b: Id): seq<Id> {
    Chain(BranchNodes(s.branches), b)
  }

  lemma {:induction false} DedupNothing(ids: seq<Id>)
    requires NoDuplicates(ids)
    ensures Dedup(ids) == ids
  {
    if ids != [] {
      DedupNothing(ids[..|ids| - 1]);
      assert ids == ids[..|ids| - 1] + [ids[|ids| - 1]];
    }
  }

  // ----------------------------------------------------------------- the invariant

  /** Event `x` is inherited by the branch or is one of its own. */
  ghost predicate Sees(s: State, b: Id, x: Id) {
    x in Inherited(s, b) || (EventAt(s.log, x).Some? && EventAt(s.log, x).value.branch == Some(b))
  }

  /** The row of `x`, if there is one, is a root or hangs off an event of its parent branch. */
  ghost predicate RowSound(s: State, x: Id) {
    var row := BranchAt(s.branches, x);
    row.Some? ==>
      && (row.value.parent.Some? <==> row.value.fork.Some?)
      && (row.value.fork.Some? ==> EventAt(s.log, row.value.fork.value).Some?
                                   && EventAt(s.log, row.value.fork.value).value.branch == row.value.parent)
  }

  ghost predicate ParentSeen(s: State, e: BranchEvent) {
    e.branch.Some? && e.parent.Some? ==> Sees(s, e.branch.value, e.parent.value)
  }

  ghost predicate Inv(s: State) {
    && Rooted(EventNodes(s.log)) && Rooted(BranchNodes(s.branches))
    && (forall x {:trigger RowSound(s, x)} :: RowSound(s, x))
    && (forall e {:trigger ParentSeen(s, e)} :: e in s.log ==> ParentSeen(s, e))
  }

  /** One step: the store accepts the event, which has no parent or one its branch already sees,
      or which forks a new branch from an event of an existing branch. */
  ghost predicate Follows(s: State, e: BranchEvent) {
    && EventAt(s.log, e.id).None?
    && (e.parent.Some? ==> EventAt(s.log, e.parent.value).Some?)
    && if e.operation.Forked? then
         && e.session.Some? && e.branch == Some(e.operation.branch) && e.parent == Some(e.operation.forkEvent)
         && BranchAt(s.branches, e.operation.branch).None? && BranchAt(s.branches, e.operation.parentBranch).Some?
         && EventAt(s.log, e.operation.forkEvent).value.branch == Some(e.operation.parentBranch)
       else
         ParentSeen(s, e)
  }

  lemma {:induction false} KnownIfMember(log: seq<BranchEvent>, e: BranchEvent)
    requires Rooted(EventNodes(log)) && e in log
    ensures EventAt(log, e.id) == Some(e)
  {
    var n := |log| - 1;
    assert EventNodes(log)[..n] == EventNodes(log[..n]) && log == log[..n] + [log[n]];
    EventNode(log[..n], log[n].id);
    if e != log[n] {
      KnownIfMember(log[..n], e);
    }
  }

  lemma EventAppend(log: seq<BranchEvent>, e: BranchEvent, x: Id)
    ensures EventAt(log + [e], x) == if x == e.id then Some(e) else EventAt(log, x)
    ensures EventNodes(log + [e]) == EventNodes(log) + [Node(e.id, e.parent)]
    ensures x != e.id ==> Chain(EventNodes(log + [e]), x) == Chain(EventNodes(log), x)
  {
    assert (log + [e])[..|log|] == log;
    assert EventNodes(log + [e]) == EventNodes(log) + [Node(e.id, e.parent)];
    ChainAppend(EventNodes(log), Node(e.id, e.parent), x);
  }

  lemma RowAppend(branches: seq<Branch>, row: Branch, x: Id)
    ensures BranchAt(branches + [row], x) == if x == row.id then Some(row) else BranchAt(branches, x)
    ensures BranchNodes(branches + [row]) == BranchNodes(branches) + [Node(row.id, row.parent)]
  {
    assert (branches + [row])[..|branches|] == branches;
  }

  lemma {:induction false} ArchiveKeepsRows(branches: seq<Branch>, id: Id, x: Id)
    ensures BranchNodes(Archive(branches, id)) == BranchNodes(branches)
    ensures var row := BranchAt(branches, x);
            BranchAt(Archive(branches, id), x) == if row.Some? && x == id then Some(row.value.(archived := true)) else row
  {
    if branches != [] {
      var n := |branches| - 1;
      ArchiveKeepsRows(branches[..n], id, x);
      assert Archive(branches, id)[..n] == Archive(branches[..n], id);
    }
  }

  lemma PutNew(branches: seq<Branch>, row: Branch)
    requires BranchAt(branches, row.id).None?
    ensures Put(branches, row) == branches + [row]
  {
  }

  /** A fork claims a branch identifier that has no row. */
  predicate ForksNewBranch(branches: seq<Branch>, e: BranchEvent) {
    e.operation.Forked? ==>
      e.session.Some? && e.branch == Some(e.operation.branch) && BranchAt(branches, e.operation.branch).None?
  }

  /** The row the projection of `e` creates, if any. */
  function NewRow(branches: seq<Branch>, e: BranchEvent): Option<Branch> {
    if e.session.None? || e.branch.None? || BranchAt(branches, e.branch.value).Some? then None
    else if e.operation.Forked? then
      Some(Branch(e.branch.value, e.session.value, Some(e.operation.parentBranch), Some(e.operation.forkEvent), false))
    else Some(Branch(e.branch.value, e.session.value, None, None, false))
  }

  predicate SameOrigin(a: Branch, b: Branch) {
    a.id == b.id && a.session == b.session && a.parent == b.parent && a.fork == b.fork
  }

  lemma ProjectRow(branches: seq<Branch>, e: BranchEvent, x: Id)
    requires ForksNewBranch(branches, e)
    ensures var row := NewRow(branches, e);
            var before := BranchAt(if row.Some? then branches + [row.value] else branches, x);
            var after := BranchAt(Project(branches, e), x);
            (before.Some? <==> after.Some?) && (before.Some? ==> SameOrigin(before.value, after.value))
    ensures var row := NewRow(branches, e);
            BranchNodes(Project(branches, e)) ==
            BranchNodes(branches) + if row.Some? then [Node(row.value.id, row.value.parent)] else []
  {
    var row := NewRow(branches, e);
    if row.Some? { RowAppend(branches, row.value, x); }
    if e.operation.Forked? {
      PutNew(branches, row.value);
    } else if e.operation.Archived? && e.session.Some? {
      ArchiveKeepsRows(Rooting(branches, e), e.operation.branch, x);
    }
  }

  /** A row keeps its origin, and a branch gets a row at most by an event of its own. */
  lemma RowAfter(branches: seq<Branch>, e: BranchEvent, x: Id)
    requires ForksNewBranch(branches, e)
    ensures var before, after := BranchAt(branches, x), BranchAt(Project(branches, e), x);
            (before.Some? ==> after.Some? && SameOrigin(before.value, after.value))
            && (before.None? && after.Some? ==>
                  NewRow(branches, e).Some? && SameOrigin(NewRow(branches, e).value, after.value) && e.branch == Some(x))
  {
    ProjectRow(branches, e, x);
    var row := NewRow(branches, e);
    if row.Some? { RowAppend(branches, row.value, x); }
  }

  // ------------------------------------------------------------ every step keeps it

  lemma InheritedAfter(s: State, e: BranchEvent, b: Id)
    requires Inv(s) && Follows(s, e)
    ensures BranchAt(s.branches, b).Some? || e.branch != Some(b) ==> Inherited(Next(s, e), b) == Inherited(s, b)
    ensures BranchAt(s.branches, b).None? ==> Inherited(s, b) == []
  {
    RowAfter(s.branches, e, b);
    var row := BranchAt(s.branches, b);
    if row.Some? {
      assert RowSound(s, b);
      if row.value.fork.Some? { EventAppend(s.log, e, row.value.fork.value); }
    }
  }

  lemma SeesAfter(s: State, e: BranchEvent, b: Id, x: Id)
    requires Inv(s) && Follows(s, e) && Sees(s, b, x)
    ensures Sees(Next(s, e), b, x)
  {
    InheritedAfter(s, e, b);
    EventAppend(s.log, e, x);
  }

  lemma RowsStaySound(s: State, e: BranchEvent, x: Id)
    requires Inv(s) && Follows(s, e)
    ensures RowSound(Next(s, e), x)
  {
    RowAfter(s.branches, e, x);
    assert RowSound(s, x);
    var row := BranchAt(Next(s, e).branches, x);
    if row.Some? && row.value.fork.Some? { EventAppend(s.log, e, row.value.fork.value); }
  }

  /** The new event's own parent is seen, also when it forks a branch. */
  lemma NewParentSeen(s: State, e: BranchEvent)
    requires Inv(s) && Follows(s, e)
    ensures ParentSeen(Next(s, e), e)
  {
    if e.operation.Forked? {
      var f := e.operation.forkEvent;
      RowAfter(s.branches, e, e.branch.value);
      ProjectRow(s.branches, e, e.branch.value);
      RowAppend(s.branches, NewRow(s.branches, e).value, e.branch.value);
      EventAppend(s.log, e, f);
      EventNode(s.log, f);
      ChainEnds(EventNodes(s.log), f);
    } else if e.branch.Some? && e.parent.Some? {
      SeesAfter(s, e, e.branch.value, e.parent.value);
    }
  }

  lemma TablesStayRooted(s: State, e: BranchEvent)
    requires Inv(s) && Follows(s, e)
    ensures Rooted(EventNodes(Next(s, e).log)) && Rooted(BranchNodes(Next(s, e).branches))
  {
    EventAppend(s.log, e, e.id);
    EventNode(s.log, e.id);
    if e.parent.Some? { EventNode(s.log, e.parent.value); }
    ChainAppend(EventNodes(s.log), Node(e.id, e.parent), e.id);
    var row := NewRow(s.branches, e);
    ProjectRow(s.branches, e, 0);
    if row.Some? {
      BranchNode(s.branches, row.value.id);
      if row.value.parent.Some? { BranchNode(s.branches, row.value.parent.value); }
      ChainAppend(BranchNodes(s.branches), Node(row.value.id, row.value.parent), row.value.id);
    } else {
      assert BranchNodes(s.branches) + [] == BranchNodes(s.branches);
    }
  }

  lemma StepKeeps(s: State, e: BranchEvent)
    requires Inv(s) && Follows(s, e)
    ensures Inv(Next(s, e))
  {
    TablesStayRooted(s, e);
    forall x ensures RowSound(Next(s, e), x) { RowsStaySound(s, e, x); }
    forall d | d in s.log + [e] ensures ParentSeen(Next(s, e), d) {
      if d in s.log {
        assert ParentSeen(s, d);
        if d.branch.Some? && d.parent.Some? { SeesAfter(s, e, d.branch.value, d.parent.value); }
      } else {
        NewParentSeen(s, e);
      }
    }
  }

  const EMPTY := State([], [])

  /** The steps, each accepted where it is taken, lead from `s` to `t`. */
  ghost predicate Leads(s: State, steps: seq<BranchEvent>, t: State)
    decreases |steps|
  {
    if steps == [] then s == t
    else Follows(s, steps[0]) && Leads(Next(s, steps[0]), steps[1..], t)
  }

  lemma {:induction false} RunKeeps(s: State, steps: seq<BranchEvent>, t: State)
    requires Inv(s) && Leads(s, steps, t)
    ensures Inv(t)
    decreases |steps|
  {
    if steps != [] {
      StepKeeps(s, steps[0]);
      RunKeeps(Next(s, steps[0]), steps[1..], t);
    }
  }

  lemma EmptyStateHolds()
    ensures Inv(EMPTY)
  {
  }
}
