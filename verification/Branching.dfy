/** The visibility query and the branch service. */
module Branching {
  import opened Common
  import opened Sorting
  import opened Ancestry
  import opened BranchHistory
  import opened BranchVisibility

  datatype BranchError =
    | BranchNotFound(id: Id)
    | LineageCycle(id: Id)
    | EventNotFound(id: Id)
    | ParentCycle(id: Id)
    | NotVisible(id: Id)
    | EscapesLineage(id: Id)
    | SessionExists
    | NoContext
    | SourceBranchNotFound(id: Id)
    | SourceBranchArchived(id: Id)
    | BranchExists(id: Id)
    | DifferentSessions

  function LineageError(e: ClimbError): BranchError {
    match e
    case Missing(id) => BranchNotFound(id)
    case Loop(id) => LineageCycle(id)
  }

  function ChainError(e: ClimbError): BranchError {
    match e
    case Missing(id) => EventNotFound(id)
    case Loop(id) => ParentCycle(id)
  }

  /** What the query answers in a sound state. */
  ghost function Answer(s: State, b: Id, until: Option<Id>): Result<seq<Id>, BranchError> {
    if BranchAt(s.branches, b).None? then Err(BranchNotFound(b))
    else if until.None? then Ok(Visible(s, b))
    else if until.value !in Visible(s, b) then Err(NotVisible(until.value))
    else Ok(Chain(EventNodes(s.log), until.value))
  }

  ghost predicate OnBranches(s: State, ids: seq<Id>, branches: seq<Id>) {
    forall i :: 0 <= i < |ids| ==> PlacedOn(s.log, ids[i], branches)
  }

  predicate PlacedOn(log: seq<BranchEvent>, id: Id, branches: seq<Id>) {
    EventAt(log, id).Some? && EventAt(log, id).value.branch.Some? && EventAt(log, id).value.branch.value in branches
  }

  /** `_parent_chain`. */
  method ParentChain(log: seq<BranchEvent>, id: Id) returns (r: Result<seq<Id>, BranchError>)
    ensures r.Ok? ==> exists walk :: Finds(EventNodes(log), id, walk, Ok(r.value))
    ensures r.Err? ==> exists walk, e :: Finds(EventNodes(log), id, walk, Err(e)) && r.error == ChainError(e)
    ensures Rooted(EventNodes(log)) ==>
              r == if EventAt(log, id).Some? then Ok(Chain(EventNodes(log), id)) else Err(EventNotFound(id))
  {
    EventNode(log, id);
    var climbed := Climb(EventNodes(log), id);
    r := if climbed.Ok? then Ok(climbed.value) else Err(ChainError(climbed.error));
    ghost var walk :| Finds(EventNodes(log), id, walk, climbed);
    if climbed.Err? {
      assert climbed == Err(climbed.error);
      assert Finds(EventNodes(log), id, walk, Err(climbed.error));
    }
  }

  /** `visible_event_ids_from_connection`, on any tables, sound or not. */
  method VisibleEventIds(s: State, b: Id, until: Option<Id>) returns (r: Result<seq<Id>, BranchError>)
    ensures r.Ok? ==> exists walk, lineage :: Finds(BranchNodes(s.branches), b, walk, Ok(lineage))
                                              && (until.Some? ==> OnBranches(s, r.value, lineage))
    ensures r.Ok? && until.Some? ==> exists walk :: Finds(EventNodes(s.log), until.value, walk, Ok(r.value))
    ensures Inv(s) ==> r == Answer(s, b, until)
    ensures Inv(s) && until.None? && r.Ok? ==>
              exists own :: r.value == Inherited(s, b) + own && ListsInOrder(s.log, b, own)
  {
    BranchNode(s.branches, b);
    var lineage := Climb(BranchNodes(s.branches), b);
    if lineage.Err? { return Err(LineageError(lineage.error)); }
    ghost var walk :| Finds(BranchNodes(s.branches), b, walk, lineage);
    assert Finds(BranchNodes(s.branches), b, walk, Ok(lineage.value));
    var leaf := BranchAt(s.branches, b);
    var inherited: seq<Id> := [];
    if leaf.Some? && leaf.value.fork.Some? {
      if Inv(s) { assert RowSound(s, b); }
      var chain := ParentChain(s.log, leaf.value.fork.value);
      if chain.Err? { return Err(chain.error); }
      inherited := chain.value;
    }
    var result := Dedup(inherited + Own(s.log, b));
    assert Inv(s) ==> result == Visible(s, b);
    if until.None? {
      if Inv(s) {
        VisibleIsInheritedThenOwn(s, b);
        OwnIsInOrder(s.log, b);
      }
      return Ok(result);
    }
    if until.value !in result { return Err(NotVisible(until.value)); }
    if Inv(s) { VisibleIsParentClosed(s, b, until.value); }
    r := UntilChain(s, until.value, lineage.value);
    if Inv(s) { UntilIsOnLineage(s, b, until.value); }
  }

  /** The chain of one event, provided that it stays on the given branches. */
  method UntilChain(s: State, until: Id, lineage: seq<Id>) returns (r: Result<seq<Id>, BranchError>)
    ensures r.Ok? ==> OnBranches(s, r.value, lineage)
    ensures r.Ok? ==> exists walk :: Finds(EventNodes(s.log), until, walk, Ok(r.value))
    ensures Rooted(EventNodes(s.log)) && EventAt(s.log, until).Some?
            && OnBranches(s, Chain(EventNodes(s.log), until), lineage)
            ==> r == Ok(Chain(EventNodes(s.log), until))
  {
    r := ParentChain(s.log, until);
    if r.Err? { return; }
    for i := 0 to |r.value|
      invariant forall k :: 0 <= k < i ==> PlacedOn(s.log, r.value[k], lineage)
    {
      if !PlacedOn(s.log, r.value[i], lineage) {
        return Err(EscapesLineage(r.value[i]));
      }
    }
  }

  /** No visible event's chain escapes: the last error of the query cannot occur in a sound state. */
  lemma UntilIsOnLineage(s: State, b: Id, x: Id)
    requires Inv(s) && BranchAt(s.branches, b).Some? && x in Visible(s, b)
    ensures OnBranches(s, Chain(EventNodes(s.log), x), Lineage(s, b))
  {
    var chain := Chain(EventNodes(s.log), x);
    forall i | 0 <= i < |chain| ensures PlacedOn(s.log, chain[i], Lineage(s, b)) {
      VisibleStaysOnLineage(s, b, x, chain[i]);
    }
  }

  // ------------------------------------------------- what the query shows, read off the log

  predicate Precedes(d: BranchEvent, e: BranchEvent) {
    d.createdAt < e.createdAt || (d.createdAt == e.createdAt && d.id < e.id)
  }

  /** `ids` are those of the branch's events, each once, by creation time and then by identifier. */
  ghost predicate ListsInOrder(log: seq<BranchEvent>, b: Id, ids: seq<Id>) {
    exists events :: ListsAs(log, b, ids, events)
  }

  ghost predicate ListsAs(log: seq<BranchEvent>, b: Id, ids: seq<Id>, events: seq<BranchEvent>) {
    && |events| == |ids| && (forall i :: 0 <= i < |ids| ==> events[i].id == ids[i])
    && (forall e :: e in events <==> e in log && e.branch == Some(b))
    && (forall i, k :: 0 <= i < k < |events| ==> Precedes(events[i], events[k]))
  }

  lemma OwnIsInOrder(log: seq<BranchEvent>, b: Id)
    requires Rooted(EventNodes(log))
    ensures ListsAs(log, b, Own(log, b), InOrder(On(log, b)))
  {
    var events := InOrder(On(log, b));
    OnMembers(log, b);
    SameMembers(On(log, b), events);
    OwnRepeatsNothing(log, b);
    forall i, k | 0 <= i < k < |events| ensures Precedes(events[i], events[k]) {
      assert Own(log, b)[i] != Own(log, b)[k];
    }
  }

  /** The event a branch is continued from: the last of its own, or else the one it was forked from. */
  ghost predicate IsTip(log: seq<BranchEvent>, row: Branch, tip: Option<Id>) {
    if exists e :: e in log && e.branch == Some(row.id) then
      exists e :: e in log && e.branch == Some(row.id) && tip == Some(e.id)
                  && forall d :: d in log && d.branch == Some(row.id) ==> d == e || Precedes(d, e)
    else tip == row.fork
  }

  lemma LastPrecedesNone(log: seq<BranchEvent>, b: Id, ids: seq<Id>, events: seq<BranchEvent>)
    requires ListsAs(log, b, ids, events) && ids != []
    ensures var last := events[|events| - 1];
            && last in log && last.branch == Some(b) && LastOf(ids) == Some(last.id)
            && forall d :: d in log && d.branch == Some(b) ==> d == last || Precedes(d, last)
  {
    var last := events[|events| - 1];
    assert last in events;
    forall d | d in events ensures d == last || Precedes(d, last) {
      var i :| 0 <= i < |events| && events[i] == d;
    }
  }

  lemma LastShownIsTip(s: State, b: Id)
    requires Inv(s) && BranchAt(s.branches, b).Some?
    ensures IsTip(s.log, BranchAt(s.branches, b).value, LastOf(Visible(s, b)))
  {
    var own := Own(s.log, b);
    VisibleIsInheritedThenOwn(s, b);
    OwnIsInOrder(s.log, b);
    var events := InOrder(On(s.log, b));
    if own == [] {
      assert forall e :: e in s.log && e.branch == Some(b) ==> e in events;
      var row := BranchAt(s.branches, b).value;
      assert RowSound(s, b);
      if row.fork.Some? {
        EventNode(s.log, row.fork.value);
        ChainEnds(EventNodes(s.log), row.fork.value);
      }
    } else {
      LastPrecedesNone(s.log, b, own, events);
    }
  }

  function LastOf(ids: seq<Id>): Option<Id> {
    if ids == [] then None else Some(ids[|ids| - 1])
  }

  function SessionKnown(log: seq<BranchEvent>, session: Id): (r: bool)
    ensures r <==> exists e :: e in log && e.session == Some(session)
  {
    if log == [] then false
    else
      assert log == log[..|log| - 1] + [log[|log| - 1]];
      log[|log| - 1].session == Some(session) || SessionKnown(log[..|log| - 1], session)
  }

  /** What refuses a fork, in the order the service looks for it. */
  ghost function ForkFault(s: State, source: Id, branch: Id): Option<BranchError> {
    var from := EventAt(s.log, source);
    if from.None? then Some(EventNotFound(source))
    else if from.value.session.None? || from.value.branch.None? then Some(NoContext)
    else if BranchAt(s.branches, from.value.branch.value).None? then
      Some(SourceBranchNotFound(from.value.branch.value))
    else if BranchAt(s.branches, from.value.branch.value).value.archived then
      Some(SourceBranchArchived(from.value.branch.value))
    else if BranchAt(s.branches, branch).Some? then Some(BranchExists(branch))
    else None
  }

  /** One event and one row more: the row names its origin, and the branch shows that and the event. */
  ghost predicate Forks(s: State, t: State, source: Id, branch: Id, e: BranchEvent) {
    && EventAt(s.log, source).Some? && e.session.Some? && t.log == s.log + [e]
    && t.branches == s.branches + [Branch(branch, e.session.value, EventAt(s.log, source).value.branch, Some(source), false)]
    && (On(s.log, branch) == [] ==> Visible(t, branch) == Chain(EventNodes(s.log), source) + [e.id])
  }

  lemma ForkEffect(s: State, source: Id, branch: Id, e: BranchEvent)
    requires Inv(s) && ForkFault(s, source, branch).None? && EventAt(s.log, e.id).None?
    requires var from := EventAt(s.log, source).value;
             e == BranchEvent(e.id, e.createdAt, from.session, Some(branch), Some(source),
                              Forked(branch, from.branch.value, source))
    ensures Follows(s, e) && Forks(s, Next(s, e), source, branch, e)
  {
    PutNew(s.branches, Branch(branch, e.session.value, EventAt(s.log, source).value.branch, Some(source), false));
    if On(s.log, branch) == [] { ForkShowsItsOrigin(s, e); }
  }

  /** The branch's rows are marked archived, and no other row changes. */
  ghost predicate Archives(s: State, t: State, b: Id) {
    && |t.branches| == |s.branches|
    && (forall i :: 0 <= i < |s.branches| ==>
          t.branches[i] == if s.branches[i].id == b then s.branches[i].(archived := true) else s.branches[i])
    && BranchAt(s.branches, b).Some? && BranchAt(t.branches, b) == Some(BranchAt(s.branches, b).value.(archived := true))
  }

  lemma ArchiveEffect(s: State, b: Id, e: BranchEvent)
    requires BranchAt(s.branches, b).Some? && e.session.Some? && e.branch == Some(b) && e.operation == Archived(b)
    ensures Next(s, e).log == s.log + [e] && Archives(s, Next(s, e), b)
  {
    ArchiveKeepsRows(s.branches, b, b);
  }

  class BranchService {
    var log: seq<BranchEvent>
    var branches: seq<Branch>

    ghost function Contents(): State
      reads this
    {
      State(log, branches)
    }

    ghost predicate Valid()
      reads this
    {
      Inv(Contents())
    }

    constructor ()
      ensures Valid() && Contents() == EMPTY
    {
      log, branches := [], [];
      new;
      EmptyStateHolds();
    }

    method Append(e: BranchEvent)
      requires Valid() && Follows(Contents(), e)
      modifies this
      ensures Valid() && Contents() == Next(old(Contents()), e)
    {
      StepKeeps(Contents(), e);
      log, branches := log + [e], Project(branches, e);
    }

    /** `create_session`. */
    method CreateSession(session: Id, branch: Id, id: Id, now: Time) returns (r: Result<BranchEvent, BranchError>)
      requires Valid() && EventAt(log, id).None?
      modifies this
      ensures Valid()
      ensures r == (if SessionKnown(old(log), session) then Err(SessionExists)
                    else Ok(BranchEvent(id, now, Some(session), Some(branch), None, Narrative)))
      ensures Contents() == if r.Ok? then Next(old(Contents()), r.value) else old(Contents())
      ensures r.Ok? ==> log == old(log) + [r.value]
                        && branches == old(branches) + if old(BranchAt(branches, branch)).Some? then []
                                                       else [Branch(branch, session, None, None, false)]
    {
      if SessionKnown(log, session) { return Err(SessionExists); }
      var e := BranchEvent(id, now, Some(session), Some(branch), None, Narrative);
      Append(e);
      r := Ok(e);
    }

    /** `fork`: the new branch shows the ancestry of the source event and then the fork itself. */
    method Fork(source: Id, branch: Id, id: Id, now: Time) returns (r: Result<BranchEvent, BranchError>)
      requires Valid() && EventAt(log, id).None?
      modifies this
      ensures Valid()
      ensures var fault, from := ForkFault(old(Contents()), source, branch), old(EventAt(log, source));
              r == if fault.Some? then Err(fault.value)
                   else Ok(BranchEvent(id, now, from.value.session, Some(branch), Some(source),
                                       Forked(branch, from.value.branch.value, source)))
      ensures Contents() == if r.Ok? then Next(old(Contents()), r.value) else old(Contents())
      ensures r.Ok? ==> Forks(old(Contents()), Contents(), source, branch, r.value)
    {
      var from := EventAt(log, source);
      if from.None? { return Err(EventNotFound(source)); }
      if from.value.session.None? || from.value.branch.None? { return Err(NoContext); }
      var parent := BranchAt(branches, from.value.branch.value);
      if parent.None? { return Err(SourceBranchNotFound(from.value.branch.value)); }
      if parent.value.archived { return Err(SourceBranchArchived(parent.value.id)); }
      if BranchAt(branches, branch).Some? { return Err(BranchExists(branch)); }
      var e := BranchEvent(id, now, from.value.session, Some(branch), Some(source),
                           Forked(branch, from.value.branch.value, source));
      ForkEffect(Contents(), source, branch, e);
      Append(e);
      r := Ok(e);
    }

    /** Append an event after the branch's latest visible one. */
    method AppendAtTip(b: Id, id: Id, now: Time, operation: Operation) returns (e: BranchEvent)
      requires Valid() && EventAt(log, id).None? && BranchAt(branches, b).Some? && !operation.Forked?
      modifies this
      ensures Valid() && Follows(old(Contents()), e) && Contents() == Next(old(Contents()), e)
      ensures e == BranchEvent(id, now, Some(old(BranchAt(branches, b)).value.session), Some(b),
                               LastOf(old(Visible(Contents(), b))), operation)
      ensures IsTip(old(log), old(BranchAt(branches, b)).value, e.parent)
      ensures log == old(log) + [e] && (operation.Narrative? ==> branches == old(branches))
    {
      var visible := VisibleEventIds(State(log, branches), b, None);
      LastShownIsTip(Contents(), b);
      var parent := LastOf(visible.value);
      e := BranchEvent(id, now, Some(BranchAt(branches, b).value.session), Some(b), parent, operation);
      if parent.Some? {
        VisibleIsSeen(Contents(), b, parent.value);
        VisibleIsParentClosed(Contents(), b, parent.value);
      }
      Append(e);
    }

    /** `checkpoint`. */
    method Checkpoint(b: Id, id: Id, now: Time) returns (r: Result<BranchEvent, BranchError>)
      requires Valid() && EventAt(log, id).None?
      modifies this
      ensures Valid()
      ensures r.Ok? <==> old(BranchAt(branches, b)).Some?
      ensures r.Ok? ==> r.value == BranchEvent(id, now, Some(old(BranchAt(branches, b)).value.session), Some(b),
                                               LastOf(old(Visible(Contents(), b))), Narrative)
      ensures Contents() == if r.Ok? then Next(old(Contents()), r.value) else old(Contents())
      ensures r.Ok? ==> log == old(log) + [r.value] && branches == old(branches)
                        && IsTip(old(log), old(BranchAt(branches, b)).value, r.value.parent)
    {
      if BranchAt(branches, b).None? { return Err(BranchNotFound(b)); }
      var e := AppendAtTip(b, id, now, Narrative);
      r := Ok(e);
    }

    /** `merge_metadata`: an event on the target branch, no history copied. */
    method MergeMetadata(source: Id, target: Id, id: Id, now: Time) returns (r: Result<BranchEvent, BranchError>)
      requires Valid() && EventAt(log, id).None?
      modifies this
      ensures Valid()
      ensures r.Ok? <==> var from, to := old(BranchAt(branches, source)), old(BranchAt(branches, target));
                         from.Some? && to.Some? && from.value.session == to.value.session
      ensures r.Ok? ==> r.value == BranchEvent(id, now, Some(old(BranchAt(branches, target)).value.session), Some(target),
                                               LastOf(old(Visible(Contents(), target))), Narrative)
      ensures Contents() == if r.Ok? then Next(old(Contents()), r.value) else old(Contents())
      ensures r.Ok? ==> log == old(log) + [r.value] && branches == old(branches)
                        && IsTip(old(log), old(BranchAt(branches, target)).value, r.value.parent)
      ensures source != target ==> Visible(Contents(), source) == old(Visible(Contents(), source))
    {
      var from := BranchAt(branches, source);
      if from.None? { return Err(BranchNotFound(source)); }
      var to := BranchAt(branches, target);
      if to.None? { return Err(BranchNotFound(target)); }
      if from.value.session != to.value.session { return Err(DifferentSessions); }
      ghost var before := Contents();
      var e := AppendAtTip(target, id, now, Narrative);
      if source != target { OtherBranchesDoNotShow(before, e, source); }
      r := Ok(e);
    }

    /** `archive`: the event goes after the branch's latest visible one, and no other row changes. */
    method ArchiveBranch(b: Id, id: Id, now: Time) returns (r: Result<Branch, BranchError>)
      requires Valid() && EventAt(log, id).None?
      modifies this
      ensures Valid()
      ensures r.Ok? <==> old(BranchAt(branches, b)).Some?
      ensures r.Ok? ==> Some(r.value) == BranchAt(branches, b) && Archives(old(Contents()), Contents(), b)
      ensures r.Ok? ==> log == old(log) + [BranchEvent(id, now, Some(r.value.session), Some(b),
                                                       LastOf(old(Visible(Contents(), b))), Archived(b))]
      ensures r.Ok? ==> IsTip(old(log), old(BranchAt(branches, b)).value, log[|log| - 1].parent)
      ensures r.Err? ==> r.error == BranchNotFound(b) && Contents() == old(Contents())
    {
      if BranchAt(branches, b).None? { return Err(BranchNotFound(b)); }
      ghost var before := Contents();
      var e := AppendAtTip(b, id, now, Archived(b));
      ArchiveEffect(before, b, e);
      r := Ok(BranchAt(branches, b).value);
    }
  }
}
