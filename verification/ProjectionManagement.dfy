/** The manager that applies a projection to each event exactly once, and rebuilds its table. */
module ProjectionManagement {
  import opened Common
  import opened Sorting
  import opened JobContract
  import opened JobHistory
  import opened JobProjection

  datatype Failed = Failed(event: Id, reason: Rejection)

  /** The projection's table and the ids of the events it has consumed. */
  datatype Progress = Progress(table: Table, applied: set<Id>)

  /** Events one by one, those already consumed skipped; an event that is refused ends the pass and
      leaves what came before it. */
  function Projected(p: Progress, log: seq<Event>, events: seq<Event>): (Progress, Result<(), Failed>)
    decreases |events|
  {
    if events == [] then (p, Ok(()))
    else
      var e := events[0];
      if e.id in p.applied then Projected(p, log, events[1..])
      else
        var applied := Apply(p.table, log, e);
        if applied.Err? then (p, Err(Failed(e.id, applied.error)))
        else Projected(Progress(applied.value, p.applied + {e.id}), log, events[1..])
  }

  function EventIdSet(events: seq<Event>): set<Id> {
    set e | e in events :: e.id
  }

  /** What has been consumed is never applied again. */
  lemma {:induction false} ConsumedIsSkipped(p: Progress, log: seq<Event>, events: seq<Event>)
    requires EventIdSet(events) <= p.applied
    ensures Projected(p, log, events) == (p, Ok(()))
    decreases |events|
  {
    if events != [] {
      assert events[0] in events;
      assert forall e :: e in events[1..] ==> e in events;
      ConsumedIsSkipped(p, log, events[1..]);
    }
  }

  lemma {:induction false} EverythingIsConsumed(p: Progress, log: seq<Event>, events: seq<Event>)
    requires Projected(p, log, events).1.Ok?
    ensures Projected(p, log, events).0.applied == p.applied + EventIdSet(events)
    decreases |events|
  {
    if events != [] {
      var e := events[0];
      assert events == [e] + events[1..];
      assert EventIdSet(events) == {e.id} + EventIdSet(events[1..]);
      if e.id in p.applied {
        EverythingIsConsumed(p, log, events[1..]);
      } else {
        EverythingIsConsumed(Progress(Apply(p.table, log, e).value, p.applied + {e.id}), log, events[1..]);
      }
    }
  }

  /** Projecting the same events again changes nothing. */
  lemma ProjectingTwiceIsOnce(p: Progress, log: seq<Event>, events: seq<Event>)
    requires Projected(p, log, events).1.Ok?
    ensures Projected(Projected(p, log, events).0, log, events) == Projected(p, log, events)
  {
    EverythingIsConsumed(p, log, events);
    ConsumedIsSkipped(Projected(p, log, events).0, log, events);
    assert Projected(p, log, events).1.value == ();
  }

  /** How far a replay that starts from nothing gets before its first refusal. */
  ghost predicate ReplaysUpTo(log: seq<Event>, events: seq<Event>, n: nat, result: (Progress, Result<(), Failed>)) {
    && n <= |events| && Replay(events[..n], log).Ok?
    && result.0 == Progress(Replay(events[..n], log).value, EventIdSet(events[..n]))
    && if n == |events| then result.1.Ok?
       else
         var objection := Objection(Replay(events[..n], log).value, log, events[n]);
         objection.Some? && result.1 == Err(Failed(events[n].id, objection.value))
  }

  lemma NotYetConsumed(events: seq<Event>, n: nat)
    requires DistinctIds(events) && n < |events|
    ensures events[n].id !in EventIdSet(events[..n])
    ensures EventIdSet(events[..n + 1]) == EventIdSet(events[..n]) + {events[n].id}
  {
    assert events[..n + 1] == events[..n] + [events[n]];
    assert forall i :: 0 <= i < n ==> events[..n][i].id != events[n].id;
  }

  lemma ReplayOneMore(log: seq<Event>, events: seq<Event>, n: nat)
    requires n < |events| && Replay(events[..n], log).Ok?
    ensures Replay(events[..n + 1], log) == Apply(Replay(events[..n], log).value, log, events[n])
  {
    assert events[..n + 1] == events[..n] + [events[n]] && events[..n + 1][..n] == events[..n];
  }

  lemma {:induction false} FreshPassIsReplay(log: seq<Event>, events: seq<Event>, n: nat) returns (stop: nat)
    requires DistinctIds(events) && n <= |events| && Replay(events[..n], log).Ok?
    ensures n <= stop
    ensures ReplaysUpTo(log, events, stop,
                        Projected(Progress(Replay(events[..n], log).value, EventIdSet(events[..n])), log, events[n..]))
    decreases |events| - n
  {
    if n == |events| {
      stop := n;
    } else {
      var e := events[n];
      assert events[n..][1..] == events[n + 1..];
      NotYetConsumed(events, n);
      ReplayOneMore(log, events, n);
      if Replay(events[..n + 1], log).Ok? {
        stop := FreshPassIsReplay(log, events, n + 1);
      } else {
        stop := n;
      }
    }
  }

  class ProjectionManager {
    var log: seq<Event>
    var table: Table
    var applied: set<Id>

    constructor (log: seq<Event>)
      ensures this.log == log && table == map[] && applied == {}
    {
      this.log, table, applied := log, map[], {};
    }

    /** `project`, for the jobs projection. */
    method Project(events: seq<Event>) returns (r: Result<(), Failed>)
      modifies this`table, this`applied
      ensures (Progress(table, applied), r) == Projected(old(Progress(table, applied)), log, events)
    {
      ghost var start := Progress(table, applied);
      var i := 0;
      while i < |events|
        invariant 0 <= i <= |events|
        invariant Projected(start, log, events) == Projected(Progress(table, applied), log, events[i..])
      {
        assert events[i..][1..] == events[i + 1..] && events[i..][0] == events[i];
        if events[i].id !in applied {
          var step := Apply(table, log, events[i]);
          if step.Err? { return Err(Failed(events[i].id, step.error)); }
          table := step.value;
          applied := applied + {events[i].id};
        }
        i := i + 1;
      }
      r := Ok(());
    }

    /** `rebuild`: it succeeds exactly when every event of the log passes the guards and finds its key free
        in `(created_at, id)` order, and then holds what replay in that order yields, whatever it held
        before. Otherwise it stops at the first event of that order that is refused and holds the replay
        of those before it. */
    method Rebuild() returns (r: Result<(), Failed>)
      requires DistinctIds(log)
      modifies this`table, this`applied
      ensures exists stop :: ReplaysUpTo(log, Listing(log), stop, (Progress(table, applied), r))
      ensures r.Ok? <==> AllPass(log, log) && KeysFree(Listing(log))
      ensures r.Ok? ==> Replay(Listing(log), log) == Ok(table) && applied == EventIdSet(log)
    {
      table, applied := map[], {};
      var listing := Listing(log);
      r := Project(listing);
      ListingIsDistinct(log);
      FreshPass(log, listing);
    }
  }

  /** A pass over the whole listing from nothing is a replay. */
  lemma FreshPass(log: seq<Event>, listing: seq<Event>)
    requires multiset(listing) == multiset(log) && DistinctIds(listing)
    ensures exists stop :: ReplaysUpTo(log, listing, stop, Projected(Progress(map[], {}), log, listing))
    ensures var (p, r) := Projected(Progress(map[], {}), log, listing);
            && (r.Ok? <==> AllPass(log, log) && KeysFree(listing))
            && (r.Ok? ==> Replay(listing, log) == Ok(p.table) && p.applied == EventIdSet(log))
  {
    SameMembers(log, listing);
    assert listing[..0] == [] && listing[0..] == listing;
    assert EventIdSet(listing[..0]) == {};
    var stop := FreshPassIsReplay(log, listing, 0);
    ReplayRefuses(listing, log);
    assert listing[..|listing|] == listing;
    if stop == |listing| {
      assert EventIdSet(listing) == EventIdSet(log);
    } else {
      ReplayOneMore(log, listing, stop);
      if Replay(listing, log).Ok? { ReplayNext(listing, stop, log); }
    }
  }

  lemma ListingIsDistinct(log: seq<Event>)
    requires DistinctIds(log)
    ensures DistinctIds(Listing(log))
  {
    var listing := Listing(log);
    assert NoDuplicates(log);
    NoDuplicatesReordered(log, listing);
    SameMembers(log, listing);
    forall i, j | 0 <= i < j < |listing| ensures listing[i].id != listing[j].id {
      var e, f := listing[i], listing[j];
      assert e in listing && f in listing && e != f;
      if e.id == f.id { SameId(log, e, f); }
    }
  }
}
