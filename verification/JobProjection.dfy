/** The rebuildable projection: guards on one event, and replay of an event listing. */
module JobProjection {
  import opened Common
  import opened Sorting
  import opened JobContract
  import opened JobHistory

  /** The store accepts only references to earlier events. */
  ghost predicate Referenced(log: seq<Event>, e: Event) {
    && (e.parent.Some? ==> Find(log, e.parent.value).Some?)
    && (e.causation.Some? ==> Find(log, e.causation.value).Some?)
  }

  datatype Rejection =
    | WrongStatus | NoCorrelation | MissingSource | WrongContext | WrongCorrelation | WrongCause | KeyTaken

  type Table = map<Id, Job>

  function Source(log: seq<Event>, job: Job): Option<Event> {
    if job.source.None? then None else Find(log, job.source.value)
  }

  /** The job's own context where it names one, else that of its source event. */
  function Inherit(own: Option<string>, source: Option<string>): Option<string> {
    if own.Some? then own else source
  }

  function ExpectedSession(log: seq<Event>, job: Job): Option<string> {
    var source := Source(log, job);
    Inherit(job.session, if source.Some? then source.value.session else None)
  }

  function ExpectedBranch(log: seq<Event>, job: Job): Option<string> {
    var source := Source(log, job);
    Inherit(job.branch, if source.Some? then source.value.branch else None)
  }

  /** The guards, in the order the projection applies them. */
  function Check(log: seq<Event>, e: Event): Option<Rejection>
    requires e.Lifecycle?
  {
    var source := Source(log, e.job);
    if e.job.status !in AllowedStatuses(e.kind) then Some(WrongStatus)
    else if e.correlation.None? then Some(NoCorrelation)
    else if e.job.source.Some? && source.None? then Some(MissingSource)
    else if e.session != ExpectedSession(log, e.job) || e.branch != ExpectedBranch(log, e.job) then
      Some(WrongContext)
    else if source.Some? && source.value.correlation.Some? && e.correlation != source.value.correlation then
      Some(WrongCorrelation)
    else if e.kind == JobEnqueued && (e.parent != e.job.source || e.causation != e.job.source) then
      Some(WrongCause)
    else None
  }

  ghost predicate Passes(log: seq<Event>, e: Event) {
    e.Lifecycle? ==> Check(log, e).None?
  }

  /** Every event of `events` passes its guards against the event table `log`. */
  ghost predicate AllPass(events: seq<Event>, log: seq<Event>) {
    forall e {:trigger Passes(log, e)} :: e in events ==> Passes(log, e)
  }

  /** Another row holds the key of `row`; the unique index on keys refuses a second one. */
  predicate KeyHeldByOther(table: Table, row: Job) {
    row.idempotencyKey.Some? && exists j | j in table :: j != row.id && table[j].idempotencyKey == row.idempotencyKey
  }

  /** Why an event is not applied: a guard first, then the index. */
  function Objection(table: Table, log: seq<Event>, e: Event): Option<Rejection> {
    if !e.Lifecycle? then None
    else if Check(log, e).Some? then Check(log, e)
    else if KeyHeldByOther(table, e.job) then Some(KeyTaken)
    else None
  }

  /** One event applied to the table; `log` is the whole event table, which the guards read. */
  function Apply(table: Table, log: seq<Event>, e: Event): Result<Table, Rejection> {
    if Objection(table, log, e).Some? then Err(Objection(table, log, e).value)
    else if !e.Lifecycle? then Ok(table)
    else Ok(table[e.job.id := e.job])
  }

  /** Every event of `events`, in that order, applied to an empty table. */
  function Replay(events: seq<Event>, log: seq<Event>): Result<Table, Rejection> {
    if events == [] then Ok(map[])
    else
      var earlier := Replay(events[..|events| - 1], log);
      if earlier.Err? then earlier else Apply(earlier.value, log, events[|events| - 1])
  }

  /** The store's listing of an event table. */
  function Listing(log: seq<Event>): (r: seq<Event>)
    ensures multiset(r) == multiset(log)
    ensures Sorted(r, (e: Event) => e.Key())
  {
    SortBy(log, (e: Event) => e.Key())
  }

  /** Replay keeps, for each job, the snapshot of the last event that concerns it. */
  lemma {:induction false} ReplayKeepsLast(events: seq<Event>, log: seq<Event>)
    requires Replay(events, log).Ok?
    ensures var t := Replay(events, log).value;
            forall j :: (j in t <==> History(events, j) != []) && (j in t ==> t[j] == Last(History(events, j)).job)
  {
    if events != [] {
      var earlier := events[..|events| - 1];
      assert events == earlier + [Last(events)];
      ReplayKeepsLast(earlier, log);
      forall j {
        HistoryAppend(earlier, Last(events), j);
      }
    }
  }

  // ------------------------------------------------------------- when replay refuses

  /** The latest snapshot of job `j` holds the key. */
  ghost predicate HoldsKey(events: seq<Event>, j: Id, key: Option<string>) {
    var h := History(events, j);
    key.Some? && h != [] && Last(h).job.idempotencyKey == key
  }

  /** Where event `n` stands, no other job holds its key. */
  ghost predicate KeyFreeAt(events: seq<Event>, n: nat)
    requires n < |events|
  {
    events[n].Lifecycle? ==>
      forall j :: j != events[n].job.id ==> !HoldsKey(events[..n], j, events[n].job.idempotencyKey)
  }

  ghost predicate KeysFree(events: seq<Event>) {
    forall n {:trigger KeyFreeAt(events, n)} :: 0 <= n < |events| ==> KeyFreeAt(events, n)
  }

  lemma KeyFreeInPrefix(events: seq<Event>, e: Event, n: nat)
    requires n < |events|
    ensures KeyFreeAt(events + [e], n) <==> KeyFreeAt(events, n)
  {
    assert (events + [e])[..n] == events[..n] && (events + [e])[n] == events[n];
  }

  lemma KeysFreeSnoc(events: seq<Event>, e: Event)
    ensures KeysFree(events + [e]) <==> KeysFree(events) && KeyFreeAt(events + [e], |events|)
  {
    var longer := events + [e];
    if KeysFree(longer) {
      forall n | 0 <= n < |events| ensures KeyFreeAt(events, n) {
        assert KeyFreeAt(longer, n);
        KeyFreeInPrefix(events, e, n);
      }
      assert KeyFreeAt(longer, |events|);
    }
    if KeysFree(events) && KeyFreeAt(longer, |events|) {
      forall n | 0 <= n < |longer| ensures KeyFreeAt(longer, n) {
        if n < |events| {
          assert KeyFreeAt(events, n);
          KeyFreeInPrefix(events, e, n);
        }
      }
    }
  }

  /** Replay refuses exactly when some event fails its guards, or takes a key that another job holds at
      that point. */
  lemma {:induction false} ReplayRefuses(events: seq<Event>, log: seq<Event>)
    ensures Replay(events, log).Ok? <==> AllPass(events, log) && KeysFree(events)
  {
    if events != [] {
      var n := |events| - 1;
      var earlier := events[..n];
      assert events == earlier + [events[n]];
      assert forall e :: e in events <==> e in earlier || e == events[n];
      ReplayRefuses(earlier, log);
      KeysFreeSnoc(earlier, events[n]);
      assert AllPass(events, log) <==> AllPass(earlier, log) && Passes(log, events[n]);
      if Replay(earlier, log).Ok? { ObjectionIff(earlier, log, events[n]); }
    }
  }

  lemma ObjectionIff(earlier: seq<Event>, log: seq<Event>, e: Event)
    requires Replay(earlier, log).Ok?
    ensures Objection(Replay(earlier, log).value, log, e).None?
            <==> Passes(log, e) && KeyFreeAt(earlier + [e], |earlier|)
  {
    var table := Replay(earlier, log).value;
    ReplayKeepsLast(earlier, log);
    assert (earlier + [e])[..|earlier|] == earlier;
    if e.Lifecycle? {
      var key := e.job.idempotencyKey;
      forall j ensures HoldsKey(earlier, j, key) <==> key.Some? && j in table && table[j].idempotencyKey == key {
        assert j in table <==> History(earlier, j) != [];
      }
    }
  }

  predicate SharesKey(e: Event, f: Event) {
    e.Lifecycle? && f.Lifecycle? && e.job.idempotencyKey.Some? && e.job.idempotencyKey == f.job.idempotencyKey
  }

  /** No key occurs in snapshots of two jobs. */
  ghost predicate OneJobPerKey(events: seq<Event>) {
    forall e, f :: e in events && f in events && SharesKey(e, f) ==> e.job.id == f.job.id
  }

  /** All snapshots of a job carry the same key, as those of a queue do. */
  ghost predicate KeysKept(events: seq<Event>) {
    forall e, f :: e in events && f in events && e.Lifecycle? && f.Concerns(e.job.id)
                   ==> e.job.idempotencyKey == f.job.idempotencyKey
  }

  /** Where jobs keep their keys, the order of the events does not matter: keys are free throughout exactly
      when no two jobs share one. */
  lemma FreeKeysIff(events: seq<Event>)
    requires KeysKept(events)
    ensures KeysFree(events) <==> OneJobPerKey(events)
  {
    if OneJobPerKey(events) {
      forall n | 0 <= n < |events| ensures KeyFreeAt(events, n) {
        forall j | events[n].Lifecycle? && j != events[n].job.id
          ensures !HoldsKey(events[..n], j, events[n].job.idempotencyKey)
        {
          HistoryMembers(events[..n], j);
          var h := History(events[..n], j);
          if h != [] { assert Last(h) in h && Last(h) in events; }
        }
      }
    }
    if KeysFree(events) {
      forall e, f | e in events && f in events && SharesKey(e, f) ensures e.job.id == f.job.id {
        var i :| 0 <= i < |events| && events[i] == e;
        var k :| 0 <= k < |events| && events[k] == f;
        if i < k { LaterKeyIsFree(events, i, k); } else if k < i { LaterKeyIsFree(events, k, i); }
      }
    }
  }

  lemma LaterKeyIsFree(events: seq<Event>, i: nat, k: nat)
    requires KeysKept(events) && KeysFree(events) && i < k < |events| && SharesKey(events[i], events[k])
    ensures events[i].job.id == events[k].job.id
  {
    var j := events[i].job.id;
    var h := History(events[..k], j);
    HistoryMembers(events[..k], j);
    assert events[..k][i] == events[i] && events[i] in events[..k];
    assert Last(h) in h && Last(h) in events;
    assert KeyFreeAt(events, k) && HoldsKey(events[..k], j, events[i].job.idempotencyKey);
  }

  lemma ReplayNext(events: seq<Event>, i: nat, log: seq<Event>)
    requires i < |events| && Replay(events, log).Ok?
    ensures Replay(events[..i], log).Ok?
    ensures Replay(events[..i + 1], log) == Apply(Replay(events[..i], log).value, log, events[i])
    ensures Replay(events[..i + 1], log).Ok?
    decreases |events|
  {
    if i + 1 < |events| {
      assert events[..|events| - 1][..i] == events[..i] && events[..|events| - 1][..i + 1] == events[..i + 1];
      ReplayNext(events[..|events| - 1], i, log);
    } else {
      assert events[..i + 1] == events;
    }
  }

  /** In a listing, the last event of a job is the one with the greatest key. */
  lemma ListedLast(listing: seq<Event>, j: Id)
    requires Sorted(listing, (e: Event) => e.Key())
    requires History(listing, j) != []
    ensures var last := Last(History(listing, j));
            last in listing && forall e :: e in listing && e.Concerns(j) ==> KeyAtMost(e.Key(), last.Key())
    decreases |listing|
  {
    var n := |listing| - 1;
    assert listing == listing[..n] + [listing[n]];
    if !listing[n].Concerns(j) {
      assert Sorted(listing[..n], (e: Event) => e.Key());
      ListedLast(listing[..n], j);
    } else {
      forall e | e in listing && e.Concerns(j) ensures KeyAtMost(e.Key(), listing[n].Key()) {
        var i :| 0 <= i < |listing| && listing[i] == e;
        var key := (e: Event) => e.Key();
        assert i < n ==> KeyAtMost(key(listing[i]), key(listing[n]));
      }
    }
  }

  /** No other event of a job is as recent as the one appended last. */
  lemma OnlyLastIsLatest(log: seq<Event>, j: Id, e: Event)
    requires Path(History(log, j)) && e in log && e.Concerns(j)
    requires KeyAtMost(Last(History(log, j)).Key(), e.Key())
    ensures e == Last(History(log, j))
  {
    var h := History(log, j);
    PathIncreasing(h);
    HistoryMembers(log, j);
    var i :| 0 <= i < |h| && h[i] == e;
  }

  /** A well-formed history ends with the same event however the log is listed. */
  lemma ListingEndsLikeLog(log: seq<Event>, listing: seq<Event>, j: Id)
    requires multiset(listing) == multiset(log)
    requires Sorted(listing, (e: Event) => e.Key())
    requires Path(History(log, j))
    ensures History(listing, j) != [] && Last(History(listing, j)) == Last(History(log, j))
  {
    SameMembers(log, listing);
    HistoryMembers(log, j);
    HistoryMembers(listing, j);
    var last := Last(History(log, j));
    assert last in History(log, j);
    assert last in History(listing, j);
    ListedLast(listing, j);
    var e := Last(History(listing, j));
    assert e in History(listing, j);
    OnlyLastIsLatest(log, j, e);
  }
}
