/** Value types shared by every component of the model. */
module Common {

  datatype Option<+T> = None | Some(value: T)

  datatype Result<+T, +E> = Ok(value: T) | Err(error: E)

  function Least(a: int, b: int): int {
    if a < b then a else b
  }

  /** Event, job and correlation identifiers. Only their order and equality matter to
      the code; the Ids module shows that the order of generated identifiers as
      strings is the order of the numbers they encode. */
  type Id = int

  /** Instants and durations in microseconds. */
  type Time = int

  /** The store lists events by creation time, then by identifier. */
  datatype Key = Key(time: Time, id: Id)

  predicate KeyLess(a: Key, b: Key) {
    a.time < b.time || (a.time == b.time && a.id < b.id)
  }

  predicate KeyAtMost(a: Key, b: Key) {
    !KeyLess(b, a)
  }

  lemma SomeMember<T>(values: set<T>) returns (v: T)
    requires values != {}
    ensures v in values
  {
    v :| v in values;
  }

  /** A loop over the set `all`: what is still to do and what has been done. */
  ghost predicate Split<T>(all: set<T>, todo: set<T>, done: set<T>) {
    todo <= all && done <= all && forall x :: x in all ==> x in todo || x in done
  }

  lemma SplitMove<T>(all: set<T>, todo: set<T>, done: set<T>, x: T)
    requires Split(all, todo, done) && x in todo
    ensures Split(all, todo - {x}, done + {x})
  {
  }

  lemma SplitDone<T>(all: set<T>, done: set<T>)
    requires Split(all, {}, done)
    ensures done == all
  {
  }

  lemma SubsetSize<T>(some: set<T>, all: set<T>)
    requires some <= all
    ensures |some| <= |all| && (|some| == |all| <==> some == all)
  {
    assert all == some + (all - some);
  }

  lemma Associative<T>(a: seq<T>, b: seq<T>, c: seq<T>)
    ensures (a + b) + c == a + (b + c)
  {
  }

  /** `list(dict.fromkeys(...))`: first occurrences, in order. */
  function Dedup<T(==)>(values: seq<T>): seq<T> {
    if values == [] then []
    else
      var last := values[|values| - 1];
      Dedup(values[..|values| - 1]) + if last in values[..|values| - 1] then [] else [last]
  }

  lemma {:induction false} DedupMembers<T>(values: seq<T>, x: T)
    ensures x in Dedup(values) <==> x in values
  {
    if values != [] {
      DedupMembers(values[..|values| - 1], x);
      DedupMembers(values[..|values| - 1], values[|values| - 1]);
      assert values == values[..|values| - 1] + [values[|values| - 1]];
    }
  }
}
