/** `sorted(values, key=...)` and `ORDER BY`: an ascending sort by key. */
module Sorting {
  import opened Common

  ghost predicate Sorted<T>(values: seq<T>, key: T -> Key) {
    forall i, j :: 0 <= i < j < |values| ==> KeyAtMost(key(values[i]), key(values[j]))
  }

  /** Where `value` goes so that everything before it is no greater. */
  function Slot<T>(value: T, values: seq<T>, key: T -> Key): (n: nat)
    ensures n <= |values|
    ensures Sorted(values, key) ==>
              (forall i :: 0 <= i < n ==> KeyAtMost(key(values[i]), key(value)))
              && (forall i :: n <= i < |values| ==> KeyAtMost(key(value), key(values[i])))
  {
    if values == [] || KeyAtMost(key(values[|values| - 1]), key(value)) then |values|
    else
      Slot(value, values[..|values| - 1], key)
  }

  function Place<T>(value: T, values: seq<T>, n: nat): (r: seq<T>)
    requires n <= |values|
    ensures multiset(r) == multiset(values) + multiset{value}
  {
    assert values == values[..n] + values[n..];
    values[..n] + [value] + values[n..]
  }

  lemma PlaceKeepsSorted<T>(value: T, values: seq<T>, key: T -> Key)
    requires Sorted(values, key)
    ensures Sorted(Place(value, values, Slot(value, values, key)), key)
  {
    var n := Slot(value, values, key);
    var r := Place(value, values, n);
    assert |r| == |values| + 1 && r[n] == value;
    assert forall i :: 0 <= i < n ==> r[i] == values[i];
    assert forall i :: n < i < |r| ==> r[i] == values[i - 1];
    forall i, j | 0 <= i < j < |r| ensures KeyAtMost(key(r[i]), key(r[j])) {
      if i < n && j > n {
        assert KeyAtMost(key(values[i]), key(values[j - 1]));
      }
    }
  }

  function SortBy<T>(values: seq<T>, key: T -> Key): (r: seq<T>)
    ensures multiset(r) == multiset(values)
    ensures Sorted(r, key)
  {
    if values == [] then []
    else
      var value := values[|values| - 1];
      var rest := SortBy(values[..|values| - 1], key);
      PlaceKeepsSorted(value, rest, key);
      assert values == values[..|values| - 1] + [value];
      Place(value, rest, Slot(value, rest, key))
  }

  /** Equal multisets hold the same values. */
  lemma SameMembers<T>(a: seq<T>, b: seq<T>)
    requires multiset(a) == multiset(b)
    ensures |a| == |b|
    ensures forall v :: v in a <==> v in b
  {
    assert |multiset(a)| == |a| && |multiset(b)| == |b|;
    forall v ensures v in a <==> v in b {
      assert v in a <==> v in multiset(a);
      assert v in b <==> v in multiset(b);
    }
  }

  ghost predicate NoDuplicates<T>(values: seq<T>) {
    forall i, j :: 0 <= i < j < |values| ==> values[i] != values[j]
  }

  lemma {:induction false} CountedOnce<T>(values: seq<T>, v: T)
    requires NoDuplicates(values)
    ensures multiset(values)[v] == if v in values then 1 else 0
  {
    if values != [] {
      var n := |values| - 1;
      assert values == values[..n] + [values[n]];
      CountedOnce(values[..n], v);
      if v in values[..n] { assert v != values[n]; }
    }
  }

  lemma NoDuplicatesReordered<T>(a: seq<T>, b: seq<T>)
    requires NoDuplicates(a) && multiset(a) == multiset(b)
    ensures NoDuplicates(b)
  {
    forall i, j | 0 <= i < j < |b| ensures b[i] != b[j] {
      CountedOnce(a, b[i]);
      assert b == b[..j] + b[j..];
      assert b[i] in b[..j] && b[j] in b[j..];
      assert multiset(b)[b[i]] == multiset(b[..j])[b[i]] + multiset(b[j..])[b[i]];
      assert b[i] in multiset(b[..j]) && b[j] in multiset(b[j..]);
    }
  }

  lemma SameMembersOnce<T>(a: seq<T>, b: seq<T>)
    requires NoDuplicates(a) && NoDuplicates(b) && forall v :: v in a <==> v in b
    ensures multiset(a) == multiset(b)
  {
    forall v ensures multiset(a)[v] == multiset(b)[v] {
      CountedOnce(a, v);
      CountedOnce(b, v);
    }
  }
}
