/** Stable sorting by a key, and why a strictly sorted listing is unique. */
module Sorting {
  import opened Collections

  ghost predicate StrictlySorted<T>(key: T -> int, s: seq<T>) {
    forall i, j :: 0 <= i < j < |s| ==> key(s[i]) < key(s[j])
  }

  /** Insert before the first element with a larger key. */
  function Insert<T>(key: T -> int, x: T, s: seq<T>): (r: seq<T>)
    ensures multiset(r) == multiset(s) + multiset{x}
    ensures |r| == |s| + 1
  {
    if s == [] then [x]
    else if key(x) < key(s[0]) then [x] + s
    else
      assert s == [s[0]] + s[1..];
      [s[0]] + Insert(key, x, s[1..])
  }

  function SortBy<T>(key: T -> int, s: seq<T>): (r: seq<T>)
    ensures multiset(r) == multiset(s)
    ensures |r| == |s|
  {
    if s == [] then []
    else
      assert s == s[..|s|-1] + [s[|s|-1]];
      Insert(key, s[|s|-1], SortBy(key, s[..|s|-1]))
  }

  lemma SameMembers<T>(a: seq<T>, b: seq<T>)
    requires multiset(a) == multiset(b)
    ensures forall x :: x in a <==> x in b
  {
    forall x
      ensures x in a <==> x in b
    {
      assert x in a <==> x in multiset(a);
      assert x in b <==> x in multiset(b);
    }
  }

  lemma {:induction false} InsertStrict<T>(key: T -> int, x: T, s: seq<T>)
    requires StrictlySorted(key, s) && forall y :: y in s ==> key(y) != key(x)
    ensures StrictlySorted(key, Insert(key, x, s))
  {
    if s != [] && key(x) >= key(s[0]) {
      InsertStrict(key, x, s[1..]);
      var r := Insert(key, x, s[1..]);
      forall j | 0 <= j < |r|
        ensures key(s[0]) < key(r[j])
      {
        assert r[j] in multiset(r);
        assert r[j] == x || r[j] in s[1..];
      }
    }
  }

  ghost predicate DistinctKeys<T>(key: T -> int, s: seq<T>) {
    forall i, j :: 0 <= i < j < |s| ==> key(s[i]) != key(s[j])
  }

  /** Sorting by a key without ties gives a strictly sorted sequence. */
  lemma {:induction false} SortByStrict<T>(key: T -> int, s: seq<T>)
    requires DistinctKeys(key, s)
    ensures StrictlySorted(key, SortBy(key, s))
  {
    if s != [] {
      var front := s[..|s|-1];
      SortByStrict(key, front);
      var sorted := SortBy(key, front);
      forall y | y in sorted
        ensures key(y) != key(s[|s|-1])
      {
        assert y in multiset(sorted) && y in multiset(front);
        var i :| 0 <= i < |front| && front[i] == y;
        assert s[i] == y;
      }
      InsertStrict(key, s[|s|-1], SortBy(key, front));
    }
  }

  /** Two strictly sorted sequences with the same members are equal. */
  lemma {:induction false} StrictlySortedUnique<T>(key: T -> int, a: seq<T>, b: seq<T>)
    requires StrictlySorted(key, a) && StrictlySorted(key, b)
    requires forall x :: x in a <==> x in b
    ensures a == b
  {
    DistinctCardinality(a);
    DistinctCardinality(b);
    assert ToSet(a) == ToSet(b);
    if a != [] {
      assert a[0] in b && b[0] in a;
      assert a[0] == b[0];
      forall x
        ensures x in a[1..] <==> x in b[1..]
      {
        assert x in a[1..] <==> x in a && x != a[0];
        assert x in b[1..] <==> x in b && x != b[0];
      }
      StrictlySortedUnique(key, a[1..], b[1..]);
      assert a == [a[0]] + a[1..] && b == [b[0]] + b[1..];
    }
  }
}
