/** Facts about finite sequences and sets that several components share. */
module Collections {

  datatype Option<+T> = None | Some(value: T)

  datatype Result<+T, +E> = Ok(value: T) | Err(error: E)

  ghost predicate Distinct<T>(s: seq<T>) {
    forall i, j :: 0 <= i < j < |s| ==> s[i] != s[j]
  }

  function ToSet<T>(s: seq<T>): set<T> {
    set x | x in s
  }

  /** The position of a member of a sequence. */
  function IndexOf<T(==)>(s: seq<T>, x: T): (i: nat)
    requires x in s
    ensures i < |s| && s[i] == x
  {
    if s[0] == x then 0 else 1 + IndexOf(s[1..], x)
  }

  function Filter<T(!new)>(keep: T -> bool, s: seq<T>): (r: seq<T>)
    ensures forall x :: x in r <==> x in s && keep(x)
  {
    if s == [] then []
    else if keep(s[|s|-1]) then Filter(keep, s[..|s|-1]) + [s[|s|-1]]
    else Filter(keep, s[..|s|-1])
  }

  /** `r` lists the members of `s` at the ascending positions `at`. */
  ghost predicate Selects<T>(s: seq<T>, r: seq<T>, at: seq<nat>) {
    && |at| == |r|
    && (forall i, j :: 0 <= i < j < |at| ==> at[i] < at[j])
    && forall i :: 0 <= i < |at| ==> at[i] < |s| && r[i] == s[at[i]]
  }

  lemma SelectsMore<T>(front: seq<T>, x: T, r: seq<T>, at: seq<nat>)
    requires Selects(front, r, at)
    ensures Selects(front + [x], r, at)
    ensures Selects(front + [x], r + [x], at + [|front|])
  {
  }

  /** Filtering selects a subsequence. */
  lemma {:induction false} FilterKeepsOrder<T(!new)>(keep: T -> bool, s: seq<T>) returns (at: seq<nat>)
    ensures Selects(s, Filter(keep, s), at)
  {
    if s == [] {
      at := [];
    } else {
      var front, x := s[..|s|-1], s[|s|-1];
      at := FilterKeepsOrder(keep, front);
      assert s == front + [x];
      SelectsMore(front, x, Filter(keep, front), at);
      hide Selects;
      if keep(x) {
        at := at + [|front|];
      }
    }
  }

  /** Filtering keeps sequences free of repetitions. */
  lemma {:induction false} FilterDistinct<T(!new)>(keep: T -> bool, s: seq<T>)
    requires Distinct(s)
    ensures Distinct(Filter(keep, s))
  {
    if s != [] {
      FilterDistinct(keep, s[..|s|-1]);
    }
  }

  /** A sequence without repetitions has as many members as positions. */
  lemma {:induction false} DistinctCardinality<T>(s: seq<T>)
    requires Distinct(s)
    ensures |ToSet(s)| == |s|
  {
    if s != [] {
      var front, last := s[..|s|-1], s[|s|-1];
      DistinctCardinality(front);
      assert s == front + [last] && last !in front;
      assert ToSet(s) == ToSet(front) + {last};
    }
  }

  lemma SubsetCardinality<T>(a: set<T>, b: set<T>)
    requires a <= b
    ensures |a| <= |b|
    ensures |a| == |b| ==> a == b
  {
    assert b == a + (b - a);
  }

  /** Pigeonhole: a sequence over a smaller set visits some member twice. */
  lemma Pigeonhole<T>(s: seq<T>, pool: set<T>) returns (i: nat, j: nat)
    requires ToSet(s) <= pool
    requires |s| > |pool|
    ensures i < j < |s| && s[i] == s[j]
  {
    if Distinct(s) {
      DistinctCardinality(s);
      SubsetCardinality(ToSet(s), pool);
      assert false;
    }
    i, j :| 0 <= i < j < |s| && s[i] == s[j];
  }

  lemma TakeMore<T>(s: seq<T>, k: nat)
    requires k < |s|
    ensures s[..k+1] == s[..k] + [s[k]]
  {
  }

  lemma {:induction false} DistinctCount<T>(s: seq<T>, x: T)
    requires Distinct(s)
    ensures multiset(s)[x] == if x in s then 1 else 0
  {
    if s != [] {
      var front := s[..|s|-1];
      assert s == front + [s[|s|-1]];
      DistinctCount(front, x);
    }
  }

  lemma TwiceCounts<T>(s: seq<T>, i: nat, j: nat)
    requires i < j < |s| && s[i] == s[j]
    ensures multiset(s)[s[i]] >= 2
  {
    assert s == s[..i] + [s[i]] + s[i+1..j] + [s[j]] + s[j+1..];
  }

  /** The sequence with every member kept once, where it first occurs. */
  function FirstOnly<T(==, !new)>(s: seq<T>): (r: seq<T>)
    ensures Distinct(r) && forall x :: x in r <==> x in s
  {
    if s == [] then []
    else
      var front, last := FirstOnly(s[..|s|-1]), s[|s|-1];
      if last in front then front else front + [last]
  }

  lemma FirstOnlySnoc<T(!new)>(s: seq<T>, x: T)
    ensures FirstOnly(s + [x]) == if x in s then FirstOnly(s) else FirstOnly(s) + [x]
  {
    assert (s + [x])[..|s|] == s;
  }

  lemma {:induction false} FirstOnlyOfDistinct<T(!new)>(s: seq<T>)
    requires Distinct(s)
    ensures FirstOnly(s) == s
  {
    if s != [] {
      FirstOnlyOfDistinct(s[..|s|-1]);
    }
  }
}
