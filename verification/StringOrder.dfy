/** The order of strings by which ordered maps and ordered queries go. */
module StringOrder {
  /** The order of strings: by first difference, shorter first. */
  predicate Before(a: string, b: string) {
    if b == [] then false
    else if a == [] then true
    else a[0] < b[0] || (a[0] == b[0] && Before(a[1..], b[1..]))
  }

  lemma {:induction false} BeforeIsTransitive(a: string, b: string, c: string)
    requires Before(a, b) && Before(b, c)
    ensures Before(a, c)
  {
    if a != [] && a[0] == b[0] && b[0] == c[0] {
      BeforeIsTransitive(a[1..], b[1..], c[1..]);
    }
  }

  lemma {:induction false} BeforeIsTotal(a: string, b: string)
    ensures a == b || Before(a, b) || Before(b, a)
  {
    if a != [] && b != [] && a[0] == b[0] {
      BeforeIsTotal(a[1..], b[1..]);
      assert a == [a[0]] + a[1..] && b == [b[0]] + b[1..];
    }
  }

  lemma {:induction false} BeforeIsIrreflexive(a: string)
    ensures !Before(a, a)
  {
    if a != [] {
      BeforeIsIrreflexive(a[1..]);
    }
  }

  /** At position `i` the strings differ for the first time, and `a` has the smaller character. */
  predicate SmallerAt(a: string, b: string, i: nat) {
    i < |a| && i < |b| && a[..i] == b[..i] && a[i] < b[i]
  }

  /** One string comes before another if it is a proper prefix of it or smaller at the first difference. */
  lemma {:induction false} BeforeIsFirstDifference(a: string, b: string)
    ensures Before(a, b) <==> (a <= b && a != b) || exists i: nat :: SmallerAt(a, b, i)
  {
    if a != [] && b != [] {
      assert a == [a[0]] + a[1..] && b == [b[0]] + b[1..];
      if a[0] == b[0] {
        BeforeIsFirstDifference(a[1..], b[1..]);
        forall i: nat
          ensures SmallerAt(a[1..], b[1..], i) <==> SmallerAt(a, b, i + 1)
        {
          assert i < |a| - 1 ==> a[..i+1] == [a[0]] + a[1..][..i];
          assert i < |b| - 1 ==> b[..i+1] == [b[0]] + b[1..][..i];
        }
        if i: nat :| SmallerAt(a, b, i) {
          assert i > 0 && SmallerAt(a[1..], b[1..], i - 1);
        }
        if i: nat :| SmallerAt(a[1..], b[1..], i) {
          assert SmallerAt(a, b, i + 1);
        }
      } else {
        assert a[0] < b[0] ==> SmallerAt(a, b, 0);
        forall i: nat
          ensures SmallerAt(a, b, i) ==> a[0] < b[0]
        {
          assert i > 0 && SmallerAt(a, b, i) ==> a[..i][0] == b[..i][0];
        }
      }
    }
  }
}
