/** Handoff steps and the dependency relation inside a group of steps. */
module Steps {
  import opened Collections

  /** An effort estimate: parsed to seconds, or a text that does not parse. */
  datatype Effort = Secs(n: nat) | Unparsed

  /** A dependency text: it names a step, or it is not of the form "Step n". */
  datatype Dependency = StepRef(number: nat) | Unrecognised

  datatype Step = Step(number: nat, title: string, project: Option<string>, effort: Option<Effort>,
                       dependsOn: seq<Dependency>)

  function NumberOf(): Step -> int {
    (s: Step) => s.number
  }

  function Numbers(steps: seq<Step>): set<nat> {
    set i | 0 <= i < |steps| :: steps[i].number
  }

  ghost predicate DistinctNumbers(steps: seq<Step>) {
    forall i, j :: 0 <= i < j < |steps| ==> steps[i].number != steps[j].number
  }

  /** Step `a` names step `b` of the same group as a dependency. */
  ghost predicate DependsOn(steps: seq<Step>, a: nat, b: nat) {
    b in Numbers(steps) && exists s :: s in steps && s.number == a && StepRef(b) in s.dependsOn
  }

  ghost predicate Adjacent(steps: seq<Step>, c: seq<nat>, i: int)
    requires 0 <= i < |c| - 1
  {
    DependsOn(steps, c[i], c[i+1]) || DependsOn(steps, c[i+1], c[i])
  }

  /** A walk along dependencies, in either direction. */
  ghost predicate IsChain(steps: seq<Step>, c: seq<nat>, a: nat, b: nat) {
    && |c| > 0 && c[0] == a && c[|c|-1] == b
    && forall i :: 0 <= i < |c| - 1 ==> Adjacent(steps, c, i)
  }

  ghost predicate Connected(steps: seq<Step>, a: nat, b: nat) {
    exists c :: IsChain(steps, c, a, b)
  }

  lemma ConnectedReflexive(steps: seq<Step>, a: nat)
    ensures Connected(steps, a, a)
  {
    assert IsChain(steps, [a], a, a);
  }

  lemma DependencyConnects(steps: seq<Step>, a: nat, b: nat)
    requires DependsOn(steps, a, b)
    ensures Connected(steps, a, b)
  {
    assert Adjacent(steps, [a, b], 0);
    assert IsChain(steps, [a, b], a, b);
  }

  lemma ConnectedSymmetric(steps: seq<Step>, a: nat, b: nat)
    requires Connected(steps, a, b)
    ensures Connected(steps, b, a)
  {
    var c :| IsChain(steps, c, a, b);
    var r := seq(|c|, i requires 0 <= i < |c| => c[|c|-1-i]);
    forall i | 0 <= i < |r| - 1
      ensures Adjacent(steps, r, i)
    {
      assert Adjacent(steps, c, |c| - 2 - i);
    }
    assert IsChain(steps, r, b, a);
  }

  lemma ConnectedTransitive(steps: seq<Step>, x: nat, y: nat, z: nat)
    requires Connected(steps, x, y) && Connected(steps, y, z)
    ensures Connected(steps, x, z)
  {
    var c :| IsChain(steps, c, x, y);
    var d :| IsChain(steps, d, y, z);
    var e := c + d[1..];
    forall i | 0 <= i < |e| - 1
      ensures Adjacent(steps, e, i)
    {
      if i < |c| - 1 {
        assert Adjacent(steps, c, i);
      } else {
        assert e[i] == d[i-|c|+1] && e[i+1] == d[i-|c|+2];
        assert Adjacent(steps, d, i - |c| + 1);
      }
    }
    assert IsChain(steps, e, x, z);
  }

  /** A set that dependencies neither enter nor leave contains whole components. */
  ghost predicate Closed(steps: seq<Step>, s: set<nat>) {
    forall a, b :: DependsOn(steps, a, b) ==> (a in s <==> b in s)
  }

  lemma {:induction false} ChainStaysInside(steps: seq<Step>, c: seq<nat>, a: nat, b: nat, s: set<nat>)
    requires IsChain(steps, c, a, b) && Closed(steps, s) && a in s
    ensures b in s
    decreases |c|
  {
    if |c| > 1 {
      var front := c[..|c|-1];
      assert forall i :: 0 <= i < |front| - 1 ==> Adjacent(steps, c, i) ==> Adjacent(steps, front, i);
      ChainStaysInside(steps, front, a, front[|front|-1], s);
      assert Adjacent(steps, c, |c| - 2);
    }
  }

  lemma ConnectedStaysInside(steps: seq<Step>, a: nat, b: nat, s: set<nat>)
    requires Connected(steps, a, b) && Closed(steps, s) && a in s
    ensures b in s
  {
    var c :| IsChain(steps, c, a, b);
    ChainStaysInside(steps, c, a, b, s);
  }
}
