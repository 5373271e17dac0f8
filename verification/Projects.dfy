/** Grouping steps by project, in the key order of the source's ordered map. */
module Projects {
  import opened Collections
  import opened Steps
  import opened StringOrder

  type Group = (string, seq<Step>)

  const DEFAULT_PROJECT: string := "default"

  /** The group a step belongs to; with boundaries off every step is in the default group. */
  function Key(respectBoundaries: bool, s: Step): string {
    if !respectBoundaries then DEFAULT_PROJECT
    else match s.project
         case Some(p) => p
         case None => DEFAULT_PROJECT
  }

  /** Steps of one project; a step without one belongs to the project "default". */
  predicate SameProject(a: Step, b: Step) {
    || a.project == b.project
    || ((a.project == None || a.project == Some("default")) && (b.project == None || b.project == Some("default")))
  }

  /** With boundaries on, keys separate projects; with boundaries off there is one key. */
  lemma KeysSeparateProjects(a: Step, b: Step)
    ensures Key(true, a) == Key(true, b) <==> SameProject(a, b)
    ensures Key(false, a) == "default"
  {
  }

  ghost predicate KeysAscend(groups: seq<Group>) {
    forall i, j :: 0 <= i < j < |groups| ==> Before(groups[i].0, groups[j].0)
  }

  /** Append a step to the entry of its key, creating the entry in key order. */
  function Put(groups: seq<Group>, key: string, s: Step): seq<Group> {
    if groups == [] then [(key, [s])]
    else if groups[0].0 == key then [(key, groups[0].1 + [s])] + groups[1..]
    else if Before(key, groups[0].0) then [(key, [s])] + groups
    else [groups[0]] + Put(groups[1..], key, s)
  }

  /** The steps filed under a key. */
  function Get(groups: seq<Group>, key: string): seq<Step> {
    if groups == [] then [] else if groups[0].0 == key then groups[0].1 else Get(groups[1..], key)
  }

  function AllSteps(groups: seq<Group>): seq<Step> {
    if groups == [] then [] else groups[0].1 + AllSteps(groups[1..])
  }

  lemma {:induction false} PutKeepsOrder(groups: seq<Group>, key: string, s: Step)
    requires KeysAscend(groups)
    ensures KeysAscend(Put(groups, key, s))
    ensures forall i :: 0 <= i < |Put(groups, key, s)| ==>
              || Put(groups, key, s)[i].0 == key
              || exists j :: 0 <= j < |groups| && groups[j].0 == Put(groups, key, s)[i].0
  {
    var r := Put(groups, key, s);
    if groups == [] {
    } else if groups[0].0 == key {
      assert forall i :: 0 < i < |r| ==> r[i] == groups[i];
    } else if Before(key, groups[0].0) {
      forall j | 0 < j < |r|
        ensures Before(key, r[j].0)
      {
        assert r[j] == groups[j-1];
        if j > 1 {
          BeforeIsTransitive(key, groups[0].0, groups[j-1].0);
        }
      }
    } else {
      BeforeIsTotal(key, groups[0].0);
      PutKeepsOrder(groups[1..], key, s);
    }
  }

  lemma {:induction false} PutFiles(groups: seq<Group>, key: string, s: Step, q: string)
    requires KeysAscend(groups)
    ensures Get(Put(groups, key, s), q) == if q == key then Get(groups, key) + [s] else Get(groups, q)
    ensures multiset(AllSteps(Put(groups, key, s))) == multiset(AllSteps(groups)) + multiset{s}
  {
    if groups != [] && groups[0].0 != key {
      if Before(key, groups[0].0) {
        forall i | 0 <= i < |groups|
          ensures groups[i].0 != key
        {
          BeforeIsIrreflexive(key);
          if i > 0 {
            BeforeIsTransitive(key, groups[0].0, groups[i].0);
          }
        }
        NotFiled(groups, key);
      } else {
        PutFiles(groups[1..], key, s, q);
      }
    }
  }

  lemma {:induction false} NotFiled(groups: seq<Group>, key: string)
    requires forall i :: 0 <= i < |groups| ==> groups[i].0 != key
    ensures Get(groups, key) == []
  {
    if groups != [] {
      NotFiled(groups[1..], key);
    }
  }

  lemma {:induction false} FiledAt(groups: seq<Group>, i: nat)
    requires KeysAscend(groups) && i < |groups|
    ensures Get(groups, groups[i].0) == groups[i].1
  {
    if i > 0 {
      BeforeIsIrreflexive(groups[0].0);
      FiledAt(groups[1..], i - 1);
    }
  }

  lemma {:induction false} FiledSomewhere(groups: seq<Group>, key: string) returns (i: nat)
    requires Get(groups, key) != []
    ensures i < |groups| && groups[i].0 == key && groups[i].1 == Get(groups, key)
  {
    if groups[0].0 == key {
      i := 0;
    } else {
      var j := FiledSomewhere(groups[1..], key);
      i := j + 1;
    }
  }

  function ProjectGroups(steps: seq<Step>, respectBoundaries: bool): seq<Group> {
    if steps == [] then []
    else
      var last := steps[|steps|-1];
      Put(ProjectGroups(steps[..|steps|-1], respectBoundaries), Key(respectBoundaries, last), last)
  }

  ghost function OfKey(steps: seq<Step>, respectBoundaries: bool, key: string): seq<Step> {
    Filter((s: Step) => Key(respectBoundaries, s) == key, steps)
  }

  /** The groups are the steps of each key in step order, keys ascending, and lose no step. */
  lemma {:induction false} GroupsAreFilters(steps: seq<Step>, respectBoundaries: bool)
    ensures var groups := ProjectGroups(steps, respectBoundaries);
            && KeysAscend(groups)
            && (forall key :: Get(groups, key) == OfKey(steps, respectBoundaries, key))
            && multiset(AllSteps(groups)) == multiset(steps)
  {
    if steps != [] {
      var front, last := steps[..|steps|-1], steps[|steps|-1];
      GroupsAreFilters(front, respectBoundaries);
      assert steps == front + [last];
      var groups, key := ProjectGroups(front, respectBoundaries), Key(respectBoundaries, last);
      assert ProjectGroups(steps, respectBoundaries) == Put(groups, key, last);
      hide ProjectGroups, Put, Get, AllSteps, OfKey, KeysAscend, Key;
      PutKeepsOrder(groups, key, last);
      forall q
        ensures Get(Put(groups, key, last), q) == OfKey(steps, respectBoundaries, q)
      {
        PutFiles(groups, key, last, q);
        OfKeySnoc(front, last, respectBoundaries, q);
        assert OfKey(front, respectBoundaries, q) + [] == OfKey(front, respectBoundaries, q);
      }
      PutFiles(groups, key, last, key);
    }
  }

  lemma OfKeySnoc(front: seq<Step>, last: Step, respectBoundaries: bool, q: string)
    ensures OfKey(front + [last], respectBoundaries, q) ==
              OfKey(front, respectBoundaries, q) + if Key(respectBoundaries, last) == q then [last] else []
  {
    assert (front + [last])[..|front|] == front;
  }

  lemma GroupHolds(steps: seq<Step>, respectBoundaries: bool, i: nat, s: Step)
    requires i < |ProjectGroups(steps, respectBoundaries)|
    ensures var g := ProjectGroups(steps, respectBoundaries)[i];
            s in g.1 <==> s in steps && Key(respectBoundaries, s) == g.0
  {
    GroupsAreFilters(steps, respectBoundaries);
    FiledAt(ProjectGroups(steps, respectBoundaries), i);
  }

  /** A group is named after the project of its steps and holds every step of that project. */
  lemma GroupsAreNamed(steps: seq<Step>, i: nat, s: Step)
    requires i < |ProjectGroups(steps, true)|
    ensures var g := ProjectGroups(steps, true)[i];
            s in g.1 <==> s in steps && (s.project == Some(g.0) || (s.project == None && g.0 == "default"))
  {
    GroupHolds(steps, true, i, s);
  }

  lemma {:induction false} OneGroupWithoutBoundaries(steps: seq<Step>)
    requires steps != []
    ensures ProjectGroups(steps, false) == [(DEFAULT_PROJECT, steps)]
  {
    var front := steps[..|steps|-1];
    assert steps == front + [steps[|steps|-1]];
    if front != [] {
      OneGroupWithoutBoundaries(front);
    }
  }

  /** Group by project, or keep one group when boundaries are off. */
  method GroupByProject(steps: seq<Step>, respectBoundaries: bool) returns (groups: seq<Group>)
    ensures steps != [] ==> groups == ProjectGroups(steps, respectBoundaries)
    ensures steps == [] ==> groups == if respectBoundaries then [] else [(DEFAULT_PROJECT, [])]
  {
    if !respectBoundaries {
      if steps != [] {
        OneGroupWithoutBoundaries(steps);
      }
      return [(DEFAULT_PROJECT, steps)];
    }
    groups := [];
    for k := 0 to |steps|
      invariant groups == ProjectGroups(steps[..k], respectBoundaries)
    {
      assert steps[..k+1][..k] == steps[..k];
      var key := match steps[k].project
                 case Some(p) => p
                 case None => DEFAULT_PROJECT;
      groups := Put(groups, key, steps[k]);
    }
    assert steps[..|steps|] == steps;
  }
}
