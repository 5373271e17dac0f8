/** Merging the steps of a project into dependency-connected groups. */
module Components {
  import opened Collections
  import opened Sorting
  import opened Steps
  import opened UnionFind

  // ------------------------------------------------------------------- the result

  function FirstNumber(): seq<Step> -> int {
    (g: seq<Step>) => if g == [] then 0 else g[0].number
  }

  /** Two steps stand in the same group exactly when they are connected. */
  ghost predicate GroupsAreComponents(steps: seq<Step>, groups: seq<seq<Step>>) {
    forall g, h, a, b :: g in groups && h in groups && a in g && b in h ==>
      (g == h <==> Connected(steps, a.number, b.number))
  }

  ghost predicate Covers(steps: seq<Step>, groups: seq<seq<Step>>) {
    && (forall s :: s in steps ==> exists g :: g in groups && s in g)
    && (forall g, s :: g in groups && s in g ==> s in steps)
  }

  /** The connected components, each sorted by number, listed by smallest number. */
  ghost predicate IsComponentListing(steps: seq<Step>, groups: seq<seq<Step>>) {
    && Covers(steps, groups)
    && GroupsAreComponents(steps, groups)
    && (forall g :: g in groups ==> g != [] && StrictlySorted(NumberOf(), g))
    && StrictlySorted(FirstNumber(), groups)
  }

  lemma GroupInside(steps: seq<Step>, xs: seq<seq<Step>>, ys: seq<seq<Step>>, g: seq<Step>, h: seq<Step>, s: Step,
                    t: Step)
    requires IsComponentListing(steps, xs) && IsComponentListing(steps, ys)
    requires g in xs && h in ys && s in g && s in h && t in g
    ensures t in h
  {
    hide Connected;
    assert t in steps;
    var h' :| h' in ys && t in h';
    assert Connected(steps, s.number, t.number);
    assert h == h';
  }

  lemma GroupReappears(steps: seq<Step>, xs: seq<seq<Step>>, ys: seq<seq<Step>>, g: seq<Step>)
    requires IsComponentListing(steps, xs) && IsComponentListing(steps, ys) && g in xs
    ensures g in ys
  {
    hide GroupsAreComponents;
    var s := g[0];
    assert s in steps;
    var h :| h in ys && s in h;
    forall t
      ensures t in g <==> t in h
    {
      if t in g {
        GroupInside(steps, xs, ys, g, h, s, t);
      }
      if t in h {
        GroupInside(steps, ys, xs, h, g, s, t);
      }
    }
    StrictlySortedUnique(NumberOf(), g, h);
  }

  /** There is one such listing, so no iteration order of the maps can show in the result. */
  lemma ListingIsUnique(steps: seq<Step>, xs: seq<seq<Step>>, ys: seq<seq<Step>>)
    requires IsComponentListing(steps, xs) && IsComponentListing(steps, ys)
    ensures xs == ys
  {
    forall g
      ensures g in xs <==> g in ys
    {
      if g in xs {
        GroupReappears(steps, xs, ys, g);
      }
      if g in ys {
        GroupReappears(steps, ys, xs, g);
      }
    }
    StrictlySortedUnique(FirstNumber(), xs, ys);
  }

  // ---------------------------------------------------------------- the algorithm

  function RefNumbers(deps: seq<Dependency>): (r: seq<nat>)
    ensures forall n :: n in r <==> StepRef(n) in deps
  {
    if deps == [] then []
    else
      var front := RefNumbers(deps[..|deps|-1]);
      match deps[|deps|-1]
      case StepRef(n) => front + [n]
      case Unrecognised => front
  }

  /** Step numbers to the numbers they name; a later step with the same number wins. */
  method BuildStepDeps(steps: seq<Step>) returns (deps: map<nat, seq<nat>>)
    requires DistinctNumbers(steps)
    ensures AreStepDeps(steps, deps)
  {
    deps := map[];
    for k := 0 to |steps|
      invariant deps.Keys == set i | 0 <= i < k :: steps[i].number
      invariant forall i :: 0 <= i < k ==> deps[steps[i].number] == RefNumbers(steps[i].dependsOn)
    {
      deps := deps[steps[k].number := RefNumbers(steps[k].dependsOn)];
    }
  }

  /** Elements under one root are connected. */
  ghost predicate RootsConnect(steps: seq<Step>, s: Shape) {
    forall x, y :: x in s.root && y in s.root && s.root[x] == s.root[y] ==> Connected(steps, x, y)
  }

  /** Every dependency of `a` on a number in `done` joined two trees. */
  ghost predicate Joined(s: Shape, keys: set<nat>, a: nat, done: seq<nat>) {
    forall b :: b in done && b in keys && a in s.root && b in s.root ==> s.root[a] == s.root[b]
  }

  /** Elements that had the same root still do. */
  ghost predicate Coarser(s: Shape, t: Shape) {
    && s.root.Keys == t.root.Keys
    && forall x, y :: x in s.root && y in s.root && s.root[x] == s.root[y] ==> t.root[x] == t.root[y]
  }

  lemma UnionConnects(steps: seq<Step>, s: Shape, t: Shape, a: nat, b: nat)
    requires RootsConnect(steps, s) && DependsOn(steps, a, b)
    requires Merged(s, t, a, b)
    ensures RootsConnect(steps, t)
  {
    DependencyConnects(steps, a, b);
    forall x, y | x in t.root && y in t.root && t.root[x] == t.root[y]
      ensures Connected(steps, x, y)
    {
      if s.root[x] != s.root[y] {
        if s.root[x] == s.root[a] {
          ConnectedTransitive(steps, x, a, b);
          ConnectedTransitive(steps, x, b, y);
        } else {
          ConnectedTransitive(steps, y, a, b);
          ConnectedTransitive(steps, y, b, x);
          ConnectedSymmetric(steps, y, x);
        }
      }
    }
  }

  lemma UnionJoins(s: Shape, t: Shape, a: nat, b: nat, numbers: set<nat>, done: seq<nat>)
    requires Merged(s, t, a, b) && Joined(s, numbers, a, done)
    ensures Coarser(s, t) && Joined(t, numbers, a, done + [b])
  {
  }

  lemma CoarserTransitive(s: Shape, t: Shape, u: Shape)
    requires Coarser(s, t) && Coarser(t, u)
    ensures Coarser(s, u)
  {
  }

  /** The union loop over one step's dependencies. */
  method JoinDependencies(steps: seq<Step>, p: Parents, ghost s: Shape, a: nat, depList: seq<nat>, numbers: set<nat>)
    returns (q: Parents, ghost t: Shape)
    requires Forest(p, s) && p.Keys == numbers == Numbers(steps) && a in numbers
    requires RootsConnect(steps, s)
    requires forall b :: b in numbers ==> (b in depList <==> DependsOn(steps, a, b))
    ensures q.Keys == t.root.Keys == p.Keys && Forest(q, t) && RootsConnect(steps, t)
    ensures Joined(t, numbers, a, depList)
    ensures Coarser(s, t)
  {
    q, t := p, s;
    for k := 0 to |depList|
      invariant q.Keys == t.root.Keys == p.Keys && Forest(q, t) && RootsConnect(steps, t)
      invariant Joined(t, numbers, a, depList[..k])
      invariant Coarser(s, t)
    {
      hide RootsConnect, DependsOn, Joined, Coarser, Numbers, Merged;
      var dep := depList[k];
      TakeMore(depList, k);
      if dep in numbers {
        ghost var before := t;
        q, t := Union(q, t, a, dep);
        UnionConnects(steps, before, t, a, dep);
        UnionJoins(before, t, a, dep, numbers, depList[..k]);
        CoarserTransitive(s, before, t);
      } else {
        ForeignNumber(t, numbers, a, depList[..k], dep);
      }
    }
    assert depList[..|depList|] == depList;
  }

  lemma ForeignNumber(s: Shape, numbers: set<nat>, a: nat, done: seq<nat>, b: nat)
    requires Joined(s, numbers, a, done) && b !in numbers
    ensures Joined(s, numbers, a, done + [b])
  {
  }

  /** After every dependency has joined its ends, equal roots and connectedness coincide. */
  lemma RootsAreComponents(steps: seq<Step>, s: Shape)
    requires s.root.Keys == Numbers(steps) && RootsConnect(steps, s)
    requires forall a, b :: DependsOn(steps, a, b) ==> a in s.root && b in s.root && s.root[a] == s.root[b]
    ensures forall x, y :: x in s.root && y in s.root ==> (s.root[x] == s.root[y] <==> Connected(steps, x, y))
  {
    forall x, y | x in s.root && y in s.root && Connected(steps, x, y)
      ensures s.root[x] == s.root[y]
    {
      var tree := set z | z in s.root && s.root[z] == s.root[x];
      ConnectedStaysInside(steps, x, y, tree);
    }
  }

  ghost predicate AreStepDeps(steps: seq<Step>, deps: map<nat, seq<nat>>) {
    && deps.Keys == Numbers(steps)
    && forall s :: s in steps ==> s.number in deps && deps[s.number] == RefNumbers(s.dependsOn)
  }

  lemma ListedAreDependencies(steps: seq<Step>, deps: map<nat, seq<nat>>, a: nat)
    requires AreStepDeps(steps, deps) && a in deps
    ensures forall b :: b in Numbers(steps) ==> (b in deps[a] <==> DependsOn(steps, a, b))
  {
    var i :| 0 <= i < |steps| && steps[i].number == a;
    assert steps[i] in steps;
  }

  lemma AllJoined(steps: seq<Step>, deps: map<nat, seq<nat>>, s: Shape)
    requires AreStepDeps(steps, deps) && s.root.Keys == Numbers(steps) && RootsConnect(steps, s)
    requires forall a :: a in deps ==> Joined(s, Numbers(steps), a, deps[a])
    ensures RootsAre(steps, s)
  {
    forall a, b | DependsOn(steps, a, b)
      ensures a in s.root && b in s.root && s.root[a] == s.root[b]
    {
      var st :| st in steps && st.number == a && StepRef(b) in st.dependsOn;
      ListedAreDependencies(steps, deps, a);
      assert Joined(s, Numbers(steps), a, deps[a]);
    }
    RootsAreComponents(steps, s);
  }

  /** Equal roots and connectedness coincide. */
  ghost predicate RootsAre(steps: seq<Step>, s: Shape) {
    forall x, y :: x in s.root && y in s.root ==> (s.root[x] == s.root[y] <==> Connected(steps, x, y))
  }

  lemma SingletonsConnect(steps: seq<Step>, p: Parents)
    requires forall n :: n in p ==> p[n] == n
    ensures RootsConnect(steps, Shape(p, p))
  {
    forall x | x in p
      ensures Connected(steps, x, x)
    {
      ConnectedReflexive(steps, x);
    }
  }

  /** Join the ends of every dependency, step numbers in an arbitrary order. */
  method JoinAll(steps: seq<Step>) returns (parent: Parents, ghost s: Shape)
    requires DistinctNumbers(steps)
    ensures parent.Keys == s.root.Keys == Numbers(steps) && Forest(parent, s)
    ensures RootsAre(steps, s)
  {
    hide Forest, RootsConnect, DependsOn, RootsAre, Joined, Coarser, Numbers;
    var numbers := Numbers(steps);
    var deps := BuildStepDeps(steps);
    parent := map n | n in numbers :: n;
    SingletonsForest(parent);
    SingletonsConnect(steps, parent);
    s := Shape(parent, parent);
    var todo := numbers;
    while todo != {}
      invariant todo <= numbers && parent.Keys == s.root.Keys == numbers
      invariant Forest(parent, s) && RootsConnect(steps, s)
      invariant forall a :: a in numbers - todo ==> Joined(s, numbers, a, deps[a])
    {
      var a :| a in todo;
      ghost var before := s;
      ListedAreDependencies(steps, deps, a);
      parent, s := JoinDependencies(steps, parent, s, a, deps[a], numbers);
      forall b | b in numbers - todo
        ensures Joined(s, numbers, b, deps[b])
      {
        JoinedStays(before, s, numbers, b, deps[b]);
      }
      todo := todo - {a};
    }
    AllJoined(steps, deps, s);
  }

  lemma JoinedStays(s: Shape, t: Shape, numbers: set<nat>, a: nat, done: seq<nat>)
    requires Joined(s, numbers, a, done) && Coarser(s, t)
    ensures Joined(t, numbers, a, done)
  {
  }

  // --------------------------------------------------------------------- grouping

  /** The steps below a root, in step order. */
  ghost function UnderRoot(s: Shape, steps: seq<Step>, r: nat): seq<Step> {
    Filter((st: Step) => st.number in s.root && s.root[st.number] == r, steps)
  }

  /** One nonempty entry per root that has steps. */
  ghost predicate IsGrouping(s: Shape, steps: seq<Step>, groups: map<nat, seq<Step>>) {
    forall r: nat ::
      UnderRoot(s, steps, r) == (if r in groups then groups[r] else []) && (r in groups ==> groups[r] != [])
  }

  /** Every step goes to the list of its root; find compresses paths on the way. */
  method GroupByRoot(steps: seq<Step>, p: Parents, ghost s: Shape) returns (groups: map<nat, seq<Step>>)
    requires Forest(p, s) && p.Keys == Numbers(steps)
    ensures IsGrouping(s, steps, groups)
  {
    groups := map[];
    var parent := p;
    for k := 0 to |steps|
      invariant Forest(parent, s) && parent.Keys == p.Keys
      invariant IsGrouping(s, steps[..k], groups)
    {
      TakeMore(steps, k);
      var root;
      assert steps[k].number in parent;
      root, parent := Find(parent, s, steps[k].number);
      groups := groups[root := (if root in groups then groups[root] else []) + [steps[k]]];
    }
    assert steps[..|steps|] == steps;
  }

  lemma {:induction false} FilterKeepsDistinctNumbers(keep: Step -> bool, steps: seq<Step>)
    requires DistinctNumbers(steps)
    ensures DistinctKeys(NumberOf(), Filter(keep, steps))
  {
    if steps != [] {
      var front := steps[..|steps|-1];
      FilterKeepsDistinctNumbers(keep, front);
      forall x | x in Filter(keep, front)
        ensures x.number != steps[|steps|-1].number
      {
        var i :| 0 <= i < |front| && front[i] == x;
        assert steps[i] == x;
      }
    }
  }

  /** The sorted list of the steps below a root. */
  ghost predicate IsGroupOf(s: Shape, steps: seq<Step>, g: seq<Step>, r: nat) {
    && g != [] && StrictlySorted(NumberOf(), g)
    && forall st :: st in g <==> st in steps && st.number in s.root && s.root[st.number] == r
  }

  lemma SortedGroup(s: Shape, steps: seq<Step>, groups: map<nat, seq<Step>>, r: nat)
    requires DistinctNumbers(steps) && IsGrouping(s, steps, groups) && r in groups
    ensures IsGroupOf(s, steps, SortBy(NumberOf(), groups[r]), r)
  {
    FilterKeepsDistinctNumbers((st: Step) => st.number in s.root && s.root[st.number] == r, steps);
    SortByStrict(NumberOf(), groups[r]);
    SameMembers(SortBy(NumberOf(), groups[r]), groups[r]);
  }

  /** `list[i]` is the group of root `roots[i]`. */
  ghost predicate Lists(s: Shape, steps: seq<Step>, list: seq<seq<Step>>, roots: seq<nat>) {
    && |list| == |roots| && Distinct(roots)
    && forall i :: 0 <= i < |list| ==> IsGroupOf(s, steps, list[i], roots[i])
  }

  lemma ListDistinctKeys(s: Shape, steps: seq<Step>, list: seq<seq<Step>>, roots: seq<nat>)
    requires DistinctNumbers(steps) && Lists(s, steps, list, roots)
    ensures DistinctKeys(FirstNumber(), list)
  {
    forall i, j | 0 <= i < j < |list|
      ensures FirstNumber()(list[i]) != FirstNumber()(list[j])
    {
      assert IsGroupOf(s, steps, list[i], roots[i]) && IsGroupOf(s, steps, list[j], roots[j]);
      assert list[i][0] in steps && list[j][0] in steps;
    }
  }

  lemma ListCovers(s: Shape, steps: seq<Step>, list: seq<seq<Step>>, roots: seq<nat>)
    requires Lists(s, steps, list, roots)
    requires forall st :: st in steps ==> st.number in s.root && s.root[st.number] in roots
    ensures Covers(steps, list)
  {
    forall st | st in steps
      ensures exists g :: g in list && st in g
    {
      var i :| 0 <= i < |roots| && roots[i] == s.root[st.number];
      assert IsGroupOf(s, steps, list[i], roots[i]);
      assert list[i] in list && st in list[i];
    }
    forall g, st | g in list && st in g
      ensures st in steps
    {
      var i :| 0 <= i < |list| && list[i] == g;
      assert IsGroupOf(s, steps, list[i], roots[i]);
    }
  }

  lemma ListIsComponents(s: Shape, steps: seq<Step>, list: seq<seq<Step>>, roots: seq<nat>)
    requires Lists(s, steps, list, roots) && RootsAre(steps, s)
    ensures GroupsAreComponents(steps, list)
  {
    hide Connected;
    forall g, h, a, b | g in list && h in list && a in g && b in h
      ensures g == h <==> Connected(steps, a.number, b.number)
    {
      var i :| 0 <= i < |list| && list[i] == g;
      var j :| 0 <= j < |list| && list[j] == h;
      assert IsGroupOf(s, steps, list[i], roots[i]) && IsGroupOf(s, steps, list[j], roots[j]);
      assert i == j <==> s.root[a.number] == s.root[b.number];
    }
  }

  lemma ListIsSorted(s: Shape, steps: seq<Step>, list: seq<seq<Step>>, roots: seq<nat>)
    requires Lists(s, steps, list, roots)
    ensures forall g :: g in list ==> g != [] && StrictlySorted(NumberOf(), g)
  {
    forall g | g in list
      ensures g != [] && StrictlySorted(NumberOf(), g)
    {
      var i :| 0 <= i < |list| && list[i] == g;
      assert IsGroupOf(s, steps, list[i], roots[i]);
    }
  }

  /** The order of the groups matters to none of the conditions but the last. */
  lemma ReorderedListing(steps: seq<Step>, list: seq<seq<Step>>, sorted: seq<seq<Step>>)
    requires Covers(steps, list) && GroupsAreComponents(steps, list)
    requires forall g :: g in list ==> g != [] && StrictlySorted(NumberOf(), g)
    requires forall g :: g in sorted <==> g in list
    requires StrictlySorted(FirstNumber(), sorted)
    ensures IsComponentListing(steps, sorted)
  {
    hide Connected, StrictlySorted;
    assert GroupsAreComponents(steps, sorted);
    forall s | s in steps
      ensures exists g :: g in sorted && s in g
    {
      var g :| g in list && s in g;
      assert g in sorted;
    }
  }

  lemma SortedListing(s: Shape, steps: seq<Step>, list: seq<seq<Step>>, roots: seq<nat>)
    requires DistinctNumbers(steps) && RootsAre(steps, s) && Lists(s, steps, list, roots)
    requires forall st :: st in steps ==> st.number in s.root && s.root[st.number] in roots
    ensures IsComponentListing(steps, SortBy(FirstNumber(), list))
  {
    hide *;
    ListDistinctKeys(s, steps, list, roots);
    SortByStrict(FirstNumber(), list);
    SameMembers(SortBy(FirstNumber(), list), list);
    ListCovers(s, steps, list, roots);
    ListIsComponents(s, steps, list, roots);
    ListIsSorted(s, steps, list, roots);
    ReorderedListing(steps, list, SortBy(FirstNumber(), list));
  }

  /**
   * Dependency groups: the connected components of the dependencies inside the group,
   * whatever order the maps are iterated in.
   */
  method MergeDependencyGroups(steps: seq<Step>) returns (result: seq<seq<Step>>)
    requires DistinctNumbers(steps)
    ensures IsComponentListing(steps, result)
  {
    hide RootsAre, Forest, IsGrouping, IsComponentListing;
    var parent, s := JoinAll(steps);
    var groups := GroupByRoot(steps, parent, s);
    var list, roots := SortGroups(s, steps, groups);
    EveryStepIsGrouped(s, steps, groups);
    assert forall r :: r in groups ==> r in ToSet(roots);
    SortedListing(s, steps, list, roots);
    result := SortBy(FirstNumber(), list);
  }

  /** The groups of the map, each sorted, in whatever order the map yields them. */
  method SortGroups(ghost s: Shape, steps: seq<Step>, groups: map<nat, seq<Step>>)
    returns (list: seq<seq<Step>>, ghost roots: seq<nat>)
    requires DistinctNumbers(steps) && IsGrouping(s, steps, groups)
    ensures Lists(s, steps, list, roots) && ToSet(roots) == groups.Keys
  {
    hide IsGrouping, Lists, IsGroupOf;
    list, roots := [], [];
    EmptyLists(s, steps);
    var todo := groups.Keys;
    while todo != {}
      invariant todo <= groups.Keys && todo !! ToSet(roots) && todo + ToSet(roots) == groups.Keys
      invariant Lists(s, steps, list, roots)
    {
      var r :| r in todo;
      SortedGroup(s, steps, groups, r);
      ListsGrow(s, steps, list, roots, SortBy(NumberOf(), groups[r]), r);
      list := list + [SortBy(NumberOf(), groups[r])];
      assert ToSet(roots + [r]) == ToSet(roots) + {r};
      roots := roots + [r];
      todo := todo - {r};
    }
  }

  lemma EmptyLists(s: Shape, steps: seq<Step>)
    ensures Lists(s, steps, [], [])
  {
  }

  lemma ListsGrow(s: Shape, steps: seq<Step>, list: seq<seq<Step>>, roots: seq<nat>, g: seq<Step>, r: nat)
    requires Lists(s, steps, list, roots) && IsGroupOf(s, steps, g, r) && r !in roots
    ensures Lists(s, steps, list + [g], roots + [r])
  {
  }

  lemma EveryStepIsGrouped(s: Shape, steps: seq<Step>, groups: map<nat, seq<Step>>)
    requires IsGrouping(s, steps, groups) && s.root.Keys == Numbers(steps)
    ensures forall st :: st in steps ==> st.number in s.root && s.root[st.number] in groups
  {
    forall st | st in steps
      ensures st.number in s.root && s.root[st.number] in groups
    {
      var i :| 0 <= i < |steps| && steps[i] == st;
      assert st.number in Numbers(steps);
      assert st in UnderRoot(s, steps, s.root[st.number]);
    }
  }

  /** Groups ascend by their smallest number, and the steps of a group by their numbers. */
  lemma ListingAscends(steps: seq<Step>, groups: seq<seq<Step>>, i: nat, j: nat)
    requires IsComponentListing(steps, groups) && i < |groups| && j < |groups|
    ensures groups[i] != [] && groups[j] != []
    ensures forall p, q :: 0 <= p < q < |groups[i]| ==> groups[i][p].number < groups[i][q].number
    ensures i < j ==> groups[i][0].number < groups[j][0].number
  {
    assert groups[i] in groups && groups[j] in groups;
    forall p, q | 0 <= p < q < |groups[i]|
      ensures groups[i][p].number < groups[i][q].number
    {
      assert NumberOf()(groups[i][p]) < NumberOf()(groups[i][q]);
    }
    assert i < j ==> FirstNumber()(groups[i]) < FirstNumber()(groups[j]);
  }
}
