/** What the topological sort promises, and where repeated edges break the promise. */
module DagSortTheorems {
  import opened Collections
  import opened DagGraph
  import opened DagRepeats
  import opened DagSort

  /** A permutation of the nodes in which every edge points forward. */
  ghost predicate IsTopological(g: Dag, order: seq<string>) {
    Distinct(order) && ToSet(order) == Ids(g) && PredecessorsFirst(g, order)
  }

  /** A graph with a topological order has no cycle, self-loops included. */
  lemma TopologicalIsAcyclic(g: Dag, order: seq<string>)
    requires KnownEndpoints(g) && IsTopological(g, order)
    ensures !HasCycle(g)
  {
    var rank := map v | v in Ids(g) :: IndexOf(order, v);
    forall e | e in g.edges
      ensures e.from in rank && e.to in rank && rank[e.from] < rank[e.to]
    {
      var j := rank[e.to];
      assert HasEdge(g, e.from, order[j]);
      assert e.from in order[..j];
      var i :| 0 <= i < j && order[i] == e.from;
    }
    forall p | IsCycle(g, p)
      ensures false
    {
      forall k | 0 <= k < |p| - 1
        ensures p[k] in rank
      {
        assert Linked(g, p, k);
        assert Edge(p[k], p[k+1]) in g.edges;
      }
      PathRanks(g, p, rank, 0, |p| - 1);
    }
  }

  /**
   * On every loaded graph, repeated edges or not, the sort leaves a node unvisited exactly when the
   * graph has a cycle.
   */
  lemma UnvisitedIffCyclic(g: Dag, st: Kahn)
    requires Valid(g) && Drained(g, st)
    ensures ToSet(st.order) <= Ids(g)
    ensures HasCycle(g) <==> ToSet(st.order) != Ids(g)
  {
    var ranked :| Between(g, st, ranked);
    assert forall t :: t in ranked <==> t in st.order;
    if ToSet(st.order) == Ids(g) {
      assert IsTopological(g, ranked);
      TopologicalIsAcyclic(g, ranked);
    } else {
      var rest := Ids(g) - ToSet(st.order);
      assert rest != {} by {
        assert ToSet(st.order) <= Ids(g);
        var v :| v in Ids(g) && v !in ToSet(st.order);
        assert v in rest;
      }
      forall v | v in rest
        ensures HasPredecessorIn(g, rest, v)
      {
        assert v !in ranked;
        var u := st.incoming[v][0];
        assert HasEdge(g, u, v) && u !in st.order;
      }
      PredecessorClosedHasCycle(g, rest);
    }
  }

  /** A sequence that repeats itself is longer than its set of members. */
  lemma {:induction false} SeveralVisits(s: seq<string>)
    ensures |ToSet(s)| <= |s|
    ensures |ToSet(s)| == |s| ==> Distinct(s)
  {
    if s != [] {
      var front, last := s[..|s|-1], s[|s|-1];
      SeveralVisits(front);
      assert s == front + [last];
      assert ToSet(s) == ToSet(front) + {last};
      assert last in ToSet(front) ==> ToSet(s) == ToSet(front);
    }
  }

  /** What comparing the length of an order with the number of ids decides. */
  lemma LengthsDecide(order: seq<string>, ids: set<string>)
    requires ToSet(order) <= ids
    ensures Distinct(order) ==> |ids - ToSet(order)| == |ids| - |order|
    ensures Distinct(order) && ToSet(order) == ids ==> |order| == |ids|
    ensures ToSet(order) == ids && !Distinct(order) ==> |order| > |ids|
  {
    SeveralVisits(order);
    if Distinct(order) {
      DistinctCardinality(order);
    }
    assert ids == ToSet(order) + (ids - ToSet(order));
  }

  lemma VerdictOfDistinct(g: Dag, order: seq<string>)
    requires DistinctIds(g) && ToSet(order) <= Ids(g) && Distinct(order)
    ensures Verdict(g, order).Ok? <==> ToSet(order) == Ids(g)
    ensures ToSet(order) != Ids(g) ==> Verdict(g, order) == Err(Cycle(|Ids(g) - ToSet(order)|))
  {
    LengthsDecide(order, Ids(g));
    IdCount(g);
    hide DistinctIds, Distinct, ToSet, Ids;
    var unvisited := Ids(g) - ToSet(order);
    assert unvisited == {} <==> ToSet(order) == Ids(g);
  }

  /** The length test is right whenever no node is visited twice. */
  lemma DistinctOrderIsJudgedRightly(g: Dag, st: Kahn)
    requires Valid(g) && Drained(g, st) && Distinct(st.order)
    ensures Verdict(g, st.order).Ok? <==> !HasCycle(g)
    ensures Verdict(g, st.order).Err? ==>
              Ids(g) != ToSet(st.order) && Verdict(g, st.order) == Err(Cycle(|Ids(g) - ToSet(st.order)|))
  {
    assert DistinctIds(g);
    hide *;
    UnvisitedIffCyclic(g, st);
    VerdictOfDistinct(g, st.order);
  }

  lemma PopsDrain(g: Dag, n: nat)
    requires Valid(g) && Pops(g, n).queue == []
    ensures Drained(g, Pops(g, n))
  {
    var ranked := PopsAreBetween(g, n);
    assert Between(g, Pops(g, n), ranked);
  }

  /**
   * Unless some repeated edge closes its target the verdict is right: success exactly on acyclic
   * graphs, with a topological order, and otherwise the number of unreachable nodes.
   */
  lemma UnclosedIsJudgedRightly(g: Dag, n: nat)
    requires Valid(g) && Pops(g, n).queue == [] && !HasClosingRepeat(g)
    ensures Verdict(g, Pops(g, n).order).Ok? <==> !HasCycle(g)
    ensures Verdict(g, Pops(g, n).order).Ok? ==> IsTopological(g, Pops(g, n).order)
    ensures var unvisited := Ids(g) - ToSet(Pops(g, n).order);
            HasCycle(g) ==> unvisited != {} && Verdict(g, Pops(g, n).order) == Err(Cycle(|unvisited|))
  {
    var order := Pops(g, n).order;
    PopsDrain(g, n);
    VisitsOnceIffNoClosingRepeat(g, n);
    DistinctOrderIsJudgedRightly(g, Pops(g, n));
    UnvisitedIffCyclic(g, Pops(g, n));
    DedupedIsValid(g);
    DedupedDrains(Deduped(g));
    hide Pops, Order, HasClosingRepeat, HasCycle, Drained, Valid;
    assert PredecessorsFirst(g, order) by {
      assert forall u, v :: HasEdge(Deduped(g), u, v) <==> HasEdge(g, u, v);
      assert PredecessorsFirst(Deduped(g), order);
    }
  }

  /** Exactly which acyclic graphs are accepted: those without a repeated edge that closes its target. */
  lemma AcyclicIsAcceptedIff(g: Dag, n: nat)
    requires Valid(g) && Pops(g, n).queue == [] && !HasCycle(g)
    ensures Verdict(g, Pops(g, n).order).Ok? <==> !HasClosingRepeat(g)
    ensures HasClosingRepeat(g) ==> Verdict(g, Pops(g, n).order) == Err(Underflow)
  {
    var order := Pops(g, n).order;
    PopsDrain(g, n);
    UnvisitedIffCyclic(g, Pops(g, n));
    VisitsOnceIffNoClosingRepeat(g, n);
    LengthsDecide(order, Ids(g));
    IdCount(g);
    hide Pops, HasClosingRepeat, HasCycle, Drained, Valid, Distinct, ToSet, Ids;
  }

  /**
   * The right verdict: a cyclic graph is refused with the number of its unvisited nodes, and any other
   * graph is accepted with a topological order.
   */
  ghost predicate JudgedRightly(g: Dag, order: seq<string>)
    requires KnownEndpoints(g)
  {
    var unvisited := Ids(g) - ToSet(order);
    if HasCycle(g) then unvisited != {} && Verdict(g, order) == Err(Cycle(|unvisited|))
    else Verdict(g, order) == Ok(order) && IsTopological(g, order)
  }

  /** A repeated visit spoils the count of the unvisited nodes. */
  lemma RepeatedVisitMiscounts(g: Dag, order: seq<string>)
    requires DistinctIds(g) && ToSet(order) <= Ids(g) && !Distinct(order)
    ensures Verdict(g, order) != Err(Cycle(|Ids(g) - ToSet(order)|))
  {
    SeveralVisits(order);
    IdCount(g);
    hide Distinct, DistinctIds, Ids, ToSet;
    var visited := ToSet(order);
    assert Ids(g) == visited + (Ids(g) - visited);
  }

  /** Exactly which graphs the sort judges rightly: those where no repeated edge closes its target. */
  lemma SortIsCorrect(g: Dag, n: nat)
    requires Valid(g) && Pops(g, n).queue == []
    ensures JudgedRightly(g, Pops(g, n).order) <==> !HasClosingRepeat(g)
  {
    var order := Pops(g, n).order;
    PopsDrain(g, n);
    UnvisitedIffCyclic(g, Pops(g, n));
    VisitsOnceIffNoClosingRepeat(g, n);
    hide Pops, HasClosingRepeat, HasCycle, Drained, Distinct, ToSet, Ids, IsTopological;
    if !HasClosingRepeat(g) {
      UnclosedIsJudgedRightly(g, n);
    } else if HasCycle(g) {
      RepeatedVisitMiscounts(g, order);
    } else {
      AcyclicIsAcceptedIff(g, n);
    }
  }

  /** The nodes the sort does not reach are those missing from the order of the graph without repetitions. */
  ghost function Unreached(g: Dag): set<string>
    requires Valid(g)
  {
    DedupedIsValid(g);
    Ids(g) - ToSet(Order(Deduped(g)))
  }

  lemma UnreachedAreUnvisited(g: Dag, n: nat)
    requires Valid(g) && Pops(g, n).queue == []
    ensures Unreached(g) == Ids(g) - ToSet(Pops(g, n).order)
  {
    FirstVisitsKeepOrder(g, n);
    hide Pops, Order, Ids;
    assert forall x :: x in FirstOnly(Pops(g, n).order) <==> x in Pops(g, n).order;
  }

  /** A graph without repetitions has no closing one. */
  lemma DistinctEdgesDoNotClose(g: Dag)
    requires Valid(g) && NoDuplicateEdges(g)
    ensures !HasClosingRepeat(g)
  {
    forall e | e in g.edges
      ensures !ClosingRepeat(g, e)
    {
      DistinctCount(g.edges, e);
    }
  }

  // ------------------------------------------------- repeated edges: two failures

  const A: string := "a"
  const B: string := "b"
  const C: string := "c"

  /** `a -> b` listed twice beside the self-loop `c -> c`. */
  function DoubledBesideLoop(): Dag {
    Dag([Node(A, AllSuccess), Node(B, AllSuccess), Node(C, AllSuccess)], [Edge(A, B), Edge(A, B), Edge(C, C)])
  }

  /** `a -> b` listed twice and nothing else. */
  function Doubled(): Dag {
    Dag([Node(A, AllSuccess), Node(B, AllSuccess)], [Edge(A, B), Edge(A, B)])
  }

  lemma NamesDiffer()
    ensures A != B && A != C && B != C
  {
    assert A[0] == 'a' && B[0] == 'b' && C[0] == 'c';
  }

  lemma ListsGrow(edges: seq<Edge>, e: Edge, v: string)
    ensures InList(edges + [e], v) == if e.to == v then InList(edges, v) + [e.from] else InList(edges, v)
    ensures OutList(edges + [e], v) == if e.from == v then OutList(edges, v) + [e.to] else OutList(edges, v)
  {
    assert (edges + [e])[..|edges|] == edges;
  }

  lemma TwoEdges(v: string)
    ensures InList([Edge(A, B), Edge(A, B)], v) == if v == B then [A, A] else []
    ensures OutList([Edge(A, B), Edge(A, B)], v) == if v == A then [B, B] else []
  {
    var e := Edge(A, B);
    ListsGrow([], e, v);
    ListsGrow([e], e, v);
    assert [] + [e] == [e] && [e] + [e] == [e, e];
  }

  lemma RelaxTwice(v: string, t: string, st: Kahn)
    requires t in st.incoming && st.incoming[t] == [v, v]
    ensures RelaxAll(v, [t, t], st) == Kahn(st.queue + [t, t], st.incoming[t := []], st.order)
  {
    assert [v, v][1..] == [v] && [v][1..] == [];
    assert Without([v], v) == [];
    assert [t, t][..1] == [t] && [t][..0] == [];
    assert RelaxAll(v, [], st) == st;
    assert RelaxAll(v, [t], st) == Relax(v, t, st);
    assert st.queue + [t] + [t] == st.queue + [t, t];
  }

  lemma ThreeEdges(v: string)
    ensures InList(DoubledBesideLoop().edges, v) == if v == B then [A, A] else if v == C then [C] else []
    ensures OutList(DoubledBesideLoop().edges, v) == if v == A then [B, B] else if v == C then [C] else []
  {
    NamesDiffer();
    TwoEdges(v);
    ListsGrow([Edge(A, B), Edge(A, B)], Edge(C, C), v);
    assert DoubledBesideLoop().edges == [Edge(A, B), Edge(A, B)] + [Edge(C, C)];
  }

  lemma DoubledBesideLoopIsCyclic()
    ensures Valid(DoubledBesideLoop()) && HasCycle(DoubledBesideLoop())
    ensures Ids(DoubledBesideLoop()) == {A, B, C}
  {
    var g := DoubledBesideLoop();
    NamesDiffer();
    assert g.nodes[0].id in Ids(g) && g.nodes[1].id in Ids(g) && g.nodes[2].id in Ids(g);
    assert g.edges[2] == Edge(C, C);
    assert Linked(g, [C, C], 0);
    assert IsCycle(g, [C, C]);
  }

  lemma PopWithDoubledTarget(g: Dag, v: string, t: string, m: map<string, seq<string>>)
    requires KnownEndpoints(g) && m.Keys == Ids(g) && OutList(g.edges, v) == [t, t]
    requires t in m && m[t] == [v, v]
    ensures Pop(g, Kahn([v], m, [])) == Kahn([t, t], m[t := []], [v])
  {
    assert [v][1..] == [] && [] + [v] == [v] && [] + [t, t] == [t, t];
    RelaxTwice(v, t, Kahn([], m, [v]));
  }

  /** Three turns when `a` has the one successor `b`, twice. */
  lemma DoubledRun(g: Dag, m: map<string, seq<string>>)
    requires KnownEndpoints(g) && Start(g) == Kahn([A], m, [])
    requires B in m && m[B] == [A, A]
    requires OutList(g.edges, A) == [B, B] && OutList(g.edges, B) == []
    ensures Pops(g, 3) == Kahn([], m[B := []], [A, B, B])
  {
    var m' := m[B := []];
    assert Pops(g, 0) == Kahn([A], m, []);
    PopWithDoubledTarget(g, A, B, m);
    assert Pops(g, 1) == Kahn([B] + [B], m', [A]);
    assert Pops(g, 2) == Kahn([B] + [], m', [A] + [B]);
  }

  lemma FirstIsSource(nodes: seq<Node>, m: map<string, seq<string>>)
    requires 0 < |nodes| && forall n :: n in nodes ==> n.id in m
    requires forall i :: 0 <= i < |nodes| ==> (m[nodes[i].id] == [] <==> i == 0)
    ensures Sources(nodes, m) == [nodes[0].id]
  {
    if |nodes| > 1 {
      FirstIsSource(nodes[..|nodes|-1], m);
    }
  }

  /** A repeated edge can make the length test accept a cyclic graph. */
  lemma DuplicateEdgeHidesCycle()
    ensures Valid(DoubledBesideLoop()) && HasCycle(DoubledBesideLoop())
    ensures Pops(DoubledBesideLoop(), 3).queue == []
    ensures Verdict(DoubledBesideLoop(), Pops(DoubledBesideLoop(), 3).order) == Ok([A, B, B])
    ensures HasClosingRepeat(DoubledBesideLoop())
  {
    DoubledBesideLoopIsCyclic();
    BesideLoopStart();
    ThreeEdges(A);
    ThreeEdges(B);
    NamesDiffer();
    DoubledRun(DoubledBesideLoop(), Incoming(DoubledBesideLoop()));
    VisitedTwice(DoubledBesideLoop());
  }

  lemma VisitedTwice(g: Dag)
    requires Valid(g) && Pops(g, 3).queue == [] && Pops(g, 3).order == [A, B, B]
    ensures HasClosingRepeat(g)
  {
    assert Pops(g, 3).order[1] == Pops(g, 3).order[2];
    VisitsOnceIffNoClosingRepeat(g, 3);
  }

  lemma BesideLoopStart()
    requires Ids(DoubledBesideLoop()) == {A, B, C}
    ensures Start(DoubledBesideLoop()) == Kahn([A], Incoming(DoubledBesideLoop()), [])
  {
    var g := DoubledBesideLoop();
    NamesDiffer();
    forall i | 0 <= i < 3
      ensures Incoming(g)[g.nodes[i].id] == [] <==> i == 0
    {
      ThreeEdges(g.nodes[i].id);
    }
    FirstIsSource(g.nodes, Incoming(g));
  }

  lemma DoubledIsAcyclic()
    ensures Valid(Doubled()) && !HasCycle(Doubled())
    ensures Ids(Doubled()) == {A, B}
  {
    var g := Doubled();
    NamesDiffer();
    assert g.nodes[0].id in Ids(g) && g.nodes[1].id in Ids(g);
    assert PredecessorsFirst(g, [A, B]) by {
      assert [A, B][..1] == [A];
    }
    TopologicalIsAcyclic(g, [A, B]);
  }

  /** A repeated edge can also make it reject an acyclic graph. */
  lemma DuplicateEdgeRejectsAcyclic()
    ensures Valid(Doubled()) && !HasCycle(Doubled())
    ensures Pops(Doubled(), 3).queue == []
    ensures Verdict(Doubled(), Pops(Doubled(), 3).order) == Err(Underflow)
    ensures HasClosingRepeat(Doubled())
  {
    DoubledIsAcyclic();
    NamesDiffer();
    TwoEdges(A);
    TwoEdges(B);
    FirstIsSource(Doubled().nodes, Incoming(Doubled()));
    DoubledRun(Doubled(), Incoming(Doubled()));
    VisitedTwice(Doubled());
  }
}
