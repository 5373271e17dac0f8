/** Repeated edges: when they make the sort visit a node twice. */
module DagRepeats {
  import opened Collections
  import opened DagGraph
  import opened DagSort

  /** The graph with every edge listed once. */
  function Deduped(g: Dag): Dag {
    Dag(g.nodes, FirstOnly(g.edges))
  }

  /** All predecessors of `t` are in `before`, but for `v`. */
  predicate Closes(g: Dag, before: seq<string>, v: string, t: string) {
    forall u :: u in InList(g.edges, t) ==> u in before || u == v
  }

  /**
   * A repeated edge whose source is the last of its target's predecessors, in the order the sort
   * gives the graph without repetitions.
   */
  predicate ClosingRepeat(g: Dag, e: Edge)
    requires Valid(g)
  {
    DedupedIsValid(g);
    && multiset(g.edges)[e] > 1
    && var order := Order(Deduped(g));
       e.from in order && Closes(g, order[..IndexOf(order, e.from)], e.from, e.to)
  }

  predicate HasClosingRepeat(g: Dag)
    requires Valid(g)
  {
    exists e :: e in g.edges && ClosingRepeat(g, e)
  }

  // ------------------------------------------------------------ the graph without repetitions

  lemma DedupedIsValid(g: Dag)
    requires Valid(g)
    ensures Valid(Deduped(g)) && NoDuplicateEdges(Deduped(g)) && Ids(Deduped(g)) == Ids(g)
    ensures forall u, v :: HasEdge(Deduped(g), u, v) <==> HasEdge(g, u, v)
  {
  }

  lemma {:induction false} OutListOfFirsts(edges: seq<Edge>, v: string)
    ensures OutList(FirstOnly(edges), v) == FirstOnly(OutList(edges, v))
  {
    if edges != [] {
      var front, e := edges[..|edges|-1], edges[|edges|-1];
      assert edges == front + [e];
      OutListOfFirsts(front, v);
      FirstOnlySnoc(front, e);
      FirstOnlySnoc(OutList(front, v), e.to);
    }
  }

  lemma {:induction false} OutListCounts(edges: seq<Edge>, v: string, t: string)
    ensures multiset(OutList(edges, v))[t] == multiset(edges)[Edge(v, t)]
  {
    if edges != [] {
      var front, e := edges[..|edges|-1], edges[|edges|-1];
      assert edges == front + [e];
      OutListCounts(front, v, t);
    }
  }

  // ----------------------------------------------------------------- what one turn enqueues

  /** The targets that have no other predecessor left, repetitions included. */
  function Closed(g: Dag, before: seq<string>, v: string, targets: seq<string>): seq<string> {
    if targets == [] then []
    else
      var t := targets[|targets|-1];
      Closed(g, before, v, targets[..|targets|-1]) + if Closes(g, before, v, t) then [t] else []
  }

  lemma ClosedSnoc(g: Dag, before: seq<string>, v: string, targets: seq<string>, t: string)
    ensures Closed(g, before, v, targets + [t]) ==
              Closed(g, before, v, targets) + if Closes(g, before, v, t) then [t] else []
  {
    assert (targets + [t])[..|targets|] == targets;
  }

  lemma {:induction false} ClosedCounts(g: Dag, before: seq<string>, v: string, targets: seq<string>, t: string)
    ensures multiset(Closed(g, before, v, targets))[t] ==
              if Closes(g, before, v, t) then multiset(targets)[t] else 0
  {
    if targets != [] {
      var front, last := targets[..|targets|-1], targets[|targets|-1];
      assert targets == front + [last];
      ClosedCounts(g, before, v, front, t);
      ClosedSnoc(g, before, v, front, last);
    }
  }

  lemma ClosedMembers(g: Dag, before: seq<string>, v: string, targets: seq<string>, t: string)
    ensures t in Closed(g, before, v, targets) <==> t in targets && Closes(g, before, v, t)
  {
    ClosedCounts(g, before, v, targets, t);
  }

  lemma ClosedOfFirstsSnoc(g: Dag, before: seq<string>, v: string, front: seq<string>, t: string)
    requires Valid(g)
    requires Closed(Deduped(g), before, v, FirstOnly(front)) == FirstOnly(Closed(g, before, v, front))
    ensures Closed(Deduped(g), before, v, FirstOnly(front + [t])) == FirstOnly(Closed(g, before, v, front + [t]))
  {
    FirstOnlySnoc(front, t);
    ClosedSnoc(g, before, v, front, t);
    ClosedMembers(g, before, v, front, t);
    ClosesAlike(g, before, v, t);
    hide *;
    var c := Closed(g, before, v, front);
    assert c + [] == c && FirstOnly(c) + [] == FirstOnly(c);
    if Closes(g, before, v, t) {
      FirstOnlySnoc(c, t);
    }
    if t !in front {
      ClosedSnoc(Deduped(g), before, v, FirstOnly(front), t);
    }
  }

  /** Without repetitions the graph closes the same targets, each once. */
  lemma {:induction false} ClosedOfFirsts(g: Dag, before: seq<string>, v: string, targets: seq<string>)
    requires Valid(g)
    ensures Closed(Deduped(g), before, v, FirstOnly(targets)) == FirstOnly(Closed(g, before, v, targets))
  {
    if targets != [] {
      var front, t := targets[..|targets|-1], targets[|targets|-1];
      assert targets == front + [t];
      hide *;
      ClosedOfFirsts(g, before, v, front);
      ClosedOfFirstsSnoc(g, before, v, front, t);
    }
  }

  lemma ClosesAlike(g: Dag, before: seq<string>, v: string, t: string)
    requires Valid(g)
    ensures Closes(Deduped(g), before, v, t) <==> Closes(g, before, v, t)
  {
    assert forall u :: u in InList(Deduped(g).edges, t) <==> u in InList(g.edges, t);
  }

  /** A relaxed target has an empty edge list exactly when the popped node closes it. */
  lemma EmptyIffCloses(g: Dag, st: Kahn, ranked: seq<string>, before: seq<string>, v: string, done: seq<string>,
                       t: string)
    requires Popping(g, st, ranked, before, v, done) && t in done && t in Ids(g)
    ensures st.incoming[t] == [] <==> Closes(g, before, v, t)
  {
    assert Listed(g, st.incoming, before, v, done);
    forall u
      ensures u in st.incoming[t] <==> u in InList(g.edges, t) && u !in before && u != v
    {
      assert u in InList(g.edges, t) <==> HasEdge(g, u, t);
    }
    assert st.incoming[t] != [] ==> st.incoming[t][0] in st.incoming[t];
  }

  lemma DropOneMore(v: string, front: seq<string>, t: string, st: Kahn, pushed: seq<string>, closes: bool)
    requires forall x :: x in front + [t] ==> x in st.incoming
    requires RelaxAll(v, front, st).queue == st.queue + pushed
    requires Relax(v, t, RelaxAll(v, front, st)).incoming[t] == [] <==> closes
    ensures RelaxAll(v, front + [t], st) == Relax(v, t, RelaxAll(v, front, st))
    ensures RelaxAll(v, front + [t], st).queue == st.queue + (pushed + if closes then [t] else [])
  {
    assert (front + [t])[..|front|] == front;
  }

  /** Dropping the edges to `done` enqueues exactly the targets that close. */
  lemma {:induction false} DroppingEnqueuesClosed(g: Dag, st: Kahn, ranked0: seq<string>, before: seq<string>,
                                                  v: string, done: seq<string>)
    returns (ranked: seq<string>)
    requires Valid(g) && Popping(g, st, ranked0, before, v, []) && done <= OutList(g.edges, v)
    ensures forall t :: t in done ==> t in st.incoming
    ensures Popping(g, RelaxAll(v, done, st), ranked, before, v, done)
    ensures RelaxAll(v, done, st).queue == st.queue + Closed(g, before, v, done)
    decreases |done|
  {
    if done == [] {
      ranked := ranked0;
    } else {
      var front, t := done[..|done|-1], done[|done|-1];
      assert done == front + [t];
      var mid := DroppingEnqueuesClosed(g, st, ranked0, before, v, front);
      var here := RelaxAll(v, front, st);
      RelaxKeepsPopping(g, here, mid, before, v, front, t);
      ranked := Rank(here, v, t, mid);
      EmptyIffCloses(g, Relax(v, t, here), ranked, before, v, done, t);
      ClosedSnoc(g, before, v, front, t);
      DropOneMore(v, front, t, st, Closed(g, before, v, front), Closes(g, before, v, t));
    }
  }

  /** One turn of the outer loop, seen from outside. */
  lemma TurnEnqueuesClosed(g: Dag, st: Kahn, ranked0: seq<string>) returns (ranked: seq<string>)
    requires Valid(g) && Between(g, st, ranked0) && st.queue != []
    ensures Between(g, Pop(g, st), ranked)
    ensures var v := st.queue[0];
            && Pop(g, st).order == st.order + [v]
            && Pop(g, st).queue == st.queue[1..] + Closed(g, st.order, v, OutList(g.edges, v))
  {
    var v := st.queue[0];
    PopStarts(g, st, ranked0);
    var start := Kahn(st.queue[1..], st.incoming, st.order + [v]);
    ranked := DroppingEnqueuesClosed(g, start, ranked0, st.order, v, OutList(g.edges, v));
    PopEnds(g, Pop(g, st), ranked, st.order, v);
  }

  lemma {:induction false} PopsAreBetween(g: Dag, n: nat) returns (ranked: seq<string>)
    requires Valid(g)
    ensures Between(g, Pops(g, n), ranked)
    ensures |Pops(g, n).order| <= n && (Pops(g, n).queue != [] ==> |Pops(g, n).order| == n)
  {
    if n == 0 {
      StartIsBetween(g);
      ranked := Start(g).queue;
    } else {
      var before := PopsAreBetween(g, n - 1);
      hide Between, Pop;
      if Pops(g, n - 1).queue == [] {
        ranked := before;
      } else {
        ranked := TurnEnqueuesClosed(g, Pops(g, n - 1), before);
      }
    }
  }

  /** Every node ever enqueued, in that order. */
  function Visits(g: Dag, n: nat): seq<string>
    requires KnownEndpoints(g)
  {
    Pops(g, n).order + Pops(g, n).queue
  }

  lemma TurnExtends(order: seq<string>, queue: seq<string>, pushed: seq<string>)
    requires queue != []
    ensures order <= order + [queue[0]]
    ensures order + queue <= (order + [queue[0]]) + (queue[1..] + pushed)
  {
    assert (order + [queue[0]]) + (queue[1..] + pushed) == (order + queue) + pushed;
  }

  lemma OneTurnGrows(g: Dag, n: nat)
    requires Valid(g)
    ensures Visits(g, n) <= Visits(g, n + 1) && Pops(g, n).order <= Pops(g, n + 1).order
  {
    var st := Pops(g, n);
    if st.queue != [] {
      var ranked0 := PopsAreBetween(g, n);
      var ranked := TurnEnqueuesClosed(g, st, ranked0);
      assert Pops(g, n + 1) == Pop(g, st);
      TurnExtends(st.order, st.queue, Closed(g, st.order, st.queue[0], OutList(g.edges, st.queue[0])));
      hide Pop, Pops, Between, Closed, DistinctIds;
    }
  }

  lemma {:induction false} VisitsGrow(g: Dag, n: nat, m: nat)
    requires Valid(g) && n <= m
    ensures Visits(g, n) <= Visits(g, m) && Pops(g, n).order <= Pops(g, m).order
    decreases m
  {
    hide Visits, Pops;
    if n < m {
      VisitsGrow(g, n, m - 1);
      OneTurnGrows(g, m - 1);
    }
  }

  /** With no edge repeated, as many turns as nodes drain the queue, and nothing is visited twice. */
  lemma DedupedDrains(g: Dag)
    requires Valid(g) && NoDuplicateEdges(g)
    ensures Pops(g, |g.nodes|).queue == [] && Distinct(Order(g)) && PredecessorsFirst(g, Order(g))
  {
    var ranked := PopsAreBetween(g, |g.nodes|);
    var st := Pops(g, |g.nodes|);
    BetweenFits(g, st, ranked);
    IdCount(g);
    assert st.order + st.queue == ranked;
    assert st.queue == [] ==> st.order + st.queue == st.order;
  }

  // --------------------------------------------------------------- the two sorts side by side

  /** The sort of the graph and that of the graph without repetitions have the same order and queue. */
  ghost predicate InStep(g: Dag, n: nat)
    requires Valid(g)
  {
    && Valid(Deduped(g))
    && Pops(Deduped(g), n).order == Pops(g, n).order
    && Pops(Deduped(g), n).queue == Pops(g, n).queue
  }

  /** What turn `n` enqueues. */
  function Pushed(g: Dag, n: nat): seq<string>
    requires Valid(g) && Pops(g, n).queue != []
  {
    Closed(g, Pops(g, n).order, Pops(g, n).queue[0], OutList(g.edges, Pops(g, n).queue[0]))
  }

  lemma Turn(g: Dag, n: nat)
    requires Valid(g) && Pops(g, n).queue != []
    ensures Pops(g, n + 1).order == Pops(g, n).order + [Pops(g, n).queue[0]]
    ensures Pops(g, n + 1).queue == Pops(g, n).queue[1..] + Pushed(g, n)
  {
    var ranked0 := PopsAreBetween(g, n);
    var ranked := TurnEnqueuesClosed(g, Pops(g, n), ranked0);
    assert Pops(g, n + 1) == Pop(g, Pops(g, n));
  }

  lemma {:induction false} SourcesAlike(nodes: seq<Node>, a: map<string, seq<string>>, b: map<string, seq<string>>)
    requires forall n :: n in nodes ==> n.id in a && n.id in b && (a[n.id] == [] <==> b[n.id] == [])
    ensures Sources(nodes, a) == Sources(nodes, b)
  {
    if nodes != [] {
      SourcesAlike(nodes[..|nodes|-1], a, b);
    }
  }

  lemma StartInStep(g: Dag)
    requires Valid(g)
    ensures InStep(g, 0)
  {
    var d := Deduped(g);
    DedupedIsValid(g);
    NodesAreKeys(g);
    forall n | n in g.nodes
      ensures n.id in Incoming(d) && n.id in Incoming(g) && (Incoming(d)[n.id] == [] <==> Incoming(g)[n.id] == [])
    {
      forall u
        ensures u in InList(d.edges, n.id) <==> u in InList(g.edges, n.id)
      {
      }
      assert InList(d.edges, n.id) != [] ==> InList(d.edges, n.id)[0] in InList(g.edges, n.id);
      assert InList(g.edges, n.id) != [] ==> InList(g.edges, n.id)[0] in InList(d.edges, n.id);
    }
    SourcesAlike(g.nodes, Incoming(d), Incoming(g));
  }

  /** The two keep in step while no turn enqueues a node twice. */
  lemma StaysInStep(g: Dag, n: nat)
    requires Valid(g) && InStep(g, n)
    requires Pops(g, n).queue != [] ==> Distinct(Pushed(g, n))
    ensures InStep(g, n + 1)
  {
    if Pops(g, n).queue != [] {
      var d, before, v := Deduped(g), Pops(g, n).order, Pops(g, n).queue[0];
      Turn(g, n);
      Turn(d, n);
      OutListOfFirsts(g.edges, v);
      ClosedOfFirsts(g, before, v, OutList(g.edges, v));
      FirstOnlyOfDistinct(Pushed(g, n));
      hide Pops, Closed, OutList, FirstOnly;
    }
  }

  lemma DistinctTail(front: seq<string>, tail: seq<string>, whole: seq<string>)
    requires front + tail <= whole && Distinct(whole)
    ensures Distinct(tail)
  {
    forall i, j | 0 <= i < j < |tail|
      ensures tail[i] != tail[j]
    {
      assert whole[|front| + i] == tail[i] && whole[|front| + j] == tail[j];
    }
  }

  lemma DistinctPushes(order: seq<string>, rest: seq<string>, pushed: seq<string>, whole: seq<string>)
    requires order + (rest + pushed) <= whole && Distinct(whole)
    ensures Distinct(pushed)
  {
    assert order + (rest + pushed) == (order + rest) + pushed;
    hide Distinct;
    DistinctTail(order + rest, pushed, whole);
  }

  /** What a turn enqueues is part of the visits. */
  lemma PushedIsVisited(g: Dag, n: nat, m: nat)
    requires Valid(g) && n < m && Pops(g, n).queue != [] && Distinct(Visits(g, m))
    ensures Distinct(Pushed(g, n))
  {
    hide Pops, Pushed, Distinct, DistinctIds;
    Turn(g, n);
    VisitsGrow(g, n + 1, m);
    DistinctPushes(Pops(g, n + 1).order, Pops(g, n).queue[1..], Pushed(g, n), Visits(g, m));
  }

  lemma {:induction false} InStepWhenDistinct(g: Dag, n: nat, m: nat)
    requires Valid(g) && n <= m && Distinct(Visits(g, m))
    ensures InStep(g, n)
  {
    hide Pops, Visits, InStep, Pushed, Distinct, DistinctIds, KnownEndpoints;
    if n == 0 {
      StartInStep(g);
    } else {
      InStepWhenDistinct(g, n - 1, m);
      if Pops(g, n - 1).queue != [] {
        PushedIsVisited(g, n - 1, m);
      }
      StaysInStep(g, n - 1);
    }
  }

  /** The `k`-th node of an order was popped in turn `k`. */
  lemma PoppedInTurn(g: Dag, m: nat, k: nat)
    requires Valid(g) && k < |Pops(g, m).order|
    ensures k < m && Pops(g, k).queue != []
    ensures Pops(g, k).order == Pops(g, m).order[..k] && Pops(g, k).queue[0] == Pops(g, m).order[k]
  {
    var a := PopsAreBetween(g, m);
    var b := PopsAreBetween(g, k);
    hide Between;
    if Pops(g, k).queue == [] {
      DrainedIsFinal(g, k, m);
      assert false;
    }
    Turn(g, k);
    VisitsGrow(g, k + 1, m);
  }

  /** A graph without repetitions is drained within as many turns as it has nodes. */
  lemma BusyTurnIsEarly(g: Dag, n: nat)
    requires Valid(g) && NoDuplicateEdges(g) && Pops(g, n).queue != []
    ensures n < |g.nodes|
  {
    DedupedDrains(g);
    hide Pops;
    if n >= |g.nodes| {
      DrainedIsFinal(g, |g.nodes|, n);
      assert false;
    }
  }

  lemma OrderAt(g: Dag, n: nat)
    requires Valid(g) && NoDuplicateEdges(g) && Pops(g, n).queue != []
    ensures var order, v := Order(g), Pops(g, n).queue[0];
            v in order && order[..IndexOf(order, v)] == Pops(g, n).order
  {
    BusyTurnIsEarly(g, n);
    DedupedDrains(g);
    var ranked := PopsAreBetween(g, n);
    Turn(g, n);
    VisitsGrow(g, n + 1, |g.nodes|);
    hide Pops, Between, Distinct, Valid, NoDuplicateEdges, PredecessorsFirst;
    assert Order(g)[n] == Pops(g, n).queue[0];
  }

  /** A turn that enqueues `t` more than once follows a closing repeat. */
  lemma TwicePushedIsClosing(g: Dag, n: nat, t: string)
    requires Valid(g) && InStep(g, n) && Pops(g, n).queue != []
    ensures multiset(Pushed(g, n))[t] > 1 ==> HasClosingRepeat(g)
  {
    var before, v := Pops(g, n).order, Pops(g, n).queue[0];
    DedupedIsValid(g);
    OrderAt(Deduped(g), n);
    hide Pops, Order;
    ClosedCounts(g, before, v, OutList(g.edges, v), t);
    OutListCounts(g.edges, v, t);
    if multiset(Pushed(g, n))[t] > 1 {
      assert Edge(v, t) in multiset(g.edges);
      assert ClosingRepeat(g, Edge(v, t));
    }
  }

  lemma OnceUnlessClosing(g: Dag, n: nat)
    requires Valid(g) && InStep(g, n) && Pops(g, n).queue != []
    ensures HasClosingRepeat(g) || Distinct(Pushed(g, n))
  {
    hide *;
    if i: nat, j: nat :| i < j < |Pushed(g, n)| && Pushed(g, n)[i] == Pushed(g, n)[j] {
      TwiceCounts(Pushed(g, n), i, j);
      TwicePushedIsClosing(g, n, Pushed(g, n)[i]);
    } else {
      NoTwoEqual(Pushed(g, n));
    }
  }

  lemma NoTwoEqual(s: seq<string>)
    requires forall i: nat, j: nat :: i < j < |s| ==> s[i] != s[j]
    ensures Distinct(s)
  {
  }

  lemma {:induction false} InStepUnlessClosing(g: Dag, n: nat)
    requires Valid(g) && !HasClosingRepeat(g)
    ensures InStep(g, n)
  {
    hide Pops, InStep, Pushed, HasClosingRepeat, Distinct, DistinctIds, KnownEndpoints;
    if n == 0 {
      StartInStep(g);
    } else {
      InStepUnlessClosing(g, n - 1);
      if Pops(g, n - 1).queue != [] {
        OnceUnlessClosing(g, n - 1);
      }
      StaysInStep(g, n - 1);
    }
  }

  lemma SameOrder(g: Dag, n: nat)
    requires Valid(g) && InStep(g, n) && Pops(g, n).queue == []
    ensures Valid(Deduped(g)) && Order(Deduped(g)) == Pops(g, n).order && Distinct(Pops(g, n).order)
  {
    var d := Deduped(g);
    DedupedIsValid(g);
    DedupedDrains(d);
    if n <= |d.nodes| {
      DrainedIsFinal(d, n, |d.nodes|);
    } else {
      DrainedIsFinal(d, |d.nodes|, n);
    }
  }

  lemma ClosingRepeatVisitsTwice(g: Dag, n: nat, e: Edge)
    requires Valid(g) && Pops(g, n).queue == []
    ensures ClosingRepeat(g, e) ==> !Distinct(Pops(g, n).order)
  {
    if ClosingRepeat(g, e) && Distinct(Pops(g, n).order) {
      var order, v := Pops(g, n).order, e.from;
      assert Visits(g, n) == order;
      InStepWhenDistinct(g, n, n);
      SameOrder(g, n);
      var k := IndexOf(order, v);
      PoppedInTurn(g, n, k);
      PushedIsVisited(g, k, n);
      hide Pops, Order, InStep, Visits, Closes;
      ClosedCounts(g, order[..k], v, OutList(g.edges, v), e.to);
      OutListCounts(g.edges, v, e.to);
      DistinctCount(Pushed(g, k), e.to);
      assert false;
    }
  }

  /** The sort visits no node twice exactly when no repeated edge closes its target. */
  lemma VisitsOnceIffNoClosingRepeat(g: Dag, n: nat)
    requires Valid(g) && Pops(g, n).queue == []
    ensures Distinct(Pops(g, n).order) <==> !HasClosingRepeat(g)
    ensures !HasClosingRepeat(g) ==> Valid(Deduped(g)) && Pops(g, n).order == Order(Deduped(g))
  {
    hide Pops, ClosingRepeat, InStep;
    if HasClosingRepeat(g) {
      var e :| e in g.edges && ClosingRepeat(g, e);
      ClosingRepeatVisitsTwice(g, n, e);
    } else {
      InStepUnlessClosing(g, n);
      SameOrder(g, n);
    }
  }

  // ------------------------------------------------ first visits, closing repeats included

  lemma {:induction false} FirstOnlyAbsorbs(a: seq<string>, b: seq<string>)
    requires forall x :: x in b ==> x in a
    ensures FirstOnly(a + b) == FirstOnly(a)
  {
    hide FirstOnly, Distinct;
    if b == [] {
      assert a + b == a;
    } else {
      var front, last := b[..|b|-1], b[|b|-1];
      assert b == front + [last] && a + b == (a + front) + [last];
      FirstOnlyAbsorbs(a, front);
      FirstOnlySnoc(a + front, last);
    }
  }

  lemma {:induction false} FirstOnlyAppends(a: seq<string>, b: seq<string>)
    requires forall x :: x in b ==> x !in a
    ensures FirstOnly(a + b) == FirstOnly(a) + FirstOnly(b)
  {
    if b == [] {
      assert a + b == a;
    } else {
      var front, last := b[..|b|-1], b[|b|-1];
      assert b == front + [last] && a + b == (a + front) + [last];
      hide FirstOnly, Distinct;
      FirstOnlyAppends(a, front);
      FirstOnlySnoc(a + front, last);
      FirstOnlySnoc(front, last);
    }
  }

  /** The first visits of the sort are the first `m` turns of the graph without repetitions. */
  ghost predicate Shadows(g: Dag, n: nat, m: nat)
    requires Valid(g)
  {
    && Valid(Deduped(g))
    && FirstOnly(Pops(g, n).order) == Pops(Deduped(g), m).order
    && FirstOnly(Visits(g, n)) == Visits(Deduped(g), m)
  }

  lemma ClosesSameSet(g: Dag, a: seq<string>, b: seq<string>, v: string, targets: seq<string>)
    requires forall x :: x in a <==> x in b
    ensures Closed(g, a, v, targets) == Closed(g, b, v, targets)
  {
    if targets != [] {
      ClosesSameSet(g, a, b, v, targets[..|targets|-1]);
    }
  }

  /** The head of the queue, if it is new, heads the queue of first visits as well. */
  lemma HeadOfFirsts(order: seq<string>, queue: seq<string>, order': seq<string>, queue': seq<string>)
    requires queue != [] && queue[0] !in order
    requires FirstOnly(order) == order' && FirstOnly(order + queue) == order' + queue'
    ensures queue' != [] && queue'[0] == queue[0]
  {
    hide FirstOnly, Distinct;
    var v, rest := queue[0], queue[1..];
    assert order + queue == (order + [v]) + rest;
    FirstOnlySnoc(order, v);
    FirstOnlyExtends(order + [v], rest);
    NextAfterPrefix(order', v, queue');
  }

  lemma NextAfterPrefix(a: seq<string>, v: string, b: seq<string>)
    requires a + [v] <= a + b
    ensures b != [] && b[0] == v
  {
    assert (a + b)[|a|] == (a + [v])[|a|];
  }

  lemma {:induction false} FirstOnlyExtends(a: seq<string>, b: seq<string>)
    ensures FirstOnly(a) <= FirstOnly(a + b)
  {
    if b == [] {
      assert a + b == a;
    } else {
      assert a + b == (a + b[..|b|-1]) + [b[|b|-1]];
      FirstOnlyExtends(a, b[..|b|-1]);
      FirstOnlySnoc(a + b[..|b|-1], b[|b|-1]);
    }
  }

  lemma EmptiedIsListed(g: Dag, st: Kahn, ranked: seq<string>, t: string)
    requires Between(g, st, ranked) && t in Ids(g)
    requires forall u :: HasEdge(g, u, t) ==> u in st.order
    ensures t in st.order + st.queue
  {
    var left := st.incoming[t];
    assert left != [] ==> left[0] in st.incoming[t];
    assert forall u :: u in st.incoming[t] ==> HasEdge(g, u, t) && u !in st.order;
    assert t in ranked;
  }

  /** A target all of whose predecessors are popped has been enqueued. */
  lemma ClosedIsVisited(g: Dag, m: nat, t: string)
    requires Valid(g) && t in Ids(g)
    requires forall u :: HasEdge(g, u, t) ==> u in Pops(g, m).order
    ensures t in Visits(g, m)
  {
    var ranked := PopsAreBetween(g, m);
    hide Pops, Between;
    EmptiedIsListed(g, Pops(g, m), ranked, t);
  }

  lemma VisitsAreDistinct(g: Dag, m: nat)
    requires Valid(g) && NoDuplicateEdges(g)
    ensures Distinct(Visits(g, m))
  {
    var ranked := PopsAreBetween(g, m);
  }

  lemma TurnVisits(g: Dag, n: nat)
    requires Valid(g) && Pops(g, n).queue != []
    ensures Visits(g, n + 1) == Visits(g, n) + Pushed(g, n)
  {
    Turn(g, n);
    hide Pops, Pushed;
    HeadMoves(Pops(g, n).order, Pops(g, n).queue, Pushed(g, n));
  }

  lemma HeadMoves(order: seq<string>, queue: seq<string>, pushed: seq<string>)
    requires queue != []
    ensures (order + [queue[0]]) + (queue[1..] + pushed) == (order + queue) + pushed
  {
  }

  lemma DistinctSuffixIsNew(a: seq<string>, b: seq<string>)
    requires Distinct(a + b)
    ensures forall x :: x in b ==> x !in a
  {
    forall i, j | 0 <= i < |a| && 0 <= j < |b|
      ensures a[i] != b[j]
    {
      assert (a + b)[i] == a[i] && (a + b)[|a| + j] == b[j];
    }
  }

  /** What the first visit of a node enqueues, with and without repetitions. */
  lemma FirstVisitPushes(g: Dag, n: nat, m: nat)
    requires Valid(g) && Shadows(g, n, m) && Pops(g, n).queue != [] && Pops(Deduped(g), m).queue != []
    requires Pops(Deduped(g), m).queue[0] == Pops(g, n).queue[0]
    ensures Pushed(Deduped(g), m) == FirstOnly(Pushed(g, n))
  {
    var d, v := Deduped(g), Pops(g, n).queue[0];
    var before, before' := Pops(g, n).order, Pops(d, m).order;
    hide Pops;
    OutListOfFirsts(g.edges, v);
    ClosedOfFirsts(g, before', v, OutList(g.edges, v));
    assert forall x :: x in before <==> x in before';
    ClosesSameSet(g, before, before', v, OutList(g.edges, v));
  }

  lemma FirstVisitIsShadowed(g: Dag, n: nat, m: nat)
    requires Valid(g) && Shadows(g, n, m) && Pops(g, n).queue != [] && Pops(g, n).queue[0] !in Pops(g, n).order
    ensures Shadows(g, n + 1, m + 1)
  {
    var d, v := Deduped(g), Pops(g, n).queue[0];
    DedupedIsValid(g);
    HeadOfFirsts(Pops(g, n).order, Pops(g, n).queue, Pops(d, m).order, Pops(d, m).queue);
    FirstVisitPushes(g, n, m);
    Turn(g, n);
    Turn(d, m);
    TurnVisits(g, n);
    TurnVisits(d, m);
    VisitsAreDistinct(d, m + 1);
    hide Pops, Visits, Pushed, Distinct, KnownEndpoints, DistinctIds, Deduped;
    FirstOnlySnoc(Pops(g, n).order, v);
    DistinctSuffixIsNew(Visits(d, m), Pushed(d, m));
    FirstOnlyAppends(Visits(g, n), Pushed(g, n));
  }

  lemma RevisitPushesNothingNew(g: Dag, n: nat, m: nat, t: string)
    requires Valid(g) && Shadows(g, n, m) && Pops(g, n).queue != [] && Pops(g, n).queue[0] in Pops(g, n).order
    requires t in Pushed(g, n)
    ensures t in Visits(g, n)
  {
    var d, v := Deduped(g), Pops(g, n).queue[0];
    DedupedIsValid(g);
    ClosedMembers(g, Pops(g, n).order, v, OutList(g.edges, v), t);
    assert Edge(v, t) in g.edges;
    hide Pops, Closed;
    forall u | HasEdge(d, u, t)
      ensures u in Pops(d, m).order
    {
      assert u in InList(g.edges, t);
    }
    ClosedIsVisited(d, m, t);
  }

  lemma RevisitIsShadowed(g: Dag, n: nat, m: nat)
    requires Valid(g) && Shadows(g, n, m) && Pops(g, n).queue != [] && Pops(g, n).queue[0] in Pops(g, n).order
    ensures Shadows(g, n + 1, m)
  {
    forall t | t in Pushed(g, n)
      ensures t in Visits(g, n)
    {
      RevisitPushesNothingNew(g, n, m, t);
    }
    Turn(g, n);
    TurnVisits(g, n);
    hide Pops, Visits, Pushed, KnownEndpoints, DistinctIds, Deduped;
    FirstOnlySnoc(Pops(g, n).order, Pops(g, n).queue[0]);
    FirstOnlyAbsorbs(Visits(g, n), Pushed(g, n));
  }

  lemma StartIsShadowed(g: Dag)
    requires Valid(g)
    ensures Shadows(g, 0, 0)
  {
    StartInStep(g);
    DedupedIsValid(g);
    VisitsAreDistinct(Deduped(g), 0);
    FirstOnlyOfDistinct(Visits(Deduped(g), 0));
  }

  /** With nothing queued a turn changes nothing. */
  lemma SameTurn(g: Dag, n: nat, m: nat)
    requires Valid(g) && Shadows(g, n, m)
    ensures Pops(g, n).queue == [] ==> Shadows(g, n + 1, m)
  {
    assert Pops(g, n).queue == [] ==> Pops(g, n + 1) == Pops(g, n);
  }

  lemma {:induction false} EveryTurnIsShadowed(g: Dag, n: nat) returns (m: nat)
    requires Valid(g)
    ensures Shadows(g, n, m)
  {
    hide Shadows, KnownEndpoints, DistinctIds, Visits, Pop;
    if n == 0 {
      m := 0;
      StartIsShadowed(g);
    } else {
      m := EveryTurnIsShadowed(g, n - 1);
      SameTurn(g, n - 1, m);
      if Pops(g, n - 1).queue != [] {
        if Pops(g, n - 1).queue[0] in Pops(g, n - 1).order {
          RevisitIsShadowed(g, n - 1, m);
        } else {
          FirstVisitIsShadowed(g, n - 1, m);
          m := m + 1;
        }
      }
    }
  }

  /** On every graph the first visits are in the order of the graph without repetitions. */
  lemma FirstVisitsKeepOrder(g: Dag, n: nat)
    requires Valid(g) && Pops(g, n).queue == []
    ensures Valid(Deduped(g)) && FirstOnly(Pops(g, n).order) == Order(Deduped(g))
  {
    var d := Deduped(g);
    DedupedIsValid(g);
    DedupedDrains(d);
    var m := EveryTurnIsShadowed(g, n);
    assert Visits(g, n) == Pops(g, n).order;
    assert Pops(d, m).order + Pops(d, m).queue == Pops(d, m).order;
    assert Pops(d, m).queue == [];
    if m <= |d.nodes| {
      DrainedIsFinal(d, m, |d.nodes|);
    } else {
      DrainedIsFinal(d, |d.nodes|, m);
    }
  }
}
