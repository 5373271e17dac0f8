/** Kahn's topological sort over in-place edge lists. */
module DagSort {
  import opened Collections
  import opened DagGraph

  /** The sort's variables: the work queue, the shrinking edge lists, the output. */
  datatype Kahn = Kahn(queue: seq<string>, incoming: map<string, seq<string>>, order: seq<string>)

  /** The error counts the nodes not reached; with more visits than nodes the unsigned subtraction underflows. */
  datatype SortError = Cycle(missing: nat) | Underflow

  function Without(s: seq<string>, x: string): (r: seq<string>)
    ensures forall y :: y in r <==> y in s && y != x
  {
    if s == [] then []
    else if s[0] == x then Without(s[1..], x)
    else [s[0]] + Without(s[1..], x)
  }

  /** One turn of the inner loop: drop `v` from the list of `t` and enqueue `t` when the list is empty. */
  function Relax(v: string, t: string, st: Kahn): Kahn
    requires t in st.incoming
  {
    var left := Without(st.incoming[t], v);
    st.(incoming := st.incoming[t := left],
        queue := if left == [] then st.queue + [t] else st.queue)
  }

  function RelaxAll(v: string, targets: seq<string>, st: Kahn): (r: Kahn)
    requires forall t :: t in targets ==> t in st.incoming
    ensures r.incoming.Keys == st.incoming.Keys && r.order == st.order
  {
    if targets == [] then st
    else Relax(v, targets[|targets|-1], RelaxAll(v, targets[..|targets|-1], st))
  }

  /** One turn of the outer loop. */
  function Pop(g: Dag, st: Kahn): (r: Kahn)
    requires st.queue != [] && KnownEndpoints(g) && st.incoming.Keys == Ids(g)
    ensures r.incoming.Keys == Ids(g)
  {
    var v := st.queue[0];
    RelaxAll(v, OutList(g.edges, v), Kahn(st.queue[1..], st.incoming, st.order + [v]))
  }

  function Sources(nodes: seq<Node>, incoming: map<string, seq<string>>): seq<string>
    requires forall n :: n in nodes ==> n.id in incoming
  {
    if nodes == [] then []
    else
      var last := nodes[|nodes|-1].id;
      var front := Sources(nodes[..|nodes|-1], incoming);
      if incoming[last] == [] then front + [last] else front
  }

  function Start(g: Dag): Kahn
  {
    Kahn(Sources(g.nodes, Incoming(g)), Incoming(g), [])
  }

  /** The state after at most `n` turns of the outer loop. */
  function Pops(g: Dag, n: nat): (r: Kahn)
    requires KnownEndpoints(g)
    ensures r.incoming.Keys == Ids(g)
  {
    if n == 0 then Start(g)
    else
      var st := Pops(g, n - 1);
      if st.queue == [] then st else Pop(g, st)
  }

  // ---------------------------------------------------------------- invariant

  /** Predecessors of every listed node are listed before it. */
  ghost predicate PredecessorsFirst(g: Dag, s: seq<string>) {
    forall j, u :: 0 <= j < |s| && HasEdge(g, u, s[j]) ==> u in s[..j]
  }

  /** `ranked` lists exactly the nodes whose edge list is empty, in the order that happened. */
  ghost predicate Emptied(g: Dag, incoming: map<string, seq<string>>, ranked: seq<string>) {
    && incoming.Keys == Ids(g)
    && Distinct(ranked)
    && PredecessorsFirst(g, ranked)
    && forall t :: t in ranked <==> t in Ids(g) && incoming[t] == []
  }

  /** Every emptied node is popped or queued; without duplicate edges in exactly that order. */
  ghost predicate Queued(g: Dag, st: Kahn, ranked: seq<string>) {
    && (forall t :: t in ranked <==> t in st.order || t in st.queue)
    && (NoDuplicateEdges(g) ==> st.order + st.queue == ranked)
  }

  /** The edges still listed: all but those from `before` and those from `v` to `done`. */
  ghost predicate Listed(g: Dag, incoming: map<string, seq<string>>, before: seq<string>, v: string, done: seq<string>)
    requires incoming.Keys == Ids(g)
  {
    forall t, u :: t in Ids(g) ==>
      (u in incoming[t] <==> HasEdge(g, u, t) && u !in before && !(u == v && t in done))
  }

  /** The state while `v` is popped, after `before`, with the edges to `done` already dropped. */
  ghost predicate Popping(g: Dag, st: Kahn, ranked: seq<string>, before: seq<string>, v: string, done: seq<string>) {
    && Emptied(g, st.incoming, ranked)
    && Queued(g, st, ranked)
    && st.order == before + [v]
    && Listed(g, st.incoming, before, v, done)
  }

  /** The state between two turns of the outer loop. */
  ghost predicate Between(g: Dag, st: Kahn, ranked: seq<string>) {
    && Emptied(g, st.incoming, ranked)
    && Queued(g, st, ranked)
    && forall t, u :: t in Ids(g) ==> (u in st.incoming[t] <==> HasEdge(g, u, t) && u !in st.order)
  }

  /** The emptied nodes after `t` is relaxed. */
  ghost function Rank(st: Kahn, v: string, t: string, ranked: seq<string>): seq<string>
    requires t in st.incoming
  {
    if Without(st.incoming[t], v) == [] && t !in ranked then ranked + [t] else ranked
  }

  lemma RelaxKeepsEmptied(g: Dag, st: Kahn, ranked: seq<string>, before: seq<string>, v: string, done: seq<string>,
                          t: string)
    requires Popping(g, st, ranked, before, v, done) && t in Ids(g)
    requires Listed(g, Relax(v, t, st).incoming, before, v, done + [t])
    ensures Emptied(g, Relax(v, t, st).incoming, Rank(st, v, t, ranked))
  {
    var r, ranked' := Relax(v, t, st), Rank(st, v, t, ranked);
    if r.incoming[t] == [] && t !in ranked {
      forall j, u | 0 <= j < |ranked'| && HasEdge(g, u, ranked'[j])
        ensures u in ranked'[..j]
      {
        if j < |ranked| {
          assert ranked'[..j] == ranked[..j];
        } else {
          assert ranked'[..j] == ranked;
          assert u !in r.incoming[t];
          assert u in st.order;
        }
      }
    }
  }

  lemma RelaxKeepsQueued(g: Dag, st: Kahn, ranked: seq<string>, before: seq<string>, v: string, done: seq<string>,
                         t: string)
    requires Popping(g, st, ranked, before, v, done) && t in Ids(g)
    requires done + [t] <= OutList(g.edges, v)
    ensures Queued(g, Relax(v, t, st), Rank(st, v, t, ranked))
  {
    if NoDuplicateEdges(g) {
      // a first and only visit of this edge: the node cannot have been empty before
      var out := OutList(g.edges, v);
      OutListDistinct(g.edges, v);
      assert t == out[|done|] && HasEdge(g, v, t);
      assert t !in done by {
        assert forall i :: 0 <= i < |done| ==> done[i] == out[i];
      }
      assert v !in before by {
        assert st.order + st.queue == ranked;
        assert ranked[|before|] == v;
        assert forall i :: 0 <= i < |before| ==> before[i] == ranked[i];
      }
      assert v in st.incoming[t];
    }
  }

  lemma RelaxKeepsPopping(g: Dag, st: Kahn, ranked: seq<string>, before: seq<string>, v: string, done: seq<string>,
                          t: string)
    requires Valid(g) && Popping(g, st, ranked, before, v, done)
    requires done + [t] <= OutList(g.edges, v)
    ensures t in Ids(g)
    ensures Popping(g, Relax(v, t, st), Rank(st, v, t, ranked), before, v, done + [t])
  {
    assert t == OutList(g.edges, v)[|done|] && Edge(v, t) in g.edges;
    assert Listed(g, Relax(v, t, st).incoming, before, v, done + [t]);
    RelaxKeepsEmptied(g, st, ranked, before, v, done, t);
    RelaxKeepsQueued(g, st, ranked, before, v, done, t);
  }

  // -------------------------------------------------------------- termination
  //
  // A repeated edge enqueues its target again, so the queue may grow while no node is newly
  // emptied. Each entry weighs one more than everything it can still enqueue.

  ghost function Weight(g: Dag, ranked: seq<string>, j: nat): nat
    requires j < |ranked|
    decreases |ranked| - j, 1, 0
  {
    1 + Load(g, OutList(g.edges, ranked[j]), ranked, j)
  }

  ghost function Load(g: Dag, targets: seq<string>, ranked: seq<string>, j: nat): nat
    requires j < |ranked|
    decreases |ranked| - j, 0, |targets|
  {
    if targets == [] then 0
    else
      var t := targets[|targets|-1];
      Load(g, targets[..|targets|-1], ranked, j) +
      if t in ranked[j+1..] then Weight(g, ranked, j + 1 + IndexOf(ranked[j+1..], t)) else 0
  }

  ghost function QueueWeight(g: Dag, ranked: seq<string>, queue: seq<string>): nat
    requires forall t :: t in queue ==> t in ranked
  {
    if queue == [] then 0
    else
      QueueWeight(g, ranked, queue[..|queue|-1]) + Weight(g, ranked, IndexOf(ranked, queue[|queue|-1]))
  }

  lemma {:induction false} QueueWeightHead(g: Dag, ranked: seq<string>, queue: seq<string>)
    requires forall t :: t in queue ==> t in ranked
    requires queue != []
    ensures QueueWeight(g, ranked, queue) ==
              Weight(g, ranked, IndexOf(ranked, queue[0])) + QueueWeight(g, ranked, queue[1..])
  {
    var front := queue[..|queue|-1];
    if front != [] {
      QueueWeightHead(g, ranked, front);
      assert front[1..] == queue[1..][..|queue[1..]|-1];
    }
  }

  lemma LoadGrows(g: Dag, ranked: seq<string>, j: nat, done: seq<string>, t: string)
    requires j < |ranked|
    ensures Load(g, done + [t], ranked, j) == Load(g, done, ranked, j) +
              if t in ranked[j+1..] then Weight(g, ranked, j + 1 + IndexOf(ranked[j+1..], t)) else 0
  {
    assert (done + [t])[..|done|] == done;
  }

  lemma QueueGrows(g: Dag, ranked: seq<string>, queue: seq<string>, t: string)
    requires t in ranked && forall q :: q in queue ==> q in ranked
    ensures QueueWeight(g, ranked, queue + [t]) == QueueWeight(g, ranked, queue) + Weight(g, ranked, IndexOf(ranked, t))
  {
    assert (queue + [t])[..|queue|] == queue;
  }

  /** Relaxing a target moves its weight from the popped node's load to the queue. */
  lemma RelaxMovesWeight(g: Dag, ranked: seq<string>, queue: seq<string>, j: nat, done: seq<string>, t: string)
    requires Distinct(ranked) && PredecessorsFirst(g, ranked)
    requires j < |ranked| && HasEdge(g, ranked[j], t)
    requires forall q :: q in queue ==> q in ranked
    ensures t in ranked ==>
              QueueWeight(g, ranked, queue + [t]) - QueueWeight(g, ranked, queue)
              == Load(g, done + [t], ranked, j) - Load(g, done, ranked, j)
    ensures t !in ranked ==> Load(g, done + [t], ranked, j) == Load(g, done, ranked, j)
  {
    hide Load, Weight, QueueWeight;
    LoadGrows(g, ranked, j, done, t);
    if t in ranked {
      QueueGrows(g, ranked, queue, t);
    }
  }

  // --------------------------------------------------------------- the method

  lemma {:induction false} SourcesAre(nodes: seq<Node>, incoming: map<string, seq<string>>)
    requires forall n :: n in nodes ==> n.id in incoming
    requires forall i, j :: 0 <= i < j < |nodes| ==> nodes[i].id != nodes[j].id
    ensures forall t :: t in Sources(nodes, incoming) <==>
              exists i :: 0 <= i < |nodes| && nodes[i].id == t && incoming[t] == []
    ensures Distinct(Sources(nodes, incoming))
  {
    if nodes != [] {
      SourcesAre(nodes[..|nodes|-1], incoming);
    }
  }

  /** The queue starts in node order. */
  lemma {:induction false} SourcesFollowNodes(nodes: seq<Node>, incoming: map<string, seq<string>>)
    returns (at: seq<nat>)
    requires forall n :: n in nodes ==> n.id in incoming
    ensures Selects(seq(|nodes|, i requires 0 <= i < |nodes| => nodes[i].id), Sources(nodes, incoming), at)
  {
    if nodes == [] {
      at := [];
    } else {
      at := SourcesFollowNodes(nodes[..|nodes|-1], incoming);
      if incoming[nodes[|nodes|-1].id] == [] {
        at := at + [|nodes| - 1];
      }
    }
  }

  lemma StartIsBetween(g: Dag)
    requires Valid(g)
    ensures Between(g, Start(g), Start(g).queue)
  {
    SourcesAre(g.nodes, Incoming(g));
    var ranked := Start(g).queue;
    forall t
      ensures t in ranked <==> t in Ids(g) && Incoming(g)[t] == []
    {
      assert t in Ids(g) <==> exists i :: 0 <= i < |g.nodes| && g.nodes[i].id == t;
    }
    forall j, u | 0 <= j < |ranked|
      ensures !HasEdge(g, u, ranked[j])
    {
      assert u !in InList(g.edges, ranked[j]);
    }
  }

  lemma PopStarts(g: Dag, st: Kahn, ranked: seq<string>)
    requires Between(g, st, ranked) && st.queue != []
    ensures st.queue[0] in ranked
    ensures Popping(g, Kahn(st.queue[1..], st.incoming, st.order + [st.queue[0]]), ranked, st.order, st.queue[0], [])
  {
    var v := st.queue[0];
    assert (st.order + [v]) + st.queue[1..] == st.order + st.queue;
    assert st.queue == [v] + st.queue[1..];
  }

  lemma PopEnds(g: Dag, st: Kahn, ranked: seq<string>, before: seq<string>, v: string)
    requires Popping(g, st, ranked, before, v, OutList(g.edges, v))
    ensures Between(g, st, ranked)
  {
    forall t, u | t in Ids(g)
      ensures u in st.incoming[t] <==> HasEdge(g, u, t) && u !in st.order
    {
      assert HasEdge(g, u, t) ==> t in OutList(g.edges, u);
    }
  }

  lemma BetweenFits(g: Dag, st: Kahn, ranked: seq<string>)
    requires Between(g, st, ranked)
    ensures |ranked| <= |Ids(g)|
    ensures forall t :: t in st.queue ==> t in ranked
  {
    DistinctCardinality(ranked);
    SubsetCardinality(ToSet(ranked), Ids(g));
  }

  /** The inner loop: drop the edges out of `v` and enqueue every target left without edges. */
  method DropEdges(g: Dag, v: string, targets: seq<string>, st: Kahn, ghost before: seq<string>,
                   ghost ranked0: seq<string>)
    returns (r: Kahn, ghost ranked: seq<string>)
    requires Valid(g) && Popping(g, st, ranked0, before, v, [])
    requires v in ranked0 && targets == OutList(g.edges, v)
    ensures forall t :: t in targets ==> t in st.incoming
    ensures r == RelaxAll(v, targets, st)
    ensures Popping(g, r, ranked, before, v, targets)
    ensures ranked0 <= ranked
    ensures ranked == ranked0 ==>
              QueueWeight(g, ranked, r.queue) ==
              QueueWeight(g, ranked, st.queue) + Load(g, targets, ranked, IndexOf(ranked, v))
  {
    forall t | t in targets
      ensures t in st.incoming
    {
      assert Edge(v, t) in g.edges;
    }
    var queue, incoming := st.queue, st.incoming;
    ranked := ranked0;
    ghost var j := IndexOf(ranked0, v);
    for k := 0 to |targets|
      invariant incoming.Keys == Ids(g)
      invariant Kahn(queue, incoming, st.order) == RelaxAll(v, targets[..k], st)
      invariant Popping(g, Kahn(queue, incoming, st.order), ranked, before, v, targets[..k])
      invariant ranked0 <= ranked
      invariant ranked == ranked0 ==>
                  QueueWeight(g, ranked, queue) ==
                  QueueWeight(g, ranked, st.queue) + Load(g, targets[..k], ranked, j)
    {
      ghost var here, t := Kahn(queue, incoming, st.order), targets[k];
      TakeMore(targets, k);
      RelaxKeepsPopping(g, here, ranked, before, v, targets[..k], t);
      if ranked == ranked0 {
        RelaxMovesWeight(g, ranked, queue, j, targets[..k], t);
      }
      ranked := Rank(here, v, t, ranked);
      incoming := incoming[targets[k] := Without(incoming[targets[k]], v)];
      if incoming[targets[k]] == [] {
        queue := queue + [targets[k]];
      }
      assert Kahn(queue, incoming, st.order) == Relax(v, t, here);
    }
    assert targets[..|targets|] == targets;
    r := Kahn(queue, incoming, st.order);
  }

  /** The queue is initialised with the nodes that have no incoming edge, in node order. */
  method EnqueueSources(nodes: seq<Node>, incoming: map<string, seq<string>>) returns (queue: seq<string>)
    requires forall n :: n in nodes ==> n.id in incoming
    ensures queue == Sources(nodes, incoming)
  {
    queue := [];
    for k := 0 to |nodes|
      invariant queue == Sources(nodes[..k], incoming)
    {
      assert nodes[..k+1][..k] == nodes[..k];
      assert nodes[k] in nodes;
      if incoming[nodes[k].id] == [] {
        queue := queue + [nodes[k].id];
      }
    }
    assert nodes[..|nodes|] == nodes;
  }

  lemma NodesAreKeys(g: Dag)
    ensures Incoming(g).Keys == Ids(g)
    ensures forall n :: n in g.nodes ==> n.id in Incoming(g)
  {
    forall n | n in g.nodes
      ensures n.id in Ids(g)
    {
      var i :| 0 <= i < |g.nodes| && g.nodes[i] == n;
    }
  }

  lemma IdCount(g: Dag)
    requires DistinctIds(g)
    ensures |Ids(g)| == |g.nodes|
  {
    var ids := seq(|g.nodes|, i requires 0 <= i < |g.nodes| => g.nodes[i].id);
    DistinctCardinality(ids);
    assert ToSet(ids) == Ids(g) by {
      assert forall i :: 0 <= i < |ids| ==> ids[i] == g.nodes[i].id;
    }
  }

  /** Once the queue is empty further turns change nothing, so the sort has one result. */
  lemma {:induction false} DrainedIsFinal(g: Dag, n: nat, m: nat)
    requires KnownEndpoints(g) && Pops(g, n).queue == [] && n <= m
    ensures Pops(g, m) == Pops(g, n)
    decreases m
  {
    if n < m {
      DrainedIsFinal(g, n, m - 1);
    }
  }

  /** The order after as many turns as nodes: the whole order if the graph is accepted. */
  function Order(g: Dag): seq<string>
    requires KnownEndpoints(g)
  {
    Pops(g, |g.nodes|).order
  }

  /** The queue is empty after exactly as many turns as nodes. */
  predicate Accepted(g: Dag)
    requires KnownEndpoints(g)
  {
    Pops(g, |g.nodes|).queue == [] && |Order(g)| == |g.nodes|
  }

  lemma AcceptedIffInTime(g: Dag, n: nat)
    requires KnownEndpoints(g)
    requires Pops(g, n).queue == [] && |Pops(g, n).order| == n
    ensures Accepted(g) <==> Verdict(g, Pops(g, n).order).Ok?
    ensures Accepted(g) ==> Verdict(g, Pops(g, n).order) == Ok(Order(g))
  {
    if Accepted(g) && |g.nodes| <= n {
      DrainedIsFinal(g, |g.nodes|, n);
    } else if n <= |g.nodes| {
      DrainedIsFinal(g, n, |g.nodes|);
    }
  }

  /** A state the outer loop can end in. */
  ghost predicate Drained(g: Dag, st: Kahn) {
    st.queue == [] && exists ranked :: Between(g, st, ranked)
  }

  /** The body of the outer loop, with what makes the loop terminate. */
  method PopNode(g: Dag, outgoing: map<string, seq<string>>, st: Kahn, ghost ranked: seq<string>)
    returns (r: Kahn, ghost ranked': seq<string>)
    requires Valid(g) && outgoing == Outgoing(g)
    requires Between(g, st, ranked) && st.queue != []
    ensures r == Pop(g, st) && |r.order| == |st.order| + 1
    ensures Between(g, r, ranked')
    ensures |ranked'| <= |Ids(g)| && forall t :: t in r.queue ==> t in ranked'
    ensures |ranked| < |ranked'| ||
            (ranked == ranked' && QueueWeight(g, ranked, r.queue) < QueueWeight(g, ranked, st.queue))
  {
    var v := st.queue[0];
    PopStarts(g, st, ranked);
    QueueWeightHead(g, ranked, st.queue);
    r, ranked' := DropEdges(g, v, outgoing[v], Kahn(st.queue[1..], st.incoming, st.order + [v]), st.order, ranked);
    PopEnds(g, r, ranked', st.order, v);
    BetweenFits(g, r, ranked');
  }

  /**
   * Topological sort. It terminates on every graph the loader accepts, repeated edges included,
   * and ends with an empty queue.
   */
  method TopoSort(g: Dag) returns (r: Result<seq<string>, SortError>)
    requires Valid(g)
    ensures exists n: nat ::
              Drained(g, Pops(g, n)) && |Pops(g, n).order| == n && r == Verdict(g, Pops(g, n).order)
    ensures r.Ok? <==> Accepted(g)
    ensures r.Ok? ==> r.value == Order(g)
  {
    hide Between, Pop, Verdict, QueueWeight, Incoming, Outgoing, Accepted, Order;
    var incoming, outgoing := BuildAdjacency(g);
    NodesAreKeys(g);
    var queue := EnqueueSources(g.nodes, incoming);
    var st := Kahn(queue, incoming, []);
    ghost var ranked, n: nat := queue, 0;
    StartIsBetween(g);
    BetweenFits(g, st, ranked);
    while st.queue != []
      invariant st == Pops(g, n)
      invariant |st.order| == n
      invariant Between(g, st, ranked)
      invariant |ranked| <= |Ids(g)| && forall t :: t in st.queue ==> t in ranked
      decreases |Ids(g)| - |ranked|, QueueWeight(g, ranked, st.queue)
    {
      st, ranked := PopNode(g, outgoing, st, ranked);
      n := n + 1;
    }
    r := Verdict(g, st.order);
    AcceptedIffInTime(g, n);
    assert Drained(g, Pops(g, n));
  }

  /** Cycle detection by comparing lengths. */
  function Verdict(g: Dag, order: seq<string>): Result<seq<string>, SortError> {
    if |order| == |g.nodes| then Ok(order)
    else if |order| < |g.nodes| then Err(Cycle(|g.nodes| - |order|))
    else Err(Underflow)
  }
}
