/** Workflow graphs as the loader produces them: nodes, edges, paths and cycles. */
module DagGraph {
  import opened Collections

  datatype TriggerRule = AllSuccess | OneSuccess

  datatype Node = Node(id: string, rule: TriggerRule)

  datatype Edge = Edge(from: string, to: string)

  datatype Dag = Dag(nodes: seq<Node>, edges: seq<Edge>)

  datatype LoadError =
    | DuplicateNodeId(id: string)
    | UnknownSource(edge: Edge)
    | UnknownTarget(edge: Edge)

  function Ids(g: Dag): set<string> {
    set i | 0 <= i < |g.nodes| :: g.nodes[i].id
  }

  ghost predicate DistinctIds(g: Dag) {
    forall i, j :: 0 <= i < j < |g.nodes| ==> g.nodes[i].id != g.nodes[j].id
  }

  ghost predicate KnownEndpoints(g: Dag) {
    forall e :: e in g.edges ==> e.from in Ids(g) && e.to in Ids(g)
  }

  /** What the loader guarantees: distinct ids and edges between known nodes. */
  ghost predicate Valid(g: Dag) {
    DistinctIds(g) && KnownEndpoints(g)
  }

  /** Not checked by the loader: no edge is listed twice. */
  ghost predicate NoDuplicateEdges(g: Dag) {
    Distinct(g.edges)
  }

  predicate HasEdge(g: Dag, u: string, v: string) {
    Edge(u, v) in g.edges
  }

  /** Step `i` of the walk `p` follows an edge. */
  ghost predicate Linked(g: Dag, p: seq<string>, i: int)
    requires 0 <= i < |p| - 1
  {
    HasEdge(g, p[i], p[i+1])
  }

  ghost predicate IsPath(g: Dag, p: seq<string>) {
    |p| > 0 && forall i :: 0 <= i < |p| - 1 ==> Linked(g, p, i)
  }

  /** A path of at least one edge that returns to its start; a self-loop counts. */
  ghost predicate IsCycle(g: Dag, p: seq<string>) {
    IsPath(g, p) && |p| >= 2 && p[0] == p[|p|-1]
  }

  ghost predicate HasCycle(g: Dag) {
    exists p :: IsCycle(g, p)
  }

  /** The loader's validation: it accepts exactly the valid graphs. */
  method ValidateDag(g: Dag) returns (r: Result<(), LoadError>)
    ensures r.Ok? <==> Valid(g)
    ensures r.Err? && r.error.DuplicateNodeId? ==> !DistinctIds(g)
    ensures r.Err? && r.error.UnknownSource? ==>
              DistinctIds(g) && r.error.edge in g.edges && r.error.edge.from !in Ids(g)
    ensures r.Err? && r.error.UnknownTarget? ==>
              DistinctIds(g) && r.error.edge in g.edges && r.error.edge.from in Ids(g) && r.error.edge.to !in Ids(g)
  {
    var seenIds: set<string> := {};
    for k := 0 to |g.nodes|
      invariant seenIds == set i | 0 <= i < k :: g.nodes[i].id
      invariant forall i, j :: 0 <= i < j < k ==> g.nodes[i].id != g.nodes[j].id
    {
      var id := g.nodes[k].id;
      if id in seenIds {
        return Err(DuplicateNodeId(id));
      }
      seenIds := seenIds + {id};
    }
    for k := 0 to |g.edges|
      invariant forall i :: 0 <= i < k ==> g.edges[i].from in Ids(g) && g.edges[i].to in Ids(g)
    {
      var edge := g.edges[k];
      if edge.from !in seenIds {
        return Err(UnknownSource(edge));
      }
      if edge.to !in seenIds {
        return Err(UnknownTarget(edge));
      }
    }
    return Ok(());
  }

  /** Sources of the edges into `v`, in edge order. */
  function InList(edges: seq<Edge>, v: string): (r: seq<string>)
    ensures forall u :: u in r <==> Edge(u, v) in edges
  {
    if edges == [] then []
    else
      var last := edges[|edges|-1];
      var front := InList(edges[..|edges|-1], v);
      if last.to == v then front + [last.from] else front
  }

  /** Targets of the edges out of `u`, in edge order. */
  function OutList(edges: seq<Edge>, u: string): (r: seq<string>)
    ensures forall v :: v in r <==> Edge(u, v) in edges
  {
    if edges == [] then []
    else
      var last := edges[|edges|-1];
      var front := OutList(edges[..|edges|-1], u);
      if last.from == u then front + [last.to] else front
  }

  function EdgesFrom(sources: seq<string>, v: string): seq<Edge> {
    seq(|sources|, i requires 0 <= i < |sources| => Edge(sources[i], v))
  }

  function EdgesTo(u: string, targets: seq<string>): seq<Edge> {
    seq(|targets|, i requires 0 <= i < |targets| => Edge(u, targets[i]))
  }

  /** The edge lists go in edge order. */
  lemma {:induction false} ListsFollowEdges(edges: seq<Edge>, v: string) returns (into: seq<nat>, out: seq<nat>)
    ensures Selects(edges, EdgesFrom(InList(edges, v), v), into)
    ensures Selects(edges, EdgesTo(v, OutList(edges, v)), out)
  {
    if edges == [] {
      into, out := [], [];
    } else {
      into, out := ListsFollowEdges(edges[..|edges|-1], v);
      if edges[|edges|-1].to == v {
        into := into + [|edges| - 1];
      }
      if edges[|edges|-1].from == v {
        out := out + [|edges| - 1];
      }
    }
  }

  function IncomingMap(ids: set<string>, edges: seq<Edge>): map<string, seq<string>> {
    map v | v in ids :: InList(edges, v)
  }

  function OutgoingMap(ids: set<string>, edges: seq<Edge>): map<string, seq<string>> {
    map u | u in ids :: OutList(edges, u)
  }

  function Incoming(g: Dag): map<string, seq<string>> {
    IncomingMap(Ids(g), g.edges)
  }

  function Outgoing(g: Dag): map<string, seq<string>> {
    OutgoingMap(Ids(g), g.edges)
  }

  lemma AdjacencyGrows(ids: set<string>, edges: seq<Edge>, e: Edge)
    requires e.from in ids && e.to in ids
    ensures IncomingMap(ids, edges + [e]) == IncomingMap(ids, edges)[e.to := InList(edges, e.to) + [e.from]]
    ensures OutgoingMap(ids, edges + [e]) == OutgoingMap(ids, edges)[e.from := OutList(edges, e.from) + [e.to]]
  {
    assert (edges + [e])[..|edges|] == edges;
  }

  lemma {:induction false} OutListDistinct(edges: seq<Edge>, u: string)
    requires Distinct(edges)
    ensures Distinct(OutList(edges, u))
  {
    if edges != [] {
      OutListDistinct(edges[..|edges|-1], u);
    }
  }

  /** The adjacency maps, filled edge by edge from one empty list per node. */
  method AddEdges(ids: set<string>, edges: seq<Edge>)
    returns (incoming: map<string, seq<string>>, outgoing: map<string, seq<string>>)
    requires forall i :: 0 <= i < |edges| ==> edges[i].from in ids && edges[i].to in ids
    ensures incoming == IncomingMap(ids, edges) && outgoing == OutgoingMap(ids, edges)
  {
    incoming := map v | v in ids :: [];
    outgoing := map u | u in ids :: [];
    for k := 0 to |edges|
      invariant incoming == IncomingMap(ids, edges[..k])
      invariant outgoing == OutgoingMap(ids, edges[..k])
    {
      TakeMore(edges, k);
      AdjacencyGrows(ids, edges[..k], edges[k]);
      outgoing := outgoing[edges[k].from := outgoing[edges[k].from] + [edges[k].to]];
      incoming := incoming[edges[k].to := incoming[edges[k].to] + [edges[k].from]];
    }
    assert edges[..|edges|] == edges;
  }

  method BuildAdjacency(g: Dag) returns (incoming: map<string, seq<string>>, outgoing: map<string, seq<string>>)
    requires Valid(g)
    ensures incoming == Incoming(g) && outgoing == Outgoing(g)
  {
    var ids: set<string> := {};
    for k := 0 to |g.nodes|
      invariant ids == set i | 0 <= i < k :: g.nodes[i].id
    {
      ids := ids + {g.nodes[k].id};
    }
    forall i | 0 <= i < |g.edges|
      ensures g.edges[i].from in ids && g.edges[i].to in ids
    {
      assert g.edges[i] in g.edges;
    }
    incoming, outgoing := AddEdges(ids, g.edges);
  }

  /** Ranks that grow along edges grow at least by one per step of a path. */
  lemma {:induction false} PathRanks(g: Dag, p: seq<string>, rank: map<string, nat>, i: nat, j: nat)
    requires IsPath(g, p) && i <= j < |p|
    requires forall k :: 0 <= k < |p| ==> p[k] in rank
    requires forall e :: e in g.edges ==> e.from in rank && e.to in rank && rank[e.from] < rank[e.to]
    ensures rank[p[j]] >= rank[p[i]] + (j - i)
    decreases j
  {
    if i < j {
      PathRanks(g, p, rank, i, j - 1);
      assert Linked(g, p, j - 1);
      assert Edge(p[j-1], p[j]) in g.edges;
    }
  }

  /** Some member of `s` is a predecessor of `v`. */
  ghost predicate HasPredecessorIn(g: Dag, s: set<string>, v: string) {
    exists u :: u in s && HasEdge(g, u, v)
  }

  /** Every member of a nonempty set has a predecessor in the set: walk back until a node repeats. */
  lemma PredecessorClosedHasCycle(g: Dag, s: set<string>)
    requires s != {}
    requires forall v :: v in s ==> HasPredecessorIn(g, s, v)
    ensures HasCycle(g)
  {
    var walk := WalkBack(g, s, |s|);
    var i, j := Pigeonhole(walk, s);
    var cycle := walk[i..j+1];
    assert IsCycle(g, cycle) by {
      forall k | 0 <= k < |cycle| - 1
        ensures Linked(g, cycle, k)
      {
        assert Linked(g, walk, i + k);
      }
    }
  }

  lemma {:induction false} WalkBack(g: Dag, s: set<string>, n: nat) returns (p: seq<string>)
    requires s != {}
    requires forall v :: v in s ==> HasPredecessorIn(g, s, v)
    ensures |p| == n + 1 && IsPath(g, p) && ToSet(p) <= s
  {
    if n == 0 {
      var v :| v in s;
      p := [v];
    } else {
      var q := WalkBack(g, s, n - 1);
      assert q[0] in ToSet(q);
      assert HasPredecessorIn(g, s, q[0]);
      var u :| u in s && HasEdge(g, u, q[0]);
      p := [u] + q;
      forall k | 0 <= k < |p| - 1
        ensures Linked(g, p, k)
      {
        if k > 0 {
          assert Linked(g, q, k - 1);
        }
      }
    }
  }
}
