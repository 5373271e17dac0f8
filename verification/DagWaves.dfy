/** The wave scheduler as a function of the graph, its order and the outcome of every task. */
module DagWaves {
  import opened Collections
  import opened DagGraph

  datatype NodeStatus = Success | Failed | Skipped

  datatype NodeResult = NodeResult(nodeId: string, status: NodeStatus, output: string)

  /** What spawning the task of a node can bring back. */
  datatype Execution = Finished(status: NodeStatus, output: string) | Crashed

  /** The outcome every node's task would have, whenever it is run. */
  type Oracle = string -> Execution

  datatype Wave = Wave(completed: set<string>, skipped: set<string>, results: map<string, NodeResult>)

  const NOTHING_RUN: Wave := Wave({}, {}, map[])

  function SkippedResult(id: string): NodeResult {
    NodeResult(id, Skipped, "")
  }

  function OutcomeOf(id: string, execution: Execution): NodeResult {
    match execution
    case Finished(status, output) => NodeResult(id, status, output)
    case Crashed => NodeResult(id, Failed, "")
  }

  function ResultOf(oracle: Oracle, id: string): NodeResult {
    OutcomeOf(id, oracle(id))
  }

  /** The rule of the first node called `id`; the loader admits only one. */
  function RuleOf(nodes: seq<Node>, id: string): TriggerRule {
    if nodes == [] then AllSuccess
    else if nodes[0].id == id then nodes[0].rule
    else RuleOf(nodes[1..], id)
  }

  /** With distinct ids every node has its own rule. */
  lemma {:induction false} RuleOfNode(nodes: seq<Node>, i: nat)
    requires i < |nodes| && forall a, b :: 0 <= a < b < |nodes| ==> nodes[a].id != nodes[b].id
    ensures RuleOf(nodes, nodes[i].id) == nodes[i].rule
  {
    if i > 0 {
      RuleOfNode(nodes[1..], i - 1);
    }
  }

  predicate Succeeded(results: map<string, NodeResult>, id: string) {
    id in results && results[id].status == Success
  }

  /** The trigger rule of a node, read declaratively: a node without predecessors always runs. */
  predicate Triggered(g: Dag, results: map<string, NodeResult>, id: string) {
    var preds := InList(g.edges, id);
    || preds == []
    || match RuleOf(g.nodes, id)
       case AllSuccess => forall p :: p in preds ==> Succeeded(results, p)
       case OneSuccess => exists p :: p in preds && Succeeded(results, p)
  }

  /** The trigger of a node in terms of its own rule and the edges into it. */
  lemma TriggerByRule(g: Dag, results: map<string, NodeResult>, i: nat)
    requires DistinctIds(g) && i < |g.nodes|
    ensures var n := g.nodes[i];
            Triggered(g, results, n.id) <==>
              || (forall e :: e in g.edges ==> e.to != n.id)
              || (n.rule == AllSuccess && forall e :: e in g.edges && e.to == n.id ==>
                    e.from in results && results[e.from].status == Success)
              || (n.rule == OneSuccess && exists e ::
                    e in g.edges && e.to == n.id && e.from in results && results[e.from].status == Success)
  {
    var n := g.nodes[i];
    RuleOfNode(g.nodes, i);
    forall e: Edge
      ensures e in g.edges && e.to == n.id <==> e.to == n.id && e.from in InList(g.edges, n.id)
    {
      assert e.to == n.id ==> e == Edge(e.from, n.id);
    }
    forall p
      ensures p in InList(g.edges, n.id) <==> Edge(p, n.id) in g.edges
    {
    }
    assert InList(g.edges, n.id) != [] ==> Edge(InList(g.edges, n.id)[0], n.id) in g.edges;
  }

  predicate IsReady(g: Dag, st: Wave, id: string) {
    id !in st.completed && id !in st.skipped && Triggered(g, st.results, id)
  }

  function Ready(g: Dag, order: seq<string>, st: Wave): (r: seq<string>)
    ensures forall id :: id in r <==> id in order && IsReady(g, st, id)
  {
    Filter((id: string) => IsReady(g, st, id), order)
  }

  /** The ready list follows the topological order. */
  lemma ReadyFollowsOrder(g: Dag, order: seq<string>, st: Wave) returns (at: seq<nat>)
    ensures Selects(order, Ready(g, order, st), at)
  {
    at := FilterKeepsOrder((id: string) => IsReady(g, st, id), order);
  }

  /** All tasks of a wave run; the order in which they finish does not show. */
  function Execute(ready: set<string>, oracle: Oracle, st: Wave): Wave {
    st.(completed := st.completed + ready,
        results := st.results + map id | id in ready :: ResultOf(oracle, id))
  }

  function SkipNode(v: string, other: string, st: Wave): Wave {
    if other != v && other !in st.completed && other !in st.skipped
    then st.(skipped := st.skipped + {other}, results := st.results[other := SkippedResult(other)])
    else st
  }

  /** Mark the other predecessors of a successor of `v`. */
  function SkipPreds(v: string, preds: seq<string>, st: Wave): Wave {
    if preds == [] then st
    else SkipNode(v, preds[|preds|-1], SkipPreds(v, preds[..|preds|-1], st))
  }

  function SkipForSucc(g: Dag, v: string, s: string, st: Wave): Wave {
    if RuleOf(g.nodes, s) == OneSuccess && s !in st.completed && s !in st.skipped
    then SkipPreds(v, InList(g.edges, s), st)
    else st
  }

  function SkipForSuccs(g: Dag, v: string, succs: seq<string>, st: Wave): Wave {
    if succs == [] then st
    else SkipForSucc(g, v, succs[|succs|-1], SkipForSuccs(g, v, succs[..|succs|-1], st))
  }

  function SkipForNode(g: Dag, v: string, st: Wave): Wave {
    if Succeeded(st.results, v) then SkipForSuccs(g, v, OutList(g.edges, v), st) else st
  }

  /** The pass over the nodes of the wave, in ready order. */
  function SkipPass(g: Dag, ready: seq<string>, st: Wave): Wave {
    if ready == [] then st
    else SkipForNode(g, ready[|ready|-1], SkipPass(g, ready[..|ready|-1], st))
  }

  function NextWave(g: Dag, order: seq<string>, oracle: Oracle, st: Wave): Wave {
    var ready := Ready(g, order, st);
    SkipPass(g, ready, Execute(ToSet(ready), oracle, st))
  }

  /** The state after `k` waves. */
  function After(g: Dag, order: seq<string>, oracle: Oracle, k: nat): Wave {
    if k == 0 then NOTHING_RUN else NextWave(g, order, oracle, After(g, order, oracle, k - 1))
  }

  /** The nodes whose tasks run in wave `k`. */
  function RunsIn(g: Dag, order: seq<string>, oracle: Oracle, k: nat): seq<string> {
    Ready(g, order, After(g, order, oracle, k))
  }

  function FinalResult(st: Wave, id: string): NodeResult {
    if id in st.results then st.results[id] else SkippedResult(id)
  }

  /** The returned list: one entry per node of the order. */
  function Collect(order: seq<string>, st: Wave): (r: seq<NodeResult>)
    ensures |r| == |order|
  {
    seq(|order|, i requires 0 <= i < |order| => FinalResult(st, order[i]))
  }

  // ------------------------------------------------------------ what a pass does

  /** `x` may be skipped: a successful node shares a one-success successor with it. */
  ghost predicate MaySkip(g: Dag, st: Wave, x: string) {
    exists u, s :: Rival(g, st, x, u, s)
  }

  ghost predicate Rival(g: Dag, st: Wave, x: string, u: string, s: string) {
    && u != x && HasEdge(g, x, s) && HasEdge(g, u, s)
    && RuleOf(g.nodes, s) == OneSuccess
    && u in st.completed && Succeeded(st.results, u)
  }

  /** The skip pass only adds skip marks to undecided nodes that may be skipped. */
  ghost predicate OnlySkips(g: Dag, a: Wave, b: Wave) {
    && b.completed == a.completed
    && a.skipped <= b.skipped
    && b.results.Keys == a.results.Keys + b.skipped
    && (forall id :: id in a.results && id !in b.skipped - a.skipped ==> b.results[id] == a.results[id])
    && (forall id :: id in b.skipped - a.skipped ==>
          id !in a.completed && b.results[id] == SkippedResult(id) && MaySkip(g, a, id))
  }

  /** All predecessors of `s` are decided. */
  ghost predicate PredsDecided(g: Dag, st: Wave, s: string) {
    forall p :: HasEdge(g, p, s) ==> p in st.completed || p in st.skipped
  }

  lemma OnlySkipsTransitive(g: Dag, a: Wave, b: Wave, c: Wave)
    requires a.completed !! a.skipped && a.results.Keys == a.completed + a.skipped
    requires OnlySkips(g, a, b) && OnlySkips(g, b, c)
    ensures OnlySkips(g, a, c)
  {
    forall id | id in c.skipped - b.skipped
      ensures MaySkip(g, a, id)
    {
      var u, s :| Rival(g, b, id, u, s);
      assert Rival(g, a, id, u, s);
    }
  }

  ghost predicate Partitioned(st: Wave) {
    st.completed !! st.skipped && st.results.Keys == st.completed + st.skipped
  }

  lemma {:induction false} SkipPredsSound(g: Dag, v: string, s: string, preds: seq<string>, st: Wave)
    requires Partitioned(st) && v in st.completed && Succeeded(st.results, v)
    requires HasEdge(g, v, s) && RuleOf(g.nodes, s) == OneSuccess
    requires forall p :: p in preds ==> HasEdge(g, p, s)
    ensures OnlySkips(g, st, SkipPreds(v, preds, st)) && Partitioned(SkipPreds(v, preds, st))
    ensures forall p :: p in preds ==>
              p in SkipPreds(v, preds, st).completed || p in SkipPreds(v, preds, st).skipped
  {
    if preds != [] {
      var front, p := preds[..|preds|-1], preds[|preds|-1];
      SkipPredsSound(g, v, s, front, st);
      if p != v {
        assert Rival(g, st, p, v, s);
      }
    }
  }

  lemma SkipForSuccSound(g: Dag, v: string, s: string, st: Wave)
    requires Partitioned(st) && v in st.completed && Succeeded(st.results, v) && HasEdge(g, v, s)
    ensures OnlySkips(g, st, SkipForSucc(g, v, s, st)) && Partitioned(SkipForSucc(g, v, s, st))
    ensures RuleOf(g.nodes, s) == OneSuccess && s !in st.completed && s !in st.skipped ==>
              PredsDecided(g, SkipForSucc(g, v, s, st), s)
  {
    if RuleOf(g.nodes, s) == OneSuccess {
      SkipPredsSound(g, v, s, InList(g.edges, s), st);
    }
  }

  /** After the pass for `v`, its one-success successors in `succs` are settled. */
  ghost predicate Settled(g: Dag, st: Wave, s: string) {
    s in st.completed || s in st.skipped || PredsDecided(g, st, s)
  }

  lemma {:induction false} SkipForSuccsSound(g: Dag, v: string, succs: seq<string>, st: Wave)
    requires Partitioned(st) && v in st.completed && Succeeded(st.results, v)
    requires forall s :: s in succs ==> HasEdge(g, v, s)
    ensures OnlySkips(g, st, SkipForSuccs(g, v, succs, st)) && Partitioned(SkipForSuccs(g, v, succs, st))
    ensures forall s :: s in succs && RuleOf(g.nodes, s) == OneSuccess ==>
              Settled(g, SkipForSuccs(g, v, succs, st), s)
  {
    if succs != [] {
      var front, t := succs[..|succs|-1], succs[|succs|-1];
      SkipForSuccsSound(g, v, front, st);
      var mid := SkipForSuccs(g, v, front, st);
      SkipForSuccSound(g, v, t, mid);
      OnlySkipsTransitive(g, st, mid, SkipForSucc(g, v, t, mid));
    }
  }

  lemma {:induction false} SkipPassSound(g: Dag, ready: seq<string>, st: Wave)
    requires Partitioned(st) && forall v :: v in ready ==> v in st.completed
    ensures OnlySkips(g, st, SkipPass(g, ready, st)) && Partitioned(SkipPass(g, ready, st))
    ensures forall v, s ::
              v in ready && Succeeded(st.results, v) && HasEdge(g, v, s) && RuleOf(g.nodes, s) == OneSuccess ==>
              Settled(g, SkipPass(g, ready, st), s)
  {
    if ready != [] {
      var front, v := ready[..|ready|-1], ready[|ready|-1];
      SkipPassSound(g, front, st);
      var mid := SkipPass(g, front, st);
      if Succeeded(mid.results, v) {
        SkipForSuccsSound(g, v, OutList(g.edges, v), mid);
        OnlySkipsTransitive(g, st, mid, SkipForNode(g, v, mid));
      }
    }
  }

  /** What one successor adds to the skips: its other undecided predecessors, if it waits for one success itself. */
  lemma SkipForSuccAdds(g: Dag, v: string, s: string, st: Wave)
    ensures var r := SkipForSucc(g, v, s, st);
            var waits := RuleOf(g.nodes, s) == OneSuccess && s !in st.completed && s !in st.skipped;
            && r.completed == st.completed
            && (forall p :: p in r.skipped <==>
                  p in st.skipped || (waits && Edge(p, s) in g.edges && p != v && p !in st.completed))
            && (forall p :: p in r.skipped && p !in st.skipped ==>
                  p in r.results && r.results[p] == NodeResult(p, Skipped, ""))
            && forall p :: p !in r.skipped || p in st.skipped ==>
                 (p in r.results <==> p in st.results) && (p in st.results ==> r.results[p] == st.results[p])
  {
    SkipPredsAdd(v, InList(g.edges, s), st);
  }

  lemma {:induction false} SkipPredsAdd(v: string, preds: seq<string>, st: Wave)
    ensures var r := SkipPreds(v, preds, st);
            && r.completed == st.completed
            && (forall p :: p in r.skipped <==> p in st.skipped || (p in preds && p != v && p !in st.completed))
            && (forall p :: p in r.skipped && p !in st.skipped ==>
                  p in r.results && r.results[p] == NodeResult(p, Skipped, ""))
            && forall p :: p !in r.skipped || p in st.skipped ==>
                 (p in r.results <==> p in st.results) && (p in st.results ==> r.results[p] == st.results[p])
  {
    if preds != [] {
      SkipPredsAdd(v, preds[..|preds|-1], st);
    }
  }

  /** Nodes in which the order of the pass shows: skipping `s` for `t` keeps `s` from skipping `x`. */
  ghost predicate Entangled(g: Dag, u: string, v: string, x: string, s: string, t: string) {
    && OutList(g.edges, u) == [x, t] && OutList(g.edges, v) == [s]
    && InList(g.edges, t) == [u, s] && InList(g.edges, s) == [x, v]
    && RuleOf(g.nodes, x) == AllSuccess && RuleOf(g.nodes, s) == OneSuccess && RuleOf(g.nodes, t) == OneSuccess
    && u != v && u != x && u != s && u != t && v != x && v != s && v != t && x != s && x != t && s != t
  }

  lemma PassOfTwo(g: Dag, u: string, v: string, st: Wave)
    ensures SkipPass(g, [u, v], st) == SkipForNode(g, v, SkipForNode(g, u, st))
  {
    assert [u, v][..1] == [u] && [u][..0] == [];
    assert SkipPass(g, [], st) == st;
    assert SkipPass(g, [u], st) == SkipForNode(g, u, st);
  }

  lemma SuccsOfOne(g: Dag, v: string, s: string, st: Wave)
    ensures SkipForSuccs(g, v, [s], st) == SkipForSucc(g, v, s, st)
  {
    assert [s][..0] == [];
    assert SkipForSuccs(g, v, [], st) == st;
  }

  lemma SuccsOfTwo(g: Dag, v: string, s: string, t: string, st: Wave)
    ensures SkipForSuccs(g, v, [s, t], st) == SkipForSucc(g, v, t, SkipForSucc(g, v, s, st))
  {
    assert [s, t][..1] == [s];
    SuccsOfOne(g, v, s, st);
  }

  lemma PredsOfTwo(v: string, p: string, q: string, st: Wave)
    ensures SkipPreds(v, [p, q], st) == SkipNode(v, q, SkipNode(v, p, st))
  {
    assert [p, q][..1] == [p] && [p][..0] == [];
    assert SkipPreds(v, [], st) == st;
    assert SkipPreds(v, [p], st) == SkipNode(v, p, st);
  }

  /** The pass goes in ready order, and that order shows: `x` is skipped in one order and not in the other. */
  lemma OrderOfSkipsMatters(g: Dag, u: string, v: string, x: string, s: string, t: string, st: Wave)
    requires Entangled(g, u, v, x, s, t)
    requires st.completed == {u, v} && st.skipped == {} && Succeeded(st.results, u) && Succeeded(st.results, v)
    ensures SkipPass(g, [u, v], st).skipped == {s}
    ensures SkipPass(g, [v, u], st).skipped == {x, s}
  {
    PassOfTwo(g, u, v, st);
    PassOfTwo(g, v, u, st);
    PassForFirst(g, u, x, s, t, st);
    PassForSecond(g, v, x, s, st);
    PassForSecond(g, v, x, s, SkipForNode(g, u, st));
    PassForFirst(g, u, x, s, t, SkipForNode(g, v, st));
    hide InList, OutList, RuleOf, SkipForNode, SkipPass;
  }

  lemma PassForFirst(g: Dag, u: string, x: string, s: string, t: string, st: Wave)
    requires OutList(g.edges, u) == [x, t] && InList(g.edges, t) == [u, s] && u != s && s != t
    requires RuleOf(g.nodes, x) == AllSuccess && RuleOf(g.nodes, t) == OneSuccess && Succeeded(st.results, u)
    requires s !in st.completed && s !in st.skipped && t !in st.completed && t !in st.skipped
    ensures SkipForNode(g, u, st) == SkipNode(u, s, st)
  {
    SuccsOfTwo(g, u, x, t, st);
    PredsOfTwo(u, u, s, st);
    hide InList, OutList, RuleOf, SkipForSuccs, SkipPreds;
  }

  lemma PassForSecond(g: Dag, v: string, x: string, s: string, st: Wave)
    requires OutList(g.edges, v) == [s] && InList(g.edges, s) == [x, v] && x != v
    requires RuleOf(g.nodes, s) == OneSuccess && Succeeded(st.results, v) && s !in st.completed
    ensures SkipForNode(g, v, st) == if s in st.skipped then st else SkipNode(v, x, st)
  {
    SuccsOfOne(g, v, s, st);
    PredsOfTwo(v, x, v, st);
    hide InList, OutList, RuleOf, SkipForSuccs, SkipPreds;
  }
}
