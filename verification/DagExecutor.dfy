/** The executor: adjacency, topological sort, waves of tasks, skip passes, collection. */
module DagExecutor {
  import opened Collections
  import opened DagGraph
  import opened DagRepeats
  import opened DagSort
  import opened DagSortTheorems
  import opened DagWaves
  import opened DagWaveTheorems

  datatype RunError = NotSorted(error: SortError) | TaskCrashed

  /** The results the listed predecessors have so far. */
  function Known(preds: seq<string>, results: map<string, NodeResult>): (r: seq<NodeResult>)
    ensures |r| <= |preds|
  {
    if preds == [] then []
    else if preds[0] in results then [results[preds[0]]] + Known(preds[1..], results)
    else Known(preds[1..], results)
  }

  lemma {:induction false} KnownAre(preds: seq<string>, results: map<string, NodeResult>)
    ensures |Known(preds, results)| == |preds| <==> forall p :: p in preds ==> p in results
    ensures forall p :: p in preds && p in results ==> results[p] in Known(preds, results)
    ensures forall r :: r in Known(preds, results) ==> exists p :: p in preds && p in results && results[p] == r
  {
    if preds != [] {
      KnownAre(preds[1..], results);
      assert forall q :: q in preds <==> q == preds[0] || q in preds[1..];
    }
  }

  /** Counting and scanning the known results decides the trigger rules. */
  lemma KnownDecides(preds: seq<string>, results: map<string, NodeResult>)
    ensures (|Known(preds, results)| == |preds| && forall r :: r in Known(preds, results) ==> r.status == Success)
            <==> forall p :: p in preds ==> Succeeded(results, p)
    ensures (exists r :: r in Known(preds, results) && r.status == Success)
            <==> exists p :: p in preds && Succeeded(results, p)
  {
    KnownAre(preds, results);
  }

  /** The ready scan of one turn of the wave loop. */
  method FindReady(g: Dag, order: seq<string>, predecessors: map<string, seq<string>>, st: Wave)
    returns (ready: seq<string>)
    requires predecessors == Incoming(g) && forall id :: id in order ==> id in predecessors
    ensures ready == Ready(g, order, st)
  {
    ready := [];
    for k := 0 to |order|
      invariant ready == Ready(g, order[..k], st)
    {
      var id := order[k];
      TakeMore(order, k);
      assert order[..k+1][..k] == order[..k];
      if id in st.completed || id in st.skipped {
        continue;
      }
      var preds := predecessors[id];
      if preds == [] {
        ready := ready + [id];
      } else {
        var predResults := Known(preds, st.results);
        KnownDecides(preds, st.results);
        match RuleOf(g.nodes, id) {
          case AllSuccess =>
            if |predResults| == |preds| && forall r :: r in predResults ==> r.status == Success {
              ready := ready + [id];
            }
          case OneSuccess =>
            if exists r :: r in predResults && r.status == Success {
              ready := ready + [id];
            }
        }
      }
    }
    assert order[..|order|] == order;
  }

  /** The result is filed under the node, with the status and the output of one of the node's tasks. */
  ghost predicate Reports(ready: seq<string>, spawned: nat -> Execution, id: string, result: NodeResult) {
    && result.nodeId == id
    && exists i: nat :: i < |ready| && ready[i] == id && spawned(i) == Finished(result.status, result.output)
  }

  /**
   * One task is spawned per entry of the ready list, `spawned(i)` for entry `i`; their completions
   * arrive in an arbitrary order, and the last one of a node stays.
   */
  method RunTasks(ready: seq<string>, spawned: nat -> Execution, st: Wave) returns (r: Result<Wave, RunError>)
    ensures r.Ok? <==> forall i: nat :: i < |ready| ==> spawned(i).Finished?
    ensures r.Err? ==> r.error == TaskCrashed
    ensures r.Ok? ==> r.value.completed == st.completed + ToSet(ready) && r.value.skipped == st.skipped
    ensures r.Ok? ==> r.value.results.Keys == st.results.Keys + ToSet(ready)
    ensures r.Ok? ==> forall id :: id in ready ==> Reports(ready, spawned, id, r.value.results[id])
    ensures r.Ok? ==> forall id :: id in st.results && id !in ready ==> r.value.results[id] == st.results[id]
  {
    var completed, results := st.completed, st.results;
    var running: set<nat> := {};
    for i := 0 to |ready|
      invariant forall k: nat :: k in running <==> k < i
    {
      running := running + {i};
    }
    ghost var done: set<string> := {};
    while running != {}
      invariant forall i :: i in running ==> i < |ready|
      invariant forall i: nat :: i < |ready| && i !in running ==> spawned(i).Finished? && ready[i] in done
      invariant done <= ToSet(ready) && completed == st.completed + done
      invariant results.Keys == st.results.Keys + done
      invariant forall id :: id in done ==> Reports(ready, spawned, id, results[id])
      invariant forall id :: id in st.results && id !in done ==> results[id] == st.results[id]
    {
      var i :| i in running;
      var id := ready[i];
      match spawned(i) {
        case Crashed =>
          return Err(TaskCrashed);
        case Finished(status, output) =>
          assert Reports(ready, spawned, id, NodeResult(id, status, output));
          completed := completed + {id};
          results := results[id := NodeResult(id, status, output)];
          done := done + {id};
          running := running - {i};
      }
    }
    assert done == ToSet(ready);
    return Ok(Wave(completed, st.skipped, results));
  }

  /** When every task of a node ends as its oracle says, the results are the oracle's. */
  lemma SpawnedAsOracle(ready: seq<string>, spawned: nat -> Execution, oracle: Oracle, st: Wave, r: Wave)
    requires forall i: nat :: i < |ready| ==> spawned(i) == oracle(ready[i])
    requires r.completed == st.completed + ToSet(ready) && r.skipped == st.skipped
    requires r.results.Keys == st.results.Keys + ToSet(ready)
    requires forall id :: id in ready ==> Reports(ready, spawned, id, r.results[id])
    requires forall id :: id in st.results && id !in ready ==> r.results[id] == st.results[id]
    ensures r == Execute(ToSet(ready), oracle, st)
  {
    forall id | id in ready
      ensures r.results[id] == ResultOf(oracle, id)
    {
      assert Reports(ready, spawned, id, r.results[id]);
    }
    assert r.results == Execute(ToSet(ready), oracle, st).results;
  }

  /** Mark the other predecessors of the one-success successor `s` of `v`. */
  method SkipOthers(v: string, preds: seq<string>, st: Wave) returns (r: Wave)
    ensures r == SkipPreds(v, preds, st)
  {
    var skipped, results := st.skipped, st.results;
    for k := 0 to |preds|
      invariant Wave(st.completed, skipped, results) == SkipPreds(v, preds[..k], st)
    {
      assert preds[..k+1][..k] == preds[..k];
      var other := preds[k];
      if other != v && other !in st.completed && other !in skipped {
        skipped := skipped + {other};
        results := results[other := SkippedResult(other)];
      }
    }
    assert preds[..|preds|] == preds;
    r := Wave(st.completed, skipped, results);
  }

  /** The skip pass, nodes of the wave in ready order. */
  method MarkSkipped(g: Dag, ready: seq<string>, outgoing: map<string, seq<string>>,
                     predecessors: map<string, seq<string>>, st: Wave) returns (r: Wave)
    requires Valid(g) && predecessors == Incoming(g) && outgoing == Outgoing(g)
    requires forall id :: id in ready ==> id in outgoing
    ensures r == SkipPass(g, ready, st)
  {
    r := st;
    for k := 0 to |ready|
      invariant r == SkipPass(g, ready[..k], st)
    {
      assert ready[..k+1][..k] == ready[..k];
      var v := ready[k];
      if v in r.results && r.results[v].status == Success {
        var start, succs := r, outgoing[v];
        for i := 0 to |succs|
          invariant r == SkipForSuccs(g, v, succs[..i], start)
        {
          assert succs[..i+1][..i] == succs[..i];
          var s := succs[i];
          assert Edge(v, s) in g.edges;
          if RuleOf(g.nodes, s) == OneSuccess && s !in r.completed && s !in r.skipped {
            r := SkipOthers(v, predecessors[s], r);
          }
        }
        assert succs[..|succs|] == succs;
      }
    }
    assert ready[..|ready|] == ready;
  }

  /** A wave in which some task cannot be joined. */
  ghost predicate Crashes(oracle: Oracle, ready: seq<string>) {
    exists id :: id in ready && oracle(id).Crashed?
  }

  /** `k` waves ran without a crash, and the run ended there. */
  ghost predicate EndsAfter(g: Dag, oracle: Oracle, k: nat, r: Result<seq<NodeResult>, RunError>)
    requires KnownEndpoints(g)
  {
    var order := Order(g);
    && k <= |g.nodes|
    && (forall i :: 0 <= i < k ==> RunsIn(g, order, oracle, i) != [] && !Crashes(oracle, RunsIn(g, order, oracle, i)))
    && match r
       case Ok(results) => RunsIn(g, order, oracle, k) == [] && results == Collect(order, After(g, order, oracle, k))
       case Err(e) => e == TaskCrashed && Crashes(oracle, RunsIn(g, order, oracle, k))
  }

  /**
   * The whole run. A graph the sort does not accept is rejected; any other graph is run wave by wave
   * to the end that the order and the outcomes of the tasks determine. The answer is right, with the
   * number of unreached nodes if there is a cycle, exactly when no repeated edge closes its target.
   */
  method Run(g: Dag, oracle: Oracle) returns (r: Result<seq<NodeResult>, RunError>)
    requires Valid(g)
    ensures !Accepted(g) <==> r.Err? && r.error.NotSorted?
    ensures Accepted(g) ==> exists k: nat :: EndsAfter(g, oracle, k, r)
    ensures HasCycle(g) ==>
              (Unreached(g) != {} && r == Err(NotSorted(Cycle(|Unreached(g)|))) <==> !HasClosingRepeat(g))
    ensures !HasCycle(g) ==>
              if HasClosingRepeat(g) then r == Err(NotSorted(Underflow))
              else Accepted(g) && IsTopological(g, Order(g))
  {
    var sorted := TopoSort(g);
    ghost var n: nat :| Drained(g, Pops(g, n)) && |Pops(g, n).order| == n && sorted == Verdict(g, Pops(g, n).order);
    AcceptanceIsCorrect(g, n);
    hide Pops, Verdict, HasCycle, HasClosingRepeat, Accepted, IsTopological, EndsAfter, Unreached;
    if sorted.Err? {
      return Err(NotSorted(sorted.error));
    }
    r := RunWaves(g, sorted.value, oracle);
  }

  /** One result per node of the order, in that order. */
  method CollectResults(order: seq<string>, results: map<string, NodeResult>, ghost st: Wave)
    returns (r: seq<NodeResult>)
    requires results == st.results
    ensures r == Collect(order, st)
  {
    r := [];
    for i := 0 to |order|
      invariant r == Collect(order[..i], st)
    {
      if order[i] in results {
        r := r + [results[order[i]]];
      } else {
        r := r + [SkippedResult(order[i])];
      }
    }
    assert order[..|order|] == order;
  }

  /** One turn of the wave loop with a nonempty ready list. */
  method RunWave(g: Dag, order: seq<string>, oracle: Oracle, ready: seq<string>,
                 outgoing: map<string, seq<string>>, predecessors: map<string, seq<string>>, st: Wave)
    returns (r: Result<Wave, RunError>)
    requires Valid(g) && predecessors == Incoming(g) && outgoing == Outgoing(g)
    requires ready == Ready(g, order, st) && forall id :: id in ready ==> id in outgoing
    ensures r.Err? <==> Crashes(oracle, ready)
    ensures r.Err? ==> r.error == TaskCrashed
    ensures r.Ok? ==> r.value == NextWave(g, order, oracle, st)
  {
    hide Ready, SkipPass, Execute;
    var spawned := (i: nat) => if i < |ready| then oracle(ready[i]) else Crashed;
    r := RunTasks(ready, spawned, st);
    assert r.Err? <==> Crashes(oracle, ready) by {
      assert forall i: nat :: i < |ready| ==> spawned(i) == oracle(ready[i]);
    }
    if r.Ok? {
      SpawnedAsOracle(ready, spawned, oracle, st, r.value);
      var marked := MarkSkipped(g, ready, outgoing, predecessors, r.value);
      r := Ok(marked);
    }
  }

  /** The wave loop. */
  method RunWaves(g: Dag, order: seq<string>, oracle: Oracle) returns (r: Result<seq<NodeResult>, RunError>)
    requires Valid(g) && order == Order(g)
    ensures r.Err? ==> r.error.TaskCrashed?
    ensures exists k: nat :: EndsAfter(g, oracle, k, r)
  {
    hide NextWave, Order, Ready, Crashes, Collect, Incoming, Outgoing;
    var predecessors, outgoing := BuildAdjacency(g);
    OrderIsKeyed(g);
    var st := NOTHING_RUN;
    ghost var k: nat := 0;
    var ready := FindReady(g, order, predecessors, st);
    while ready != []
      invariant st == After(g, order, oracle, k) && k <= |g.nodes|
      invariant ready == RunsIn(g, order, oracle, k)
      invariant forall i :: 0 <= i < k ==>
                RunsIn(g, order, oracle, i) != [] && !Crashes(oracle, RunsIn(g, order, oracle, i))
      decreases |g.nodes| - k
    {
      var wave := RunWave(g, order, oracle, ready, outgoing, predecessors, st);
      if wave.Err? {
        r := Err(TaskCrashed);
        assert EndsAfter(g, oracle, k, r);
        return;
      }
      st := wave.value;
      k := k + 1;
      WavesAreBounded(g, order, oracle, k);
      ready := FindReady(g, order, predecessors, st);
    }
    var finalResults := CollectResults(order, st.results, st);
    r := Ok(finalResults);
    assert EndsAfter(g, oracle, k, r);
  }

  lemma OrderIsKeyed(g: Dag)
    requires Valid(g)
    ensures ToSet(Order(g)) <= Ids(g)
    ensures forall id :: id in Order(g) ==> id in Incoming(g) && id in Outgoing(g)
  {
    var ranked := PopsAreBetween(g, |g.nodes|);
    hide Pops;
    assert forall id :: id in Order(g) ==> id in ranked;
  }

  lemma DistinctOrderCount(g: Dag, order: seq<string>)
    requires Valid(g) && IsTopological(g, order)
    ensures |order| == |g.nodes|
  {
    IdCount(g);
    DistinctCardinality(order);
  }

  /** The node's task was run in one of the first `k` waves. */
  ghost predicate Ran(g: Dag, oracle: Oracle, k: nat, id: string)
    requires KnownEndpoints(g)
  {
    exists j: nat :: j < k && id in RunsIn(g, Order(g), oracle, j)
  }

  /** The returned list follows the order: a node's entry is its task's outcome if it ran, and skipped if not. */
  lemma ReturnedListFollowsOrder(g: Dag, oracle: Oracle, k: nat, results: seq<NodeResult>, i: nat)
    requires Valid(g) && Accepted(g) && EndsAfter(g, oracle, k, Ok(results))
    requires i < |g.nodes|
    ensures |results| == |g.nodes| == |Order(g)|
    ensures var id := Order(g)[i];
            results[i] == if Ran(g, oracle, k, id) then ResultOf(oracle, id) else SkippedResult(id)
    ensures results[i].nodeId == Order(g)[i]
  {
    var order := Order(g);
    var st := After(g, order, oracle, k);
    EveryWaveIsSound(g, order, oracle, k);
    EveryNodeIsAccountedFor(g, order, oracle, k, order[i]);
    if Ran(g, oracle, k, order[i]) {
      var j: nat :| j < k && order[i] in RunsIn(g, order, oracle, j);
      RanBefore(g, order, oracle, j, k, order[i]);
    } else if order[i] in st.completed {
      var j := CompletedRanInSomeWave(g, order, oracle, k, order[i]);
    }
  }

  /** On an all-success graph the returned statuses are those of the recursive semantics. */
  lemma ReturnedListIsMeaning(g: Dag, oracle: Oracle, k: nat, results: seq<NodeResult>, i: nat)
    requires Valid(g) && IsTopological(g, Order(g)) && EndsAfter(g, oracle, k, Ok(results))
    requires AllNodesAllSuccess(g) && i < |g.nodes|
    ensures |results| == |g.nodes| == |Order(g)|
    ensures results[i].status == Meaning(g, Order(g), oracle, i)
  {
    DistinctOrderCount(g, Order(g));
    WavesComputeMeaning(g, Order(g), oracle, k, i);
  }

  /** What the sort answers, in terms of the graph. */
  lemma AcceptanceIsCorrect(g: Dag, n: nat)
    requires Valid(g) && Pops(g, n).queue == [] && |Pops(g, n).order| == n
    ensures var verdict := Verdict(g, Pops(g, n).order);
            && (Accepted(g) <==> verdict.Ok?)
            && (HasCycle(g) ==>
                  (Unreached(g) != {} && verdict == Err(Cycle(|Unreached(g)|)) <==> !HasClosingRepeat(g)))
            && (!HasCycle(g) ==>
                  if HasClosingRepeat(g) then verdict == Err(Underflow) else IsTopological(g, Order(g)) && verdict.Ok?)
  {
    SortIsCorrect(g, n);
    UnreachedAreUnvisited(g, n);
    hide Pops, HasCycle, HasClosingRepeat, Accepted, IsTopological, Unreached, Order;
    AcceptedIffInTime(g, n);
    if !HasCycle(g) {
      AcyclicIsAcceptedIff(g, n);
    }
  }

  lemma RepeatedOrderIsReturned(g: Dag, oracle: Oracle, k: nat, results: seq<NodeResult>)
    requires Valid(g) && Accepted(g) && EndsAfter(g, oracle, k, Ok(results))
    requires |g.nodes| == 3 && Order(g) == [A, B, B]
    ensures |results| == 3 && results[0].nodeId == A && results[1] == results[2] && results[2].nodeId == B
    ensures forall r :: r in results ==> r.nodeId == A || r.nodeId == B
  {
    hide Order, Accepted, EndsAfter, Ran, ResultOf, SkippedResult, Valid;
    ReturnedListFollowsOrder(g, oracle, k, results, 0);
    ReturnedListFollowsOrder(g, oracle, k, results, 1);
    ReturnedListFollowsOrder(g, oracle, k, results, 2);
  }

  lemma AcceptedInThree(g: Dag)
    requires Valid(g) && |g.nodes| == 3
    requires Pops(g, 3).queue == [] && Verdict(g, Pops(g, 3).order) == Ok([A, B, B])
    ensures Accepted(g) && Order(g) == [A, B, B]
  {
    hide Pops;
  }

  /** A list the run may return reports `b` twice and `c` not at all. */
  ghost predicate ReportsBTwice(g: Dag, oracle: Oracle, k: nat, results: seq<NodeResult>)
    requires KnownEndpoints(g)
  {
    EndsAfter(g, oracle, k, Ok(results)) ==>
      && |results| == 3 && results[0].nodeId == A && results[1] == results[2] && results[2].nodeId == B
      && forall r :: r in results ==> r.nodeId != C
  }

  lemma RunOfThree(g: Dag, oracle: Oracle, k: nat, results: seq<NodeResult>)
    requires Valid(g) && Accepted(g) && |g.nodes| == 3 && Order(g) == [A, B, B]
    ensures ReportsBTwice(g, oracle, k, results)
  {
    NamesDiffer();
    hide Order, Accepted, EndsAfter;
    if EndsAfter(g, oracle, k, Ok(results)) {
      RepeatedOrderIsReturned(g, oracle, k, results);
    }
  }

  /** The graph with the doubled edge beside a self-loop is run: `b` is reported twice, `c` not at all. */
  lemma MisjudgedGraphIsRun(oracle: Oracle, k: nat, results: seq<NodeResult>)
    ensures Valid(DoubledBesideLoop()) && Accepted(DoubledBesideLoop())
    ensures ReportsBTwice(DoubledBesideLoop(), oracle, k, results)
  {
    var g := DoubledBesideLoop();
    assert |g.nodes| == 3;
    hide *;
    DuplicateEdgeHidesCycle();
    AcceptedInThree(g);
    RunOfThree(g, oracle, k, results);
  }

  // ------------------------------------------------------------- what the tasks said

  /** A wave of the run ended without a crash, so every node in it finished. */
  lemma RanFinished(g: Dag, oracle: Oracle, k: nat, results: seq<NodeResult>, id: string)
    requires Valid(g) && EndsAfter(g, oracle, k, Ok(results)) && Ran(g, oracle, k, id)
    ensures oracle(id).Finished?
  {
    hide RunsIn;
    var j: nat :| j < k && id in RunsIn(g, Order(g), oracle, j);
    assert !Crashes(oracle, RunsIn(g, Order(g), oracle, j));
  }

  /** The entry of a node that ran has its task's own status and output; any other entry says skipped. */
  lemma ReturnedListReportsTasks(g: Dag, oracle: Oracle, k: nat, results: seq<NodeResult>, i: nat)
    requires Valid(g) && Accepted(g) && EndsAfter(g, oracle, k, Ok(results))
    requires i < |g.nodes|
    ensures |results| == |g.nodes| == |Order(g)| && results[i].nodeId == Order(g)[i]
    ensures Ran(g, oracle, k, Order(g)[i]) ==> oracle(Order(g)[i]) == Finished(results[i].status, results[i].output)
    ensures !Ran(g, oracle, k, Order(g)[i]) ==> results[i] == NodeResult(Order(g)[i], Skipped, "")
  {
    hide EndsAfter, Ran, Accepted, Order;
    ReturnedListFollowsOrder(g, oracle, k, results, i);
    if Ran(g, oracle, k, Order(g)[i]) {
      RanFinished(g, oracle, k, results, Order(g)[i]);
    }
  }

  /**
   * On an all-success graph a task that fails has all its successors reported as skipped, and so has
   * every node that is skipped itself.
   */
  lemma FailureSkipsSuccessors(g: Dag, oracle: Oracle, k: nat, results: seq<NodeResult>, j: nat, i: nat)
    requires Valid(g) && Accepted(g) && IsTopological(g, Order(g)) && EndsAfter(g, oracle, k, Ok(results))
    requires AllNodesAllSuccess(g) && i < |g.nodes| && j < |g.nodes|
    ensures |results| == |g.nodes| == |Order(g)|
    ensures HasEdge(g, Order(g)[j], Order(g)[i]) && results[j].status != Success ==>
              results[i] == NodeResult(Order(g)[i], Skipped, "")
    ensures HasEdge(g, Order(g)[j], Order(g)[i]) &&
            oracle(Order(g)[j]).Finished? && oracle(Order(g)[j]).status == Failed ==>
              results[i] == NodeResult(Order(g)[i], Skipped, "")
  {
    var order := Order(g);
    DistinctOrderCount(g, order);
    ReturnedListReportsTasks(g, oracle, k, results, i);
    ReturnedListReportsTasks(g, oracle, k, results, j);
    if HasEdge(g, order[j], order[i]) && Ran(g, oracle, k, order[i]) {
      PredecessorSucceeded(g, oracle, k, results, j, i);
    }
  }

  lemma PredecessorSucceeded(g: Dag, oracle: Oracle, k: nat, results: seq<NodeResult>, j: nat, i: nat)
    requires Valid(g) && Accepted(g) && IsTopological(g, Order(g)) && EndsAfter(g, oracle, k, Ok(results))
    requires AllNodesAllSuccess(g) && i < |g.nodes| && j < |g.nodes| && |g.nodes| == |Order(g)| == |results|
    requires HasEdge(g, Order(g)[j], Order(g)[i]) && Ran(g, oracle, k, Order(g)[i])
    ensures results[j].status == Success
  {
    var order := Order(g);
    var st := After(g, order, oracle, k);
    assert results[j] == FinalResult(st, order[j]);
    hide Order, Accepted, EndsAfter, IsTopological;
    var n: nat :| n < k && order[i] in RunsIn(g, order, oracle, n);
    RanBefore(g, order, oracle, n, k, order[i]);
    EveryWaveIsSound(g, order, oracle, k);
    assert RanSoundly(g, oracle, st, order[i]);
    AllSuccessRules(g.nodes, order[i]);
    assert order[j] in InList(g.edges, order[i]);
    assert Succeeded(st.results, order[j]);
  }
}
