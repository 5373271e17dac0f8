/** Whole-run properties of the wave scheduler. */
module DagWaveTheorems {
  import opened Collections
  import opened DagGraph
  import opened DagSort
  import opened DagSortTheorems
  import opened DagWaves

  // ------------------------------------------------------- any mix of trigger rules

  /** A node that ran: its result is its task's outcome and its trigger holds. */
  ghost predicate RanSoundly(g: Dag, oracle: Oracle, st: Wave, id: string) {
    id in st.results && st.results[id] == ResultOf(oracle, id) && Triggered(g, st.results, id)
  }

  /** A node marked by a skip pass lost to a successful predecessor of a shared one-success successor. */
  ghost predicate SkippedSoundly(g: Dag, st: Wave, id: string) {
    id in st.results && st.results[id] == SkippedResult(id) && MaySkip(g, st, id)
  }

  /** A one-success node that was not skipped and has a successful predecessor. */
  ghost predicate Fires(g: Dag, st: Wave, s: string) {
    && RuleOf(g.nodes, s) == OneSuccess && s !in st.skipped
    && exists u :: HasEdge(g, u, s) && u in st.completed && Succeeded(st.results, u)
  }

  ghost predicate Sound(g: Dag, order: seq<string>, oracle: Oracle, st: Wave) {
    && Partitioned(st)
    && (forall id :: id in st.completed ==> id in order && RanSoundly(g, oracle, st, id))
    && (forall id :: id in st.skipped ==> SkippedSoundly(g, st, id))
    && (forall s :: Fires(g, st, s) ==> PredsDecided(g, st, s))
  }

  /** Between states of a run decisions and results only accumulate. */
  ghost predicate Grows(a: Wave, b: Wave) {
    && a.completed <= b.completed && a.skipped <= b.skipped
    && forall id :: id in a.results ==> id in b.results && b.results[id] == a.results[id]
  }

  lemma SkippedStays(g: Dag, a: Wave, b: Wave, id: string)
    requires SkippedSoundly(g, a, id) && Grows(a, b)
    ensures SkippedSoundly(g, b, id)
  {
    var u, s :| Rival(g, a, id, u, s);
    assert Rival(g, b, id, u, s);
  }

  /** Executing a wave, before the skip pass. */
  lemma ExecuteSound(g: Dag, order: seq<string>, oracle: Oracle, st: Wave)
    requires Sound(g, order, oracle, st)
    ensures var b := Execute(ToSet(Ready(g, order, st)), oracle, st);
            && Partitioned(b) && Grows(st, b)
            && (forall id :: id in b.completed ==> id in order && RanSoundly(g, oracle, b, id))
            && (forall id :: id in b.skipped ==> SkippedSoundly(g, b, id))
  {
    var b := Execute(ToSet(Ready(g, order, st)), oracle, st);
    forall id | id in b.completed
      ensures id in order && RanSoundly(g, oracle, b, id)
    {
      if id in st.completed {
        assert RanSoundly(g, oracle, st, id);
      }
    }
    forall id | id in b.skipped
      ensures SkippedSoundly(g, b, id)
    {
      SkippedStays(g, st, b, id);
    }
  }

  /** A completed one-success node with a successful predecessor fired before, so its predecessors are decided. */
  lemma CompletedFired(g: Dag, order: seq<string>, oracle: Oracle, st: Wave, s: string)
    requires Sound(g, order, oracle, st) && RuleOf(g.nodes, s) == OneSuccess
    requires s !in st.skipped && Triggered(g, st.results, s) && InList(g.edges, s) != []
    ensures PredsDecided(g, st, s)
  {
    var p :| p in InList(g.edges, s) && Succeeded(st.results, p);
    assert p in st.skipped ==> SkippedSoundly(g, st, p);
    assert HasEdge(g, p, s);
    assert Fires(g, st, s);
  }

  lemma FiredAreSettled(g: Dag, order: seq<string>, oracle: Oracle, st: Wave, s: string)
    requires Sound(g, order, oracle, st)
    requires Fires(g, NextWave(g, order, oracle, st), s)
    ensures PredsDecided(g, NextWave(g, order, oracle, st), s)
  {
    hide SkipPass;
    var ready := Ready(g, order, st);
    var mid := Execute(ToSet(ready), oracle, st);
    var next := NextWave(g, order, oracle, st);
    ExecuteSound(g, order, oracle, st);
    SkipPassSound(g, ready, mid);
    var u :| HasEdge(g, u, s) && u in next.completed && Succeeded(next.results, u);
    assert u in mid.completed && Succeeded(mid.results, u);
    if u in st.completed {
      assert Fires(g, st, s);
    } else if s in next.completed {
      assert u in InList(g.edges, s);
      assert s in st.completed ==> RanSoundly(g, oracle, st, s);
      CompletedFired(g, order, oracle, st, s);
    } else {
      assert Settled(g, next, s);
    }
  }

  /** One wave keeps everything and overwrites nothing. */
  lemma NextWaveSound(g: Dag, order: seq<string>, oracle: Oracle, st: Wave)
    requires Sound(g, order, oracle, st)
    ensures Sound(g, order, oracle, NextWave(g, order, oracle, st))
    ensures Grows(st, NextWave(g, order, oracle, st))
    ensures NextWave(g, order, oracle, st).completed == st.completed + ToSet(Ready(g, order, st))
  {
    var ready := Ready(g, order, st);
    var mid := Execute(ToSet(ready), oracle, st);
    var next := NextWave(g, order, oracle, st);
    ExecuteSound(g, order, oracle, st);
    SkipPassSound(g, ready, mid);
    assert Grows(mid, next);
    forall id | id in next.completed
      ensures id in order && RanSoundly(g, oracle, next, id)
    {
      assert RanSoundly(g, oracle, mid, id);
    }
    forall id | id in next.skipped
      ensures SkippedSoundly(g, next, id)
    {
      if id in mid.skipped {
        SkippedStays(g, mid, next, id);
      } else {
        var u, s :| Rival(g, mid, id, u, s);
        assert Rival(g, next, id, u, s);
      }
    }
    forall s | Fires(g, next, s)
      ensures PredsDecided(g, next, s)
    {
      FiredAreSettled(g, order, oracle, st, s);
    }
  }

  /** The invariant of every run, for every outcome of the tasks. */
  lemma {:induction false} EveryWaveIsSound(g: Dag, order: seq<string>, oracle: Oracle, k: nat)
    ensures Sound(g, order, oracle, After(g, order, oracle, k))
  {
    if k > 0 {
      EveryWaveIsSound(g, order, oracle, k - 1);
      NextWaveSound(g, order, oracle, After(g, order, oracle, k - 1));
    }
  }

  lemma {:induction false} RunsOnlyGrow(g: Dag, order: seq<string>, oracle: Oracle, i: nat, k: nat)
    requires i <= k
    ensures Grows(After(g, order, oracle, i), After(g, order, oracle, k))
    decreases k
  {
    hide NextWave, Sound;
    if i < k {
      hide Grows;
      RunsOnlyGrow(g, order, oracle, i, k - 1);
      EveryWaveIsSound(g, order, oracle, k - 1);
      NextWaveSound(g, order, oracle, After(g, order, oracle, k - 1));
    }
  }

  /** What wave `k` adds to the completed nodes. */
  lemma WaveCompletes(g: Dag, order: seq<string>, oracle: Oracle, k: nat)
    ensures After(g, order, oracle, k + 1).completed ==
              After(g, order, oracle, k).completed + ToSet(RunsIn(g, order, oracle, k))
    ensures After(g, order, oracle, k).completed !! ToSet(RunsIn(g, order, oracle, k))
  {
    EveryWaveIsSound(g, order, oracle, k);
    NextWaveSound(g, order, oracle, After(g, order, oracle, k));
  }

  lemma RanBefore(g: Dag, order: seq<string>, oracle: Oracle, i: nat, k: nat, id: string)
    requires i < k
    requires id in RunsIn(g, order, oracle, i)
    ensures id in After(g, order, oracle, k).completed
  {
    WaveCompletes(g, order, oracle, i);
    RunsOnlyGrow(g, order, oracle, i + 1, k);
  }

  /** No node runs twice. */
  lemma RunsAtMostOnce(g: Dag, order: seq<string>, oracle: Oracle, i: nat, k: nat, id: string)
    requires id in RunsIn(g, order, oracle, i) && id in RunsIn(g, order, oracle, k)
    ensures i == k
  {
    if i < k {
      RanBefore(g, order, oracle, i, k, id);
    } else if k < i {
      RanBefore(g, order, oracle, k, i, id);
    }
  }

  lemma {:induction false} CompletedRanInSomeWave(g: Dag, order: seq<string>, oracle: Oracle, k: nat, id: string)
    returns (i: nat)
    requires id in After(g, order, oracle, k).completed
    ensures i < k && id in RunsIn(g, order, oracle, i)
  {
    WaveCompletes(g, order, oracle, k - 1);
    if id in RunsIn(g, order, oracle, k - 1) {
      i := k - 1;
    } else {
      i := CompletedRanInSomeWave(g, order, oracle, k - 1, id);
    }
  }

  lemma CompletedFits(g: Dag, order: seq<string>, oracle: Oracle, k: nat)
    requires Valid(g) && ToSet(order) <= Ids(g)
    ensures |After(g, order, oracle, k).completed| <= |g.nodes|
  {
    hide After, RanSoundly, SkippedSoundly, Fires, PredsDecided;
    EveryWaveIsSound(g, order, oracle, k);
    IdCount(g);
    SubsetCardinality(After(g, order, oracle, k).completed, Ids(g));
  }

  /** Every executing wave completes a node, so a run has at most one wave per node. */
  lemma {:induction false} WavesAreBounded(g: Dag, order: seq<string>, oracle: Oracle, k: nat)
    requires Valid(g) && ToSet(order) <= Ids(g)
    requires forall i :: 0 <= i < k ==> RunsIn(g, order, oracle, i) != []
    ensures k <= |After(g, order, oracle, k).completed| <= |g.nodes|
  {
    hide NextWave, Ready;
    CompletedFits(g, order, oracle, k);
    if k > 0 {
      WavesAreBounded(g, order, oracle, k - 1);
      WaveCompletes(g, order, oracle, k - 1);
      var before, v := After(g, order, oracle, k - 1).completed, RunsIn(g, order, oracle, k - 1)[0];
      assert v in ToSet(RunsIn(g, order, oracle, k - 1));
      SubsetCardinality(before + {v}, After(g, order, oracle, k).completed);
    }
  }

  /** How a run that has ended decided a node, whatever the trigger rules. */
  lemma EveryNodeIsAccountedFor(g: Dag, order: seq<string>, oracle: Oracle, k: nat, id: string)
    requires RunsIn(g, order, oracle, k) == [] && id in order
    ensures var st := After(g, order, oracle, k);
            && (id in st.completed ==> id !in st.skipped && RanSoundly(g, oracle, st, id))
            && (id in st.skipped ==> SkippedSoundly(g, st, id))
            && (id !in st.completed && id !in st.skipped ==>
                  !Triggered(g, st.results, id) && FinalResult(st, id) == SkippedResult(id))
    ensures var st := After(g, order, oracle, k);
            RuleOf(g.nodes, id) == OneSuccess && id in st.completed && InList(g.edges, id) != [] ==>
              PredsDecided(g, st, id)
  {
    var st := After(g, order, oracle, k);
    EveryWaveIsSound(g, order, oracle, k);
    assert id !in Ready(g, order, st);
    if RuleOf(g.nodes, id) == OneSuccess && id in st.completed && InList(g.edges, id) != [] {
      assert RanSoundly(g, oracle, st, id);
      CompletedFired(g, order, oracle, st, id);
    }
  }

  // ------------------------------------------------------------ all-success graphs

  ghost predicate AllNodesAllSuccess(g: Dag) {
    forall n :: n in g.nodes ==> n.rule == AllSuccess
  }

  lemma {:induction false} AllSuccessRules(nodes: seq<Node>, id: string)
    requires forall n :: n in nodes ==> n.rule == AllSuccess
    ensures RuleOf(nodes, id) == AllSuccess
  {
    if nodes != [] {
      AllSuccessRules(nodes[1..], id);
    }
  }

  /** The recursive semantics: run when every predecessor succeeds, be skipped otherwise. */
  ghost function Meaning(g: Dag, order: seq<string>, oracle: Oracle, i: nat): NodeStatus
    requires i < |order|
  {
    if forall j :: 0 <= j < i && HasEdge(g, order[j], order[i]) ==> Meaning(g, order, oracle, j) == Success
    then ResultOf(oracle, order[i]).status
    else Skipped
  }

  lemma {:induction false} NothingIsMarked(g: Dag, order: seq<string>, oracle: Oracle, k: nat)
    requires AllNodesAllSuccess(g) && KnownEndpoints(g) && IsTopological(g, order)
    ensures After(g, order, oracle, k).skipped == {}
  {
    var st := After(g, order, oracle, k);
    EveryWaveIsSound(g, order, oracle, k);
    hide After, IsTopological, KnownEndpoints, Partitioned, RanSoundly, PredsDecided, Fires, RuleOf;
    forall s
      ensures RuleOf(g.nodes, s) == AllSuccess
    {
      AllSuccessRules(g.nodes, s);
    }
    forall id
      ensures id !in st.skipped
    {
      assert forall u, s :: !Rival(g, st, id, u, s);
      assert id in st.skipped ==> SkippedSoundly(g, st, id);
    }
  }

  /** When no node is ready any more the statuses are those of the recursive semantics. */
  lemma {:induction false} WavesComputeMeaning(g: Dag, order: seq<string>, oracle: Oracle, k: nat, i: nat)
    requires AllNodesAllSuccess(g) && KnownEndpoints(g) && IsTopological(g, order)
    requires RunsIn(g, order, oracle, k) == [] && i < |order|
    ensures FinalResult(After(g, order, oracle, k), order[i]).status == Meaning(g, order, oracle, i)
    ensures order[i] in After(g, order, oracle, k).completed ==>
              FinalResult(After(g, order, oracle, k), order[i]) == ResultOf(oracle, order[i])
    decreases i
  {
    var st := After(g, order, oracle, k);
    EveryWaveIsSound(g, order, oracle, k);
    NothingIsMarked(g, order, oracle, k);
    AllSuccessRules(g.nodes, order[i]);
    forall j | 0 <= j < i && HasEdge(g, order[j], order[i])
      ensures FinalResult(st, order[j]).status == Meaning(g, order, oracle, j)
      ensures order[j] in InList(g.edges, order[i])
    {
      WavesComputeMeaning(g, order, oracle, k, j);
    }
    if order[i] in st.completed {
      assert RanSoundly(g, oracle, st, order[i]);
    } else {
      assert order[i] !in Ready(g, order, st);
      var p :| p in InList(g.edges, order[i]) && !Succeeded(st.results, p);
      assert HasEdge(g, p, order[i]);
      assert p in order[..i];
      var j :| 0 <= j < i && order[j] == p;
    }
  }

  /** On an all-success graph a node is ready when its predecessors have completed successfully. */
  lemma ReadyMeansPredsSucceeded(g: Dag, order: seq<string>, oracle: Oracle, k: nat, v: string)
    requires AllNodesAllSuccess(g) && KnownEndpoints(g) && IsTopological(g, order)
    requires v in order && v !in After(g, order, oracle, k).completed
    ensures v in RunsIn(g, order, oracle, k) <==> PredsSucceeded(g, After(g, order, oracle, k), v)
  {
    var st := After(g, order, oracle, k);
    EveryWaveIsSound(g, order, oracle, k);
    NothingIsMarked(g, order, oracle, k);
    AllSuccessRules(g.nodes, v);
    assert forall p :: p in InList(g.edges, v) <==> HasEdge(g, p, v);
    assert Partitioned(st);
  }

  ghost predicate PredsSucceeded(g: Dag, st: Wave, v: string) {
    forall p :: HasEdge(g, p, v) ==> p in st.completed && Succeeded(st.results, p)
  }

  ghost predicate PathTo(g: Dag, p: seq<string>, v: string) {
    IsPath(g, p) && p[|p|-1] == v
  }

  /** A node runs no earlier than the longest path to it allows ... */
  lemma {:induction false} WaveBoundsPaths(g: Dag, order: seq<string>, oracle: Oracle, k: nat, v: string,
                                           p: seq<string>)
    requires AllNodesAllSuccess(g) && KnownEndpoints(g) && IsTopological(g, order)
    requires v in RunsIn(g, order, oracle, k) && PathTo(g, p, v)
    ensures |p| <= k + 1
    decreases k
  {
    hide NextWave, Ready, IsTopological, KnownEndpoints;
    if |p| > 1 {
      var u, q := p[|p|-2], p[..|p|-1];
      assert Linked(g, p, |p| - 2);
      WaveCompletes(g, order, oracle, k);
      ReadyMeansPredsSucceeded(g, order, oracle, k, v);
      var j := CompletedRanInSomeWave(g, order, oracle, k, u);
      assert PathTo(g, q, u) by {
        assert forall i :: 0 <= i < |q| - 1 ==> Linked(g, p, i) ==> Linked(g, q, i);
      }
      WaveBoundsPaths(g, order, oracle, j, u, q);
    }
  }

  /** A node that became ready only in wave `k > 0` has a predecessor that ran one wave earlier. */
  lemma LatestPredecessor(g: Dag, order: seq<string>, oracle: Oracle, k: nat, v: string) returns (u: string)
    requires AllNodesAllSuccess(g) && KnownEndpoints(g) && IsTopological(g, order)
    requires k > 0 && v in RunsIn(g, order, oracle, k)
    ensures HasEdge(g, u, v) && u in RunsIn(g, order, oracle, k - 1)
  {
    hide NextWave, Ready, IsTopological, KnownEndpoints;
    WaveCompletes(g, order, oracle, k);
    WaveCompletes(g, order, oracle, k - 1);
    RunsOnlyGrow(g, order, oracle, k - 1, k);
    EveryWaveIsSound(g, order, oracle, k - 1);
    ReadyMeansPredsSucceeded(g, order, oracle, k - 1, v);
    ReadyMeansPredsSucceeded(g, order, oracle, k, v);
    u :| HasEdge(g, u, v) &&
      !(u in After(g, order, oracle, k - 1).completed && Succeeded(After(g, order, oracle, k - 1).results, u));
  }

  /** ... and no later: a path with one edge per earlier wave leads to it. */
  lemma {:induction false} WaveHasPath(g: Dag, order: seq<string>, oracle: Oracle, k: nat, v: string)
    returns (p: seq<string>)
    requires AllNodesAllSuccess(g) && KnownEndpoints(g) && IsTopological(g, order)
    requires v in RunsIn(g, order, oracle, k)
    ensures PathTo(g, p, v) && |p| == k + 1
  {
    hide NextWave, Ready, IsTopological, KnownEndpoints;
    if k == 0 {
      p := [v];
    } else {
      var u := LatestPredecessor(g, order, oracle, k, v);
      var q := WaveHasPath(g, order, oracle, k - 1, u);
      p := q + [v];
      forall i | 0 <= i < |p| - 1
        ensures Linked(g, p, i)
      {
        if i < |q| - 1 {
          assert Linked(g, q, i);
        }
      }
    }
  }

  /** All paths of the graph have at most `n` nodes. */
  ghost predicate PathsAreWithin(g: Dag, n: nat) {
    forall p :: IsPath(g, p) ==> |p| <= n
  }

  /** So there are no more executing waves than nodes on the longest path. */
  lemma WavesAreWithinLongestPath(g: Dag, order: seq<string>, oracle: Oracle, k: nat, n: nat)
    requires AllNodesAllSuccess(g) && KnownEndpoints(g) && IsTopological(g, order)
    requires forall i :: 0 <= i < k ==> RunsIn(g, order, oracle, i) != []
    requires PathsAreWithin(g, n)
    ensures k <= n
  {
    hide RunsIn, IsTopological, KnownEndpoints, AllNodesAllSuccess, IsPath;
    if k > 0 {
      assert RunsIn(g, order, oracle, k - 1) != [];
      var p := WaveHasPath(g, order, oracle, k - 1, RunsIn(g, order, oracle, k - 1)[0]);
    }
  }
}
