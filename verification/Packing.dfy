/** Greedy packing of indivisible chunks into pieces, and its optimality. */
module Packing {
  import opened Steps

  type Chunk = seq<Step>

  datatype Config = Config(maxEffortPerPieceSecs: nat, maxStepsPerPiece: nat,
                           respectDependencies: bool, respectProjectBoundaries: bool)

  function Concat<T>(runs: seq<seq<T>>): seq<T> {
    if runs == [] then [] else runs[0] + Concat(runs[1..])
  }

  lemma {:induction false} ConcatSnoc<T>(runs: seq<seq<T>>, run: seq<T>)
    ensures Concat(runs + [run]) == Concat(runs) + run
  {
    if runs == [] {
      assert runs + [run] == [run];
    } else {
      ConcatSnoc(runs[1..], run);
      assert (runs + [run])[1..] == runs[1..] + [run];
    }
  }

  lemma {:induction false} ConcatConcat<T>(a: seq<seq<T>>, b: seq<seq<T>>)
    ensures Concat(a + b) == Concat(a) + Concat(b)
  {
    if a == [] {
      assert a + b == b;
    } else {
      ConcatConcat(a[1..], b);
      assert (a + b)[1..] == a[1..] + b;
      assert a[0] + (Concat(a[1..]) + Concat(b)) == Concat(a) + Concat(b);
    }
  }

  lemma {:induction false} InConcat<T>(runs: seq<seq<T>>, x: T)
    ensures x in Concat(runs) <==> exists i :: 0 <= i < |runs| && x in runs[i]
  {
    if runs != [] {
      InConcat(runs[1..], x);
      if x in Concat(runs[1..]) {
        var i :| 0 <= i < |runs[1..]| && x in runs[1..][i];
        assert x in runs[i+1];
      }
      assert forall i :: 1 <= i < |runs| ==> runs[i] == runs[1..][i-1];
    }
  }

  // ------------------------------------------------------------------- the greedy rule

  function RunCost(cost: Chunk -> nat, run: seq<Chunk>): nat {
    if run == [] then 0 else RunCost(cost, run[..|run|-1]) + cost(run[|run|-1])
  }

  lemma {:induction false} RunCostAdds(cost: Chunk -> nat, a: seq<Chunk>, b: seq<Chunk>)
    ensures RunCost(cost, a + b) == RunCost(cost, a) + RunCost(cost, b)
  {
    if b == [] {
      assert a + b == a;
    } else {
      RunCostAdds(cost, a, b[..|b|-1]);
      assert (a + b)[..|a + b|-1] == a + b[..|b|-1];
    }
  }

  /** Close the current run when the next chunk would push it over the limit. */
  function Pack(cost: Chunk -> nat, limit: nat, current: seq<Chunk>, rest: seq<Chunk>): seq<seq<Chunk>>
    decreases |rest|
  {
    if rest == [] then if current == [] then [] else [current]
    else if current != [] && RunCost(cost, current) + cost(rest[0]) > limit
    then [current] + Pack(cost, limit, [rest[0]], rest[1..])
    else Pack(cost, limit, current + [rest[0]], rest[1..])
  }

  /** A run a piece may hold: within the limit, or a single chunk. */
  ghost predicate Admissible(cost: Chunk -> nat, limit: nat, run: seq<Chunk>) {
    run != [] && (|run| == 1 || RunCost(cost, run) <= limit)
  }

  /** A way to cut the chunk list into admissible runs. */
  ghost predicate IsSplit(cost: Chunk -> nat, limit: nat, chunks: seq<Chunk>, runs: seq<seq<Chunk>>) {
    Concat(runs) == chunks && forall i :: 0 <= i < |runs| ==> Admissible(cost, limit, runs[i])
  }

  lemma LongerCostsMore(cost: Chunk -> nat, current: seq<Chunk>, rest: seq<Chunk>, e: nat)
    requires 0 < e <= |rest|
    ensures RunCost(cost, current + rest[..e]) >= RunCost(cost, current) + cost(rest[0])
  {
    assert rest[..e] == [rest[0]] + rest[1..e];
    RunCostAdds(cost, current, rest[..e]);
    RunCostAdds(cost, [rest[0]], rest[1..e]);
    assert [rest[0]][..0] == [];
  }

  /** The next chunk does not fit, or there is none: the run is closed here. */
  lemma RunCloses(cost: Chunk -> nat, limit: nat, current: seq<Chunk>, rest: seq<Chunk>)
    requires current != [] && (rest == [] || RunCost(cost, current) + cost(rest[0]) > limit)
    ensures Pack(cost, limit, current, rest) == [current] + Pack(cost, limit, [], rest)
    ensures forall e :: 0 < e <= |rest| ==> RunCost(cost, current + rest[..e]) > limit
  {
    assert rest != [] ==> [] + [rest[0]] == [rest[0]];
    forall e | 0 < e <= |rest|
      ensures RunCost(cost, current + rest[..e]) > limit
    {
      LongerCostsMore(cost, current, rest, e);
    }
  }

  lemma Regroup<T>(a: seq<T>, b: seq<T>, n: nat)
    requires 1 <= n <= |b|
    ensures (a + [b[0]]) + b[1..][..n-1] == a + b[..n] && b[1..][n-1..] == b[n..]
  {
  }

  /** The greedy first run: admissible, and no longer prefix is within the limit. */
  lemma {:induction false} FirstRun(cost: Chunk -> nat, limit: nat, current: seq<Chunk>, rest: seq<Chunk>)
    returns (g: nat)
    requires Admissible(cost, limit, current)
    ensures g <= |rest|
    ensures Pack(cost, limit, current, rest) == [current + rest[..g]] + Pack(cost, limit, [], rest[g..])
    ensures Admissible(cost, limit, current + rest[..g])
    ensures forall e :: g < e <= |rest| ==> RunCost(cost, current + rest[..e]) > limit
    decreases |rest|
  {
    if rest == [] || RunCost(cost, current) + cost(rest[0]) > limit {
      g := 0;
      hide Pack, RunCost;
      RunCloses(cost, limit, current, rest);
      assert current + rest[..0] == current && rest[0..] == rest;
    } else {
      var longer := current + [rest[0]];
      assert RunCost(cost, longer) == RunCost(cost, current) + cost(rest[0]) by {
        assert longer[..|longer|-1] == current;
      }
      assert Pack(cost, limit, current, rest) == Pack(cost, limit, longer, rest[1..]);
      hide RunCost, Pack, Admissible;
      var h := FirstRun(cost, limit, longer, rest[1..]);
      g := h + 1;
      Regroup(current, rest, g);
      forall e | g < e <= |rest|
        ensures RunCost(cost, current + rest[..e]) > limit
      {
        Regroup(current, rest, e);
      }
    }
  }

  /** The first run of a whole packing. */
  lemma FirstPiece(cost: Chunk -> nat, limit: nat, chunks: seq<Chunk>) returns (n: nat)
    requires chunks != []
    ensures 1 <= n <= |chunks|
    ensures Pack(cost, limit, [], chunks) == [chunks[..n]] + Pack(cost, limit, [], chunks[n..])
    ensures Admissible(cost, limit, chunks[..n])
    ensures forall e :: n < e <= |chunks| ==> RunCost(cost, chunks[..e]) > limit
  {
    assert Admissible(cost, limit, [chunks[0]]);
    assert Pack(cost, limit, [], chunks) == Pack(cost, limit, [chunks[0]], chunks[1..]) by {
      assert [] + [chunks[0]] == [chunks[0]];
    }
    hide Pack, RunCost, Admissible;
    var g := FirstRun(cost, limit, [chunks[0]], chunks[1..]);
    n := g + 1;
    assert [chunks[0]] + chunks[1..][..g] == chunks[..n];
    assert chunks[1..][g..] == chunks[n..];
    forall e | n < e <= |chunks|
      ensures RunCost(cost, chunks[..e]) > limit
    {
      assert chunks[..e] == [chunks[0]] + chunks[1..][..e-1];
    }
  }

  /** Packing cuts the list into admissible runs. */
  lemma {:induction false} PackIsSplit(cost: Chunk -> nat, limit: nat, chunks: seq<Chunk>)
    ensures IsSplit(cost, limit, chunks, Pack(cost, limit, [], chunks))
    decreases |chunks|
  {
    if chunks != [] {
      var n := FirstPiece(cost, limit, chunks);
      PackIsSplit(cost, limit, chunks[n..]);
      var tail := Pack(cost, limit, [], chunks[n..]);
      assert ([chunks[..n]] + tail)[1..] == tail;
      assert chunks == chunks[..n] + chunks[n..];
    }
  }

  lemma SplitTail(cost: Chunk -> nat, limit: nat, chunks: seq<Chunk>, runs: seq<seq<Chunk>>)
    requires IsSplit(cost, limit, chunks, runs) && chunks != []
    ensures runs != [] && IsSplit(cost, limit, Concat(runs[1..]), runs[1..])
    ensures chunks == runs[0] + Concat(runs[1..]) && Admissible(cost, limit, runs[0])
  {
    assert runs == [runs[0]] + runs[1..];
    hide RunCost;
    ConcatConcat([runs[0]], runs[1..]);
    assert [runs[0]][..0] == [] && [] + runs[0] == runs[0];
    assert Concat([runs[0]]) == runs[0];
  }

  /** A greedy run that starts inside an admissible run reaches at least its end. */
  lemma GreedyReaches(cost: Chunk -> nat, limit: nat, run: seq<Chunk>, j: nat, tail: seq<Chunk>, n: nat)
    requires Admissible(cost, limit, run) && j < |run| && 1 <= n <= |(run + tail)[j..]|
    requires forall e :: n < e <= |(run + tail)[j..]| ==> RunCost(cost, (run + tail)[j..][..e]) > limit
    ensures n >= |run| - j
  {
    var rest := (run + tail)[j..];
    if n < |run| - j {
      assert run == run[..j] + rest[..|run|-j];
      RunCostAdds(cost, run[..j], rest[..|run|-j]);
    }
  }

  /** Greedy stays ahead: packing any suffix needs no more runs than any split of the whole. */
  lemma {:induction false} GreedyStaysAhead(cost: Chunk -> nat, limit: nat, chunks: seq<Chunk>, j: nat,
                                            runs: seq<seq<Chunk>>)
    requires IsSplit(cost, limit, chunks, runs) && j <= |chunks|
    ensures |Pack(cost, limit, [], chunks[j..])| <= |runs|
    decreases |runs|
  {
    if j < |chunks| {
      SplitTail(cost, limit, chunks, runs);
      hide IsSplit, Admissible, RunCost, Concat, Pack;
      var e, tail := |runs[0]|, Concat(runs[1..]);
      if j >= e {
        assert chunks[j..] == tail[j-e..];
        GreedyStaysAhead(cost, limit, tail, j - e, runs[1..]);
      } else {
        var n := FirstPiece(cost, limit, chunks[j..]);
        GreedyReaches(cost, limit, runs[0], j, tail, n);
        assert chunks[j..][n..] == tail[j+n-e..];
        GreedyStaysAhead(cost, limit, tail, j + n - e, runs[1..]);
      }
    } else {
      assert chunks[j..] == [];
    }
  }

  /** No admissible split of the chunk list has fewer runs than the greedy packing. */
  lemma PackingIsOptimal(cost: Chunk -> nat, limit: nat, chunks: seq<Chunk>, runs: seq<seq<Chunk>>)
    requires IsSplit(cost, limit, chunks, runs)
    ensures |Pack(cost, limit, [], chunks)| <= |runs|
  {
    GreedyStaysAhead(cost, limit, chunks, 0, runs);
    assert chunks[0..] == chunks;
  }

  // ------------------------------------------------------------------------ the loop

  /** Total of the efforts that parse. */
  function EffortSecs(steps: seq<Step>): nat {
    if steps == [] then 0
    else
      EffortSecs(steps[..|steps|-1]) +
      match steps[|steps|-1].effort
      case Some(Secs(n)) => n
      case _ => 0
  }

  /** Loop of the source: efforts that do not parse count nothing. */
  method ChunkEffortSecs(steps: seq<Step>) returns (total: nat)
    ensures total == EffortSecs(steps)
  {
    total := 0;
    for k := 0 to |steps|
      invariant total == EffortSecs(steps[..k])
    {
      assert steps[..k+1][..k] == steps[..k];
      match steps[k].effort {
        case Some(Secs(n)) => total := total + n;
        case _ =>
      }
    }
    assert steps[..|steps|] == steps;
  }

  function HasEffort(chunks: seq<Chunk>): bool {
    exists c, s :: c in chunks && s in c && s.effort.Some?
  }

  /** Seconds when any step carries an effort text, steps otherwise. */
  function CostBy(byEffort: bool): Chunk -> nat {
    (c: Chunk) => if byEffort then EffortSecs(c) else |c|
  }

  function LimitBy(byEffort: bool, config: Config): nat {
    if byEffort then config.maxEffortPerPieceSecs else config.maxStepsPerPiece
  }

  /** The runs chosen for a chunk list. */
  function Runs(chunks: seq<Chunk>, config: Config): seq<seq<Chunk>> {
    Pack(CostBy(HasEffort(chunks)), LimitBy(HasEffort(chunks), config), [], chunks)
  }

  /** The pieces: the steps of each run. */
  function Pieces(runs: seq<seq<Chunk>>): (r: seq<seq<Step>>)
    ensures |r| == |runs|
  {
    seq(|runs|, i requires 0 <= i < |runs| => Concat(runs[i]))
  }

  /** The packing loop, with the running cost of the current piece kept in a variable. */
  method PackBy(chunks: seq<Chunk>, byEffort: bool, limit: nat) returns (pieces: seq<seq<Step>>)
    requires forall c :: c in chunks ==> c != []
    ensures pieces == Pieces(Pack(CostBy(byEffort), limit, [], chunks))
  {
    pieces := [];
    var current: seq<Step> := [];
    var currentCost: nat := 0;
    ghost var cost, closed: seq<seq<Chunk>>, open: seq<Chunk> := CostBy(byEffort), [], [];
    assert chunks[0..] == chunks;
    for k := 0 to |chunks|
      invariant Pack(cost, limit, [], chunks) == closed + Pack(cost, limit, open, chunks[k..])
      invariant pieces == Pieces(closed) && current == Concat(open) && currentCost == RunCost(cost, open)
      invariant (current == [] <==> open == [])
    {
      var chunk := chunks[k];
      var chunkCost: nat;
      if byEffort {
        chunkCost := ChunkEffortSecs(chunk);
      } else {
        chunkCost := |chunk|;
      }
      assert chunk in chunks && chunks[k..][0] == chunk && chunks[k..][1..] == chunks[k+1..];
      if current != [] && currentCost + chunkCost > limit {
        pieces := pieces + [current];
        closed := closed + [open];
        current, currentCost, open := [], 0, [];
      }
      ConcatSnoc(open, chunk);
      assert (open + [chunk])[..|open|] == open;
      assert open == [] ==> open + [chunk] == [chunk];
      current := current + chunk;
      currentCost := currentCost + chunkCost;
      open := open + [chunk];
    }
    if current != [] {
      pieces := pieces + [current];
    }
  }

  /** Packing by effort when some step carries an effort, by step count otherwise. */
  method PackChunks(chunks: seq<Chunk>, config: Config) returns (pieces: seq<seq<Step>>)
    requires forall c :: c in chunks ==> c != []
    ensures pieces == Pieces(Runs(chunks, config))
  {
    if chunks == [] {
      return [];
    }
    var hasEffort := HasEffort(chunks);
    if hasEffort {
      pieces := PackBy(chunks, true, config.maxEffortPerPieceSecs);
    } else {
      pieces := PackBy(chunks, false, config.maxStepsPerPiece);
    }
  }

  // ------------------------------------------------------------- what the limits mean

  /** Efforts that parse add up, all others count nothing. */
  lemma EffortOfOne(s: Step)
    ensures EffortSecs([]) == 0
    ensures EffortSecs([s]) == if s.effort.Some? && s.effort.value.Secs? then s.effort.value.n else 0
  {
    assert [s][..0] == [];
  }

  lemma {:induction false} EffortsAddUp(a: seq<Step>, b: seq<Step>)
    ensures EffortSecs(a + b) == EffortSecs(a) + EffortSecs(b)
  {
    if b == [] {
      assert a + b == a;
    } else {
      assert (a + b)[..|a+b|-1] == a + b[..|b|-1];
      EffortsAddUp(a, b[..|b|-1]);
    }
  }

  /** A piece may hold these chunks: a single one, or no more than the limit of the mode allows. */
  ghost predicate Fits(chunks: seq<Chunk>, config: Config, run: seq<Chunk>) {
    || |run| == 1
    || if exists c, s :: c in chunks && s in c && s.effort.Some?
       then EffortSecs(Concat(run)) <= config.maxEffortPerPieceSecs
       else |Concat(run)| <= config.maxStepsPerPiece
  }

  lemma {:induction false} RunCostIs(byEffort: bool, run: seq<Chunk>)
    ensures RunCost(CostBy(byEffort), run) == if byEffort then EffortSecs(Concat(run)) else |Concat(run)|
  {
    if run != [] {
      var front, c := run[..|run|-1], run[|run|-1];
      RunCostIs(byEffort, front);
      assert run == front + [c];
      ConcatSnoc(front, c);
      EffortsAddUp(Concat(front), c);
    }
  }

  /** Admissible runs are those that fit. */
  lemma AdmissibleIsFits(chunks: seq<Chunk>, config: Config, run: seq<Chunk>)
    requires run != []
    ensures Admissible(CostBy(HasEffort(chunks)), LimitBy(HasEffort(chunks), config), run) <==>
              Fits(chunks, config, run)
  {
    RunCostIs(HasEffort(chunks), run);
  }

  /** The chosen runs cut the chunk list, and each of them fits. */
  lemma RunsFit(chunks: seq<Chunk>, config: Config, i: nat)
    requires i < |Runs(chunks, config)|
    ensures Concat(Runs(chunks, config)) == chunks
    ensures Runs(chunks, config)[i] != [] && Fits(chunks, config, Runs(chunks, config)[i])
  {
    PackIsSplit(CostBy(HasEffort(chunks)), LimitBy(HasEffort(chunks), config), chunks);
    AdmissibleIsFits(chunks, config, Runs(chunks, config)[i]);
  }

  /** No cut of the chunk list into runs that fit has fewer runs. */
  lemma RunsAreFewest(chunks: seq<Chunk>, config: Config, runs: seq<seq<Chunk>>)
    requires Concat(runs) == chunks
    requires forall i :: 0 <= i < |runs| ==> runs[i] != [] && Fits(chunks, config, runs[i])
    ensures |Runs(chunks, config)| <= |runs|
  {
    forall i | 0 <= i < |runs|
      ensures Admissible(CostBy(HasEffort(chunks)), LimitBy(HasEffort(chunks), config), runs[i])
    {
      AdmissibleIsFits(chunks, config, runs[i]);
    }
    PackingIsOptimal(CostBy(HasEffort(chunks)), LimitBy(HasEffort(chunks), config), chunks, runs);
  }

  lemma {:induction false} RunsCloseWhenFull(cost: Chunk -> nat, limit: nat, chunks: seq<Chunk>, i: nat)
    requires i + 1 < |Pack(cost, limit, [], chunks)|
    ensures var runs := Pack(cost, limit, [], chunks);
            runs[i+1] != [] && RunCost(cost, runs[i] + [runs[i+1][0]]) > limit
    decreases |chunks|
  {
    hide Pack, RunCost;
    assert chunks != [] by {
      EmptyPacks(cost, limit);
    }
    var n := FirstPiece(cost, limit, chunks);
    var rest := Pack(cost, limit, [], chunks[n..]);
    if i > 0 {
      RunsCloseWhenFull(cost, limit, chunks[n..], i - 1);
    } else {
      assert chunks[n..] != [] by {
        EmptyPacks(cost, limit);
      }
      var m := FirstPiece(cost, limit, chunks[n..]);
      assert rest[0] == chunks[n..][..m];
      assert chunks[..n] + [rest[0][0]] == chunks[..n+1];
    }
  }

  lemma EmptyPacks(cost: Chunk -> nat, limit: nat)
    ensures Pack(cost, limit, [], []) == []
  {
  }

  /** A piece is closed only when the next chunk would take it over the limit of the mode. */
  lemma PiecesCloseWhenFull(chunks: seq<Chunk>, config: Config, i: nat)
    requires i + 1 < |Runs(chunks, config)|
    ensures Runs(chunks, config)[i+1] != []
    ensures var more := Concat(Runs(chunks, config)[i] + [Runs(chunks, config)[i+1][0]]);
            if exists c, s :: c in chunks && s in c && s.effort.Some?
            then EffortSecs(more) > config.maxEffortPerPieceSecs else |more| > config.maxStepsPerPiece
  {
    RunsCloseWhenFull(CostBy(HasEffort(chunks)), LimitBy(HasEffort(chunks), config), chunks, i);
    RunCostIs(HasEffort(chunks), Runs(chunks, config)[i] + [Runs(chunks, config)[i+1][0]]);
  }
}
