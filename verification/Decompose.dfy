/** Decomposing a handoff into pieces with an inter-piece dependency graph. */
module Decompose {
  import opened Collections
  import opened Components
  import opened Packing
  import opened Projects
  import opened Sorting
  import opened Steps

  datatype Piece = Piece(steps: seq<Step>, estimatedSecs: Option<nat>, dependsOn: seq<nat>)

  datatype Decomposition = Decomposition(pieces: seq<Piece>, graph: seq<(nat, nat)>)

  datatype DecomposeError = NoSteps

  // ------------------------------------------------------------ what goes into a piece

  /** The indivisible chunks of one project: components, or single steps. */
  ghost predicate AreChunks(steps: seq<Step>, config: Config, chunks: seq<seq<Step>>) {
    if config.respectDependencies then IsComponentListing(steps, chunks)
    else chunks == seq(|steps|, i requires 0 <= i < |steps| => [steps[i]])
  }

  /** `packed` is the packing of one project's chunks. */
  ghost predicate IsPacking(steps: seq<Step>, config: Config, packed: seq<seq<Step>>) {
    exists chunks :: AreChunks(steps, config, chunks) && packed == Pieces(Runs(chunks, config))
  }

  /** The steps of all pieces: the packings of the project groups, one after the other. */
  ghost predicate IsLayout(steps: seq<Step>, config: Config, layout: seq<seq<Step>>) {
    exists packs :: ArePacks(steps, config, packs) && layout == Concat(packs)
  }

  ghost predicate ArePacks(steps: seq<Step>, config: Config, packs: seq<seq<seq<Step>>>) {
    var groups := ProjectGroups(steps, config.respectProjectBoundaries);
    |packs| == |groups| && forall k :: 0 <= k < |packs| ==> IsPacking(groups[k].1, config, packs[k])
  }

  lemma PackingIsUnique(steps: seq<Step>, config: Config, a: seq<seq<Step>>, b: seq<seq<Step>>)
    requires IsPacking(steps, config, a) && IsPacking(steps, config, b)
    ensures a == b
  {
    var x :| AreChunks(steps, config, x) && a == Pieces(Runs(x, config));
    var y :| AreChunks(steps, config, y) && b == Pieces(Runs(y, config));
    if config.respectDependencies {
      ListingIsUnique(steps, x, y);
    }
  }

  /** Steps and configuration determine the pieces. */
  lemma LayoutIsUnique(steps: seq<Step>, config: Config, a: seq<seq<Step>>, b: seq<seq<Step>>)
    requires IsLayout(steps, config, a) && IsLayout(steps, config, b)
    ensures a == b
  {
    var x :| ArePacks(steps, config, x) && a == Concat(x);
    var y :| ArePacks(steps, config, y) && b == Concat(y);
    var groups := ProjectGroups(steps, config.respectProjectBoundaries);
    forall k | 0 <= k < |x|
      ensures x[k] == y[k]
    {
      PackingIsUnique(groups[k].1, config, x[k], y[k]);
    }
    assert x == y;
  }

  // ------------------------------------------------------------------- conservation

  lemma {:induction false} ConcatOfPieces(runs: seq<seq<Chunk>>)
    ensures Concat(Pieces(runs)) == Concat(Concat(runs))
  {
    if runs != [] {
      ConcatOfPieces(runs[1..]);
      assert Pieces(runs)[1..] == Pieces(runs[1..]);
      ConcatConcat(runs[0], Concat(runs[1..]));
    }
  }

  lemma {:induction false} ConcatSingles(steps: seq<Step>)
    ensures Concat(seq(|steps|, i requires 0 <= i < |steps| => [steps[i]])) == steps
  {
    if steps != [] {
      var singles := seq(|steps|, i requires 0 <= i < |steps| => [steps[i]]);
      ConcatSingles(steps[1..]);
      assert singles[1..] == seq(|steps[1..]|, i requires 0 <= i < |steps[1..]| => [steps[1..][i]]);
    }
  }

  lemma DistinctMultisets<T>(a: seq<T>, b: seq<T>)
    requires Distinct(a) && Distinct(b) && forall x :: x in a <==> x in b
    ensures multiset(a) == multiset(b)
  {
    forall x
      ensures multiset(a)[x] == multiset(b)[x]
    {
      DistinctCount(a, x);
      DistinctCount(b, x);
    }
  }

  lemma DistinctAppend<T>(a: seq<T>, b: seq<T>)
    requires Distinct(a) && Distinct(b) && forall x :: x in a ==> x !in b
    ensures Distinct(a + b)
  {
    forall i, j | 0 <= i < j < |a + b|
      ensures (a + b)[i] != (a + b)[j]
    {
      if i < |a| <= j {
        assert a[i] in a && b[j-|a|] in b;
      }
    }
  }

  lemma {:induction false} ConcatDistinct<T>(s: seq<seq<T>>)
    requires forall i :: 0 <= i < |s| ==> Distinct(s[i])
    requires forall i, j, x :: 0 <= i < j < |s| && x in s[i] ==> x !in s[j]
    ensures Distinct(Concat(s))
  {
    if s != [] {
      var tail := s[1..];
      assert forall i :: 0 <= i < |tail| ==> tail[i] == s[i+1];
      ConcatDistinct(tail);
      forall x | x in s[0]
        ensures x !in Concat(tail)
      {
        InConcat(tail, x);
      }
      DistinctAppend(s[0], Concat(tail));
    }
  }

  lemma ListingConserves(steps: seq<Step>, groups: seq<seq<Step>>)
    requires DistinctNumbers(steps) && IsComponentListing(steps, groups)
    ensures multiset(Concat(groups)) == multiset(steps)
  {
    forall i | 0 <= i < |groups|
      ensures Distinct(groups[i])
    {
      assert groups[i] in groups;
    }
    forall i, j, x | 0 <= i < j < |groups| && x in groups[i]
      ensures x !in groups[j]
    {
      assert groups[i] in groups && groups[j] in groups;
      assert FirstNumber()(groups[i]) < FirstNumber()(groups[j]);
      ConnectedReflexive(steps, x.number);
    }
    ConcatDistinct(groups);
    forall x
      ensures x in Concat(groups) <==> x in steps
    {
      InConcat(groups, x);
      if x in steps {
        var g :| g in groups && x in g;
        var i :| 0 <= i < |groups| && groups[i] == g;
      }
    }
    DistinctMultisets(Concat(groups), steps);
  }

  lemma ChunksConserve(steps: seq<Step>, config: Config, chunks: seq<seq<Step>>)
    requires DistinctNumbers(steps) && AreChunks(steps, config, chunks)
    ensures multiset(Concat(chunks)) == multiset(steps)
    ensures forall c :: c in chunks ==> c != []
  {
    if config.respectDependencies {
      ListingConserves(steps, chunks);
    } else {
      ConcatSingles(steps);
    }
  }

  lemma PackingConserves(steps: seq<Step>, config: Config, packed: seq<seq<Step>>)
    requires DistinctNumbers(steps) && IsPacking(steps, config, packed)
    ensures multiset(Concat(packed)) == multiset(steps)
  {
    var chunks :| AreChunks(steps, config, chunks) && packed == Pieces(Runs(chunks, config));
    ChunksConserve(steps, config, chunks);
    PackIsSplit(CostBy(HasEffort(chunks)), LimitBy(HasEffort(chunks), config), chunks);
    ConcatOfPieces(Runs(chunks, config));
  }

  lemma {:induction false} PacksConserve(groups: seq<Group>, config: Config, packs: seq<seq<seq<Step>>>)
    requires |packs| == |groups|
    requires forall k :: 0 <= k < |packs| ==> IsPacking(groups[k].1, config, packs[k]) && DistinctNumbers(groups[k].1)
    ensures multiset(Concat(Concat(packs))) == multiset(AllSteps(groups))
  {
    if packs != [] {
      PackingConserves(groups[0].1, config, packs[0]);
      PacksConserve(groups[1..], config, packs[1..]);
      ConcatConcat(packs[0], Concat(packs[1..]));
    }
  }

  lemma {:induction false} FilterDistinctNumbers(keep: Step -> bool, steps: seq<Step>)
    requires DistinctNumbers(steps)
    ensures DistinctNumbers(Filter(keep, steps))
  {
    FilterKeepsDistinctNumbers(keep, steps);
    var r := Filter(keep, steps);
    forall i, j | 0 <= i < j < |r|
      ensures r[i].number != r[j].number
    {
      assert NumberOf()(r[i]) != NumberOf()(r[j]);
    }
  }

  lemma GroupsAreDistinct(steps: seq<Step>, respectBoundaries: bool, k: nat)
    requires DistinctNumbers(steps) && k < |ProjectGroups(steps, respectBoundaries)|
    ensures DistinctNumbers(ProjectGroups(steps, respectBoundaries)[k].1)
  {
    var groups := ProjectGroups(steps, respectBoundaries);
    GroupsAreFilters(steps, respectBoundaries);
    FiledAt(groups, k);
    FilterDistinctNumbers((s: Step) => Key(respectBoundaries, s) == groups[k].0, steps);
  }

  /** No step is lost or duplicated: the pieces together hold exactly the steps of the handoff. */
  lemma LayoutConserves(steps: seq<Step>, config: Config, layout: seq<seq<Step>>)
    requires DistinctNumbers(steps) && IsLayout(steps, config, layout)
    ensures multiset(Concat(layout)) == multiset(steps)
  {
    var packs :| ArePacks(steps, config, packs) && layout == Concat(packs);
    var groups := ProjectGroups(steps, config.respectProjectBoundaries);
    forall k | 0 <= k < |packs|
      ensures DistinctNumbers(groups[k].1)
    {
      GroupsAreDistinct(steps, config.respectProjectBoundaries, k);
    }
    PacksConserve(groups, config, packs);
    GroupsAreFilters(steps, config.respectProjectBoundaries);
  }

  /** Distinct step numbers stay distinct under any rearrangement of the steps. */
  lemma RearrangedDistinctNumbers(a: seq<Step>, b: seq<Step>)
    requires multiset(a) == multiset(b) && DistinctNumbers(b)
    ensures DistinctNumbers(a)
  {
    forall i, j | 0 <= i < j < |a|
      ensures a[i].number != a[j].number
    {
      if a[i].number == a[j].number {
        assert a[i] in multiset(b) && a[j] in multiset(b);
        assert a[i] == a[j];
        TwiceCounts(a, i, j);
        DistinctCount(b, a[i]);
        assert false;
      }
    }
  }

  lemma {:induction false} PositionsInConcat<T>(s: seq<seq<T>>, i: nat, p: nat) returns (q: nat)
    requires i < |s| && p < |s[i]|
    ensures |Concat(s[..i])| <= q < |Concat(s[..i])| + |s[i]| <= |Concat(s)| && Concat(s)[q] == s[i][p]
  {
    assert s == s[..i] + s[i..];
    ConcatConcat(s[..i], s[i..]);
    q := |Concat(s[..i])| + p;
  }

  /** Every step number belongs to exactly one piece. */
  lemma NumbersStayApart(steps: seq<Step>, config: Config, layout: seq<seq<Step>>, i: nat, j: nat, a: Step, b: Step)
    requires DistinctNumbers(steps) && IsLayout(steps, config, layout)
    requires i < |layout| && j < |layout| && a in layout[i] && b in layout[j] && a.number == b.number
    ensures i == j && a == b
  {
    hide IsLayout;
    LayoutConserves(steps, config, layout);
    RearrangedDistinctNumbers(Concat(layout), steps);
    var p :| 0 <= p < |layout[i]| && layout[i][p] == a;
    var q :| 0 <= q < |layout[j]| && layout[j][q] == b;
    var x := PositionsInConcat(layout, i, p);
    var y := PositionsInConcat(layout, j, q);
    assert x == y;
    if i < j {
      PrefixGrows(layout, i, j);
    } else if j < i {
      PrefixGrows(layout, j, i);
    }
  }

  lemma PrefixGrows<T>(s: seq<seq<T>>, i: nat, j: nat)
    requires i < j <= |s|
    ensures |Concat(s[..i])| + |s[i]| <= |Concat(s[..j])|
  {
    assert s[..j] == s[..i] + ([s[i]] + s[i+1..j]);
    ConcatConcat(s[..i], [s[i]] + s[i+1..j]);
    ConcatConcat([s[i]], s[i+1..j]);
    assert [s[i]][1..] == [];
  }

  /** The pieces hold steps of the handoff only, and every step of it. */
  lemma PlacedExactly(steps: seq<Step>, config: Config, layout: seq<seq<Step>>, s: Step)
    requires DistinctNumbers(steps) && IsLayout(steps, config, layout)
    ensures s in steps <==> exists i :: 0 <= i < |layout| && s in layout[i]
  {
    hide IsLayout;
    LayoutConserves(steps, config, layout);
    InConcat(layout, s);
    assert s in multiset(steps) <==> s in multiset(Concat(layout));
  }

  // ------------------------------------------------ what stays together, what crosses

  /** Some chunk of the project holds all of a run's piece. */
  lemma {:induction false} PieceFromPacks(packs: seq<seq<seq<Step>>>, i: nat) returns (k: nat, l: nat)
    requires i < |Concat(packs)|
    ensures k < |packs| && l < |packs[k]| && Concat(packs)[i] == packs[k][l]
  {
    if i < |packs[0]| {
      k, l := 0, i;
    } else {
      k, l := PieceFromPacks(packs[1..], i - |packs[0]|);
      k := k + 1;
    }
  }

  /** A step's chunk is kept whole: its piece holds every step of the chunk. */
  lemma ChunkStaysWhole(chunks: seq<seq<Step>>, config: Config, l: nat, a: Step) returns (c: seq<Step>)
    requires l < |Runs(chunks, config)| && a in Pieces(Runs(chunks, config))[l]
    ensures c in chunks && a in c && forall b :: b in c ==> b in Pieces(Runs(chunks, config))[l]
  {
    var runs := Runs(chunks, config);
    PackIsSplit(CostBy(HasEffort(chunks)), LimitBy(HasEffort(chunks), config), chunks);
    InConcat(runs[l], a);
    var i :| 0 <= i < |runs[l]| && a in runs[l][i];
    c := runs[l][i];
    InConcat(runs, c);
    forall b | b in c
      ensures b in Pieces(runs)[l]
    {
      InConcat(runs[l], b);
    }
  }

  lemma DependencySharesChunk(group: seq<Step>, chunks: seq<seq<Step>>, c: seq<Step>, a: Step, b: Step)
    requires IsComponentListing(group, chunks) && c in chunks && a in c
    requires a in group && b in group && StepRef(b.number) in a.dependsOn
    ensures b in c
  {
    hide Connected, StrictlySorted;
    var d :| d in chunks && b in d;
    assert DependsOn(group, a.number, b.number) by {
      var i :| 0 <= i < |group| && group[i] == b;
      assert b.number in Numbers(group);
    }
    DependencyConnects(group, a.number, b.number);
    assert c == d;
  }

  /** With dependencies respected, a step and its dependency in the same project share a piece. */
  lemma DependencySharesPiece(group: seq<Step>, config: Config, packed: seq<seq<Step>>, l: nat, a: Step, b: Step)
    requires config.respectDependencies && IsPacking(group, config, packed)
    ensures l < |packed| && a in packed[l] && a in group && b in group && StepRef(b.number) in a.dependsOn ==>
              b in packed[l]
  {
    if l < |packed| && a in packed[l] && a in group && b in group && StepRef(b.number) in a.dependsOn {
      var chunks :| AreChunks(group, config, chunks) && packed == Pieces(Runs(chunks, config));
      hide Connected, Pieces, Runs, StrictlySorted;
      var c := ChunkStaysWhole(chunks, config, l, a);
      DependencySharesChunk(group, chunks, c, a, b);
    }
  }

  /** The project group a piece was cut from. */
  lemma PieceHome(steps: seq<Step>, config: Config, layout: seq<seq<Step>>, i: nat)
    returns (key: string, group: seq<Step>, packed: seq<seq<Step>>, l: nat)
    requires DistinctNumbers(steps) && IsLayout(steps, config, layout) && i < |layout|
    ensures forall s :: s in group <==> s in steps && Key(config.respectProjectBoundaries, s) == key
    ensures IsPacking(group, config, packed) && l < |packed| && packed[l] == layout[i]
    ensures forall s :: s in layout[i] ==> s in group
  {
    var packs :| ArePacks(steps, config, packs) && layout == Concat(packs);
    var groups := ProjectGroups(steps, config.respectProjectBoundaries);
    var k;
    k, l := PieceFromPacks(packs, i);
    key, group, packed := groups[k].0, groups[k].1, packs[k];
    forall s
      ensures s in group <==> s in steps && Key(config.respectProjectBoundaries, s) == key
    {
      GroupHolds(steps, config.respectProjectBoundaries, k, s);
    }
    GroupsAreDistinct(steps, config.respectProjectBoundaries, k);
    PackingConserves(group, config, packed);
    forall s | s in layout[i]
      ensures s in group
    {
      InConcat(packed, s);
      assert s in multiset(group);
    }
  }

  /** A piece never mixes projects. */
  lemma PiecesStayInOneProject(steps: seq<Step>, config: Config, layout: seq<seq<Step>>, i: nat, a: Step, b: Step)
    requires DistinctNumbers(steps) && IsLayout(steps, config, layout)
    requires i < |layout| && a in layout[i] && b in layout[i]
    ensures Key(config.respectProjectBoundaries, a) == Key(config.respectProjectBoundaries, b)
    ensures config.respectProjectBoundaries ==> SameProject(a, b)
  {
    KeysSeparateProjects(a, b);
    hide IsLayout, IsPacking;
    var key, group, packed, l := PieceHome(steps, config, layout, i);
  }

  /** Piece `i` needs piece `j`: one of its steps names a step of the other. */
  ghost predicate Needs(layout: seq<seq<Step>>, i: nat, j: nat) {
    && i < |layout| && j < |layout| && i != j
    && exists a, b :: a in layout[i] && b in layout[j] && StepRef(b.number) in a.dependsOn
  }

  /** With dependencies respected, pieces depend on each other only across projects. */
  lemma EdgesCrossProjects(steps: seq<Step>, config: Config, layout: seq<seq<Step>>, i: nat, j: nat, a: Step, b: Step)
    requires DistinctNumbers(steps) && IsLayout(steps, config, layout) && config.respectDependencies
    ensures Needs(layout, i, j) && a in layout[i] && b in layout[j] ==>
              Key(config.respectProjectBoundaries, a) != Key(config.respectProjectBoundaries, b)
    ensures Needs(layout, i, j) && a in layout[i] && b in layout[j] ==>
              config.respectProjectBoundaries && !SameProject(a, b)
  {
    KeysSeparateProjects(a, b);
    KeysSeparateProjects(b, a);
    hide IsLayout, IsPacking;
    if Needs(layout, i, j) && a in layout[i] && b in layout[j] {
      var x, y :| x in layout[i] && y in layout[j] && StepRef(y.number) in x.dependsOn;
      var key, group, packed, l := PieceHome(steps, config, layout, i);
      PlacedExactly(steps, config, layout, y);
      if Key(config.respectProjectBoundaries, y) == key {
        DependencySharesPiece(group, config, packed, l, x, y);
        NumbersStayApart(steps, config, layout, i, j, y, y);
        assert false;
      }
      PiecesStayInOneProject(steps, config, layout, j, b, y);
    }
  }

  /** With boundaries off and dependencies respected no piece depends on another. */
  lemma NoEdgesWithoutBoundaries(steps: seq<Step>, config: Config, layout: seq<seq<Step>>, i: nat, j: nat)
    requires DistinctNumbers(steps) && IsLayout(steps, config, layout)
    requires config.respectDependencies && !config.respectProjectBoundaries
    ensures !Needs(layout, i, j)
  {
    if Needs(layout, i, j) {
      var x, y :| x in layout[i] && y in layout[j] && StepRef(y.number) in x.dependsOn;
      EdgesCrossProjects(steps, config, layout, i, j, x, y);
    }
  }

  // ---------------------------------------------------------------------- the methods

  method ChunksOf(steps: seq<Step>, config: Config) returns (chunks: seq<seq<Step>>)
    requires DistinctNumbers(steps)
    ensures AreChunks(steps, config, chunks)
  {
    if config.respectDependencies {
      chunks := MergeDependencyGroups(steps);
    } else {
      chunks := seq(|steps|, i requires 0 <= i < |steps| => [steps[i]]);
    }
  }

  method PackGroup(steps: seq<Step>, config: Config) returns (packed: seq<seq<Step>>)
    requires DistinctNumbers(steps)
    ensures IsPacking(steps, config, packed)
  {
    hide AreChunks;
    var chunks := ChunksOf(steps, config);
    ChunksConserve(steps, config, chunks);
    packed := PackChunks(chunks, config);
  }

  ghost predicate HasParsedEffort(steps: seq<Step>) {
    exists s :: s in steps && s.effort.Some? && s.effort.value.Secs?
  }

  /** The estimate of a piece: the sum of the efforts that parse, absent when none does. */
  method TotalEffortSecs(steps: seq<Step>) returns (r: Option<nat>)
    ensures r == if HasParsedEffort(steps) then Some(EffortSecs(steps)) else None
  {
    var total, anyParsed := 0, false;
    for k := 0 to |steps|
      invariant total == EffortSecs(steps[..k])
      invariant anyParsed <==> HasParsedEffort(steps[..k])
    {
      assert steps[..k+1][..k] == steps[..k];
      assert steps[..k+1] == steps[..k] + [steps[k]];
      match steps[k].effort {
        case Some(Secs(n)) => total, anyParsed := total + n, true;
        case _ =>
      }
    }
    assert steps[..|steps|] == steps;
    r := if anyParsed then Some(total) else None;
  }

  ghost function LayoutOf(pieces: seq<Piece>): (r: seq<seq<Step>>)
    ensures |r| == |pieces|
  {
    seq(|pieces|, i requires 0 <= i < |pieces| => pieces[i].steps)
  }

  /** Every number is filed under the last piece that holds it. */
  ghost predicate Indexes(stepToPiece: map<nat, nat>, layout: seq<seq<Step>>) {
    && (forall i, s :: 0 <= i < |layout| && s in layout[i] ==> s.number in stepToPiece)
    && (forall n :: n in stepToPiece ==> stepToPiece[n] < |layout| && HasNumber(layout[stepToPiece[n]], n))
  }

  ghost predicate HasNumber(steps: seq<Step>, n: nat) {
    exists s :: s in steps && s.number == n
  }

  method IndexPiece(stepToPiece: map<nat, nat>, ghost layout: seq<seq<Step>>, pieceIdx: nat, sub: seq<Step>)
    returns (r: map<nat, nat>)
    requires Indexes(stepToPiece, layout) && pieceIdx == |layout|
    ensures Indexes(r, layout + [sub])
  {
    r := stepToPiece;
    for k := 0 to |sub|
      invariant forall i, s :: 0 <= i < |layout| && s in layout[i] ==> s.number in r
      invariant forall s :: s in sub[..k] ==> s.number in r
      invariant forall n :: n in r ==> r[n] < |layout| + 1 && HasNumber((layout + [sub])[r[n]], n)
    {
      assert sub[k] in sub && HasNumber(sub, sub[k].number);
      hide HasNumber;
      r := r[sub[k].number := pieceIdx];
    }
    assert sub[..|sub|] == sub;
  }

  /** The pieces some step of `steps` needs, piece `pieceIdx` itself excepted. */
  ghost predicate IsRow(stepToPiece: map<nat, nat>, known: set<nat>, pieceIdx: nat, steps: seq<Step>, row: set<nat>) {
    forall j :: j in row <==> j != pieceIdx && Reaches(stepToPiece, known, steps, j)
  }

  ghost predicate Reaches(stepToPiece: map<nat, nat>, known: set<nat>, steps: seq<Step>, j: nat) {
    exists s, n :: s in steps && StepRef(n) in s.dependsOn && n in known && n in stepToPiece && stepToPiece[n] == j
  }

  /** The dependency loop over the steps of one piece; a dependency outside the handoff is ignored. */
  method DepPieces(stepToPiece: map<nat, nat>, known: set<nat>, pieceIdx: nat, steps: seq<Step>) returns (row: set<nat>)
    ensures IsRow(stepToPiece, known, pieceIdx, steps, row)
  {
    row := {};
    for k := 0 to |steps|
      invariant IsRow(stepToPiece, known, pieceIdx, steps[..k], row)
    {
      ghost var before := row;
      var deps := steps[k].dependsOn;
      for i := 0 to |deps|
        invariant forall j :: j in row <==> j in before || (j != pieceIdx && Named(stepToPiece, known, deps[..i], j))
      {
        assert deps[..i+1] == deps[..i] + [deps[i]];
        match deps[i] {
          case StepRef(n) =>
            if n in known && n in stepToPiece && stepToPiece[n] != pieceIdx {
              row := row + {stepToPiece[n]};
            }
          case Unrecognised =>
        }
      }
      assert deps[..|deps|] == deps;
    }
    assert steps[..|steps|] == steps;
  }

  ghost predicate Named(stepToPiece: map<nat, nat>, known: set<nat>, deps: seq<Dependency>, j: nat) {
    exists n :: StepRef(n) in deps && n in known && n in stepToPiece && stepToPiece[n] == j
  }

  /** Following the number index is following the needs between pieces. */
  lemma RowsAreNeeds(steps: seq<Step>, config: Config, layout: seq<seq<Step>>, stepToPiece: map<nat, nat>, i: nat,
                     row: set<nat>)
    requires DistinctNumbers(steps) && IsLayout(steps, config, layout) && Indexes(stepToPiece, layout) && i < |layout|
    requires IsRow(stepToPiece, Numbers(steps), i, layout[i], row)
    ensures forall j :: j in row <==> Needs(layout, i, j)
  {
    hide IsLayout;
    forall j: nat
      ensures j in row <==> Needs(layout, i, j)
    {
      if j in row {
        var s, n :| s in layout[i] && StepRef(n) in s.dependsOn && n in stepToPiece && stepToPiece[n] == j;
        assert HasNumber(layout[j], n);
        var t :| t in layout[j] && t.number == n;
        assert Needs(layout, i, j);
      }
      if Needs(layout, i, j) {
        var a, b :| a in layout[i] && b in layout[j] && StepRef(b.number) in a.dependsOn;
        PlacedExactly(steps, config, layout, b);
        assert b.number in Numbers(steps) by {
          var k :| 0 <= k < |steps| && steps[k] == b;
        }
        var m := stepToPiece[b.number];
        assert HasNumber(layout[m], b.number);
        var c :| c in layout[m] && c.number == b.number;
        NumbersStayApart(steps, config, layout, m, j, c, b);
        assert Reaches(stepToPiece, Numbers(steps), layout[i], j);
      }
    }
  }

  function Identity(): nat -> int {
    (n: nat) => n
  }

  /** The members of a set in ascending order. */
  method SortedMembers(s: set<nat>) returns (r: seq<nat>)
    ensures StrictlySorted(Identity(), r) && forall n :: n in r <==> n in s
  {
    var list: seq<nat>, rest := [], s;
    while rest != {}
      invariant rest <= s && Distinct(list)
      invariant forall n :: n in list <==> n in s && n !in rest
    {
      var n :| n in rest;
      DistinctAppend(list, [n]);
      list, rest := list + [n], rest - {n};
    }
    r := SortBy(Identity(), list);
    SortByStrict(Identity(), list);
    SameMembers(r, list);
  }

  function Edges(i: nat, row: seq<nat>): (r: seq<(nat, nat)>)
    ensures |r| == |row|
  {
    seq(|row|, k requires 0 <= k < |row| => (i, row[k]))
  }

  /** The graph lists the rows of the pieces in order. */
  function GraphOf(pieces: seq<Piece>): seq<(nat, nat)> {
    if pieces == [] then []
    else GraphOf(pieces[..|pieces|-1]) + Edges(|pieces| - 1, pieces[|pieces|-1].dependsOn)
  }

  lemma {:induction false} GraphHasRows(pieces: seq<Piece>, i: nat, j: nat)
    ensures (i, j) in GraphOf(pieces) <==> i < |pieces| && j in pieces[i].dependsOn
  {
    if pieces != [] {
      var n := |pieces| - 1;
      var last := Edges(n, pieces[n].dependsOn);
      GraphHasRows(pieces[..n], i, j);
      if i == n && j in pieces[n].dependsOn {
        var k :| 0 <= k < |last| && pieces[n].dependsOn[k] == j;
        assert last[k] == (i, j);
      }
    }
  }

  /** What a decomposition is: conserved steps, and a graph that is exactly the needs between pieces. */
  ghost predicate IsDecomposition(steps: seq<Step>, config: Config, d: Decomposition) {
    var layout := LayoutOf(d.pieces);
    && IsLayout(steps, config, layout)
    && (forall i :: 0 <= i < |d.pieces| ==>
          && StrictlySorted(Identity(), d.pieces[i].dependsOn)
          && (forall j :: j in d.pieces[i].dependsOn <==> Needs(layout, i, j)))
    && d.graph == GraphOf(d.pieces)
    && forall i :: 0 <= i < |d.pieces| ==>
         d.pieces[i].estimatedSecs ==
         if HasParsedEffort(d.pieces[i].steps) then Some(EffortSecs(d.pieces[i].steps)) else None
  }

  /** Decompose a handoff. */
  method Decompose(steps: seq<Step>, config: Config) returns (r: Result<Decomposition, DecomposeError>)
    requires DistinctNumbers(steps)
    ensures steps == [] <==> r.Err?
    ensures r.Ok? ==> IsDecomposition(steps, config, r.value)
  {
    if steps == [] {
      return Err(NoSteps);
    }
    var pieces, stepToPiece := BuildPieces(steps, config);
    var d := LinkPieces(steps, config, pieces, stepToPiece);
    r := Ok(d);
  }

  ghost predicate EstimatesAre(pieces: seq<Piece>) {
    forall i :: 0 <= i < |pieces| ==>
      pieces[i].estimatedSecs == if HasParsedEffort(pieces[i].steps) then Some(EffortSecs(pieces[i].steps)) else None
  }

  /** Pieces of one project, appended in packing order. */
  method AddPieces(pieces: seq<Piece>, stepToPiece: map<nat, nat>, packed: seq<seq<Step>>)
    returns (r: seq<Piece>, index: map<nat, nat>)
    requires Indexes(stepToPiece, LayoutOf(pieces)) && EstimatesAre(pieces)
    ensures LayoutOf(r) == LayoutOf(pieces) + packed
    ensures Indexes(index, LayoutOf(r)) && EstimatesAre(r)
  {
    r, index := pieces, stepToPiece;
    for k := 0 to |packed|
      invariant LayoutOf(r) == LayoutOf(pieces) + packed[..k]
      invariant Indexes(index, LayoutOf(r)) && EstimatesAre(r)
    {
      hide Indexes;
      index := IndexPiece(index, LayoutOf(r), |r|, packed[k]);
      var effort := TotalEffortSecs(packed[k]);
      var piece := Piece(packed[k], effort, []);
      assert LayoutOf(r + [piece]) == LayoutOf(r) + [packed[k]];
      TakeMore(packed, k);
      r := r + [piece];
    }
    assert packed[..|packed|] == packed;
  }

  /** The first half: group, merge, pack, and index the steps. */
  method BuildPieces(steps: seq<Step>, config: Config) returns (pieces: seq<Piece>, stepToPiece: map<nat, nat>)
    requires DistinctNumbers(steps) && steps != []
    ensures IsLayout(steps, config, LayoutOf(pieces))
    ensures Indexes(stepToPiece, LayoutOf(pieces)) && EstimatesAre(pieces)
  {
    hide IsPacking, Indexes, EstimatesAre;
    var groups := GroupByProject(steps, config.respectProjectBoundaries);
    pieces, stepToPiece := [], map[];
    ghost var packs: seq<seq<seq<Step>>> := [];
    assert Indexes(map[], LayoutOf([])) && EstimatesAre([]) by {
      NothingIndexed();
    }
    for k := 0 to |groups|
      invariant |packs| == k && forall i :: 0 <= i < k ==> IsPacking(groups[i].1, config, packs[i])
      invariant LayoutOf(pieces) == Concat(packs)
      invariant Indexes(stepToPiece, LayoutOf(pieces)) && EstimatesAre(pieces)
    {
      GroupsAreDistinct(steps, config.respectProjectBoundaries, k);
      var packed := PackGroup(groups[k].1, config);
      pieces, stepToPiece := AddPieces(pieces, stepToPiece, packed);
      ConcatSnoc(packs, packed);
      packs := packs + [packed];
    }
    assert ArePacks(steps, config, packs);
  }

  lemma NothingIndexed()
    ensures Indexes(map[], LayoutOf([])) && EstimatesAre([])
  {
  }

  /** The second half: fill in the dependencies of every piece and list them as a graph. */
  method LinkPieces(steps: seq<Step>, config: Config, pieces: seq<Piece>, stepToPiece: map<nat, nat>)
    returns (d: Decomposition)
    requires DistinctNumbers(steps) && IsLayout(steps, config, LayoutOf(pieces))
    requires Indexes(stepToPiece, LayoutOf(pieces)) && EstimatesAre(pieces)
    ensures IsDecomposition(steps, config, d) && LayoutOf(d.pieces) == LayoutOf(pieces)
  {
    hide IsLayout, Indexes, IsRow, IsLinked, EstimatesAre;
    var allStepNumbers := Numbers(steps);
    var linked: seq<Piece>, depGraph: seq<(nat, nat)> := [], [];
    ghost var layout := LayoutOf(pieces);
    for i := 0 to |pieces|
      invariant |linked| == i && forall k :: 0 <= k < i ==> IsLinked(layout, pieces[k], linked[k], k)
      invariant depGraph == GraphOf(linked)
    {
      var row := DepPieces(stepToPiece, allStepNumbers, i, pieces[i].steps);
      RowsAreNeeds(steps, config, layout, stepToPiece, i, row);
      var sortedDeps := SortedMembers(row);
      var piece := pieces[i].(dependsOn := sortedDeps);
      assert IsLinked(layout, pieces[i], piece, i) by {
        Linked(layout, pieces[i], i, sortedDeps);
      }
      assert (linked + [piece])[..i] == linked;
      depGraph := depGraph + Edges(i, sortedDeps);
      linked := linked + [piece];
    }
    LinkedDecomposition(steps, config, pieces, linked);
    d := Decomposition(linked, depGraph);
  }

  /** `p` is `before` with its dependencies filled in. */
  ghost predicate IsLinked(layout: seq<seq<Step>>, before: Piece, p: Piece, k: nat) {
    && p.steps == before.steps && p.estimatedSecs == before.estimatedSecs
    && StrictlySorted(Identity(), p.dependsOn)
    && forall j :: j in p.dependsOn <==> Needs(layout, k, j)
  }

  lemma Linked(layout: seq<seq<Step>>, before: Piece, k: nat, row: seq<nat>)
    requires StrictlySorted(Identity(), row) && forall j :: j in row <==> Needs(layout, k, j)
    ensures IsLinked(layout, before, before.(dependsOn := row), k)
  {
  }

  lemma LinkedDecomposition(steps: seq<Step>, config: Config, pieces: seq<Piece>, linked: seq<Piece>)
    requires IsLayout(steps, config, LayoutOf(pieces)) && EstimatesAre(pieces) && |linked| == |pieces|
    requires forall k :: 0 <= k < |linked| ==> IsLinked(LayoutOf(pieces), pieces[k], linked[k], k)
    ensures LayoutOf(linked) == LayoutOf(pieces)
    ensures IsDecomposition(steps, config, Decomposition(linked, GraphOf(linked)))
  {
    assert LayoutOf(linked) == LayoutOf(pieces);
  }

  /** The dependency graph has an edge exactly where a step of one piece names a step of another. */
  lemma GraphIsNeeds(steps: seq<Step>, config: Config, d: Decomposition, i: nat, j: nat)
    requires IsDecomposition(steps, config, d)
    ensures (i, j) in d.graph <==> Needs(LayoutOf(d.pieces), i, j)
  {
    hide IsLayout, StrictlySorted;
    GraphHasRows(d.pieces, i, j);
  }

  /**
   * Without dependencies every step is a chunk of its own: the pieces of a project cut its steps in
   * order, and only a piece of one step may exceed the limit.
   */
  lemma StepsAreCutInOrder(group: seq<Step>, config: Config, packed: seq<seq<Step>>, i: nat)
    requires !config.respectDependencies && IsPacking(group, config, packed) && i < |packed|
    ensures Concat(packed) == group && packed[i] != []
    ensures |packed[i]| == 1 ||
            if exists s :: s in group && s.effort.Some?
            then EffortSecs(packed[i]) <= config.maxEffortPerPieceSecs
            else |packed[i]| <= config.maxStepsPerPiece
  {
    var chunks :| AreChunks(group, config, chunks) && packed == Pieces(Runs(chunks, config));
    var run := Runs(chunks, config)[i];
    ConcatOfPieces(Runs(chunks, config));
    ConcatSingles(group);
    RunsFit(chunks, config, i);
    EffortOfSingles(group, chunks);
    SinglesInRun(Runs(chunks, config), chunks, i);
  }

  lemma EffortOfSingles(group: seq<Step>, chunks: seq<Chunk>)
    requires chunks == seq(|group|, i requires 0 <= i < |group| => [group[i]])
    ensures (exists c, s :: c in chunks && s in c && s.effort.Some?) <==> exists s :: s in group && s.effort.Some?
  {
    if s :| s in group && s.effort.Some? {
      var i :| 0 <= i < |group| && group[i] == s;
      assert chunks[i] == [s] && s in chunks[i];
    }
  }

  /** A run of one-step chunks holds as many steps as chunks. */
  lemma SinglesInRun(runs: seq<seq<Chunk>>, chunks: seq<Chunk>, i: nat)
    requires Concat(runs) == chunks && i < |runs| && forall c :: c in chunks ==> |c| == 1
    ensures |Concat(runs[i])| == |runs[i]|
  {
    forall c | c in runs[i]
      ensures |c| == 1
    {
      InConcat(runs, c);
    }
    SinglesCount(runs[i]);
  }

  lemma {:induction false} SinglesCount(run: seq<Chunk>)
    requires forall c :: c in run ==> |c| == 1
    ensures |Concat(run)| == |run|
  {
    if run != [] {
      var front, last := run[..|run|-1], run[|run|-1];
      SinglesCount(front);
      assert run == front + [last] && last in run;
      ConcatSnoc(front, last);
    }
  }

  ghost predicate EdgesAscend(graph: seq<(nat, nat)>) {
    forall a, b :: 0 <= a < b < |graph| ==>
      graph[a].0 < graph[b].0 || (graph[a].0 == graph[b].0 && graph[a].1 < graph[b].1)
  }

  /** The graph lists its edges by piece, then by needed piece, each once. */
  lemma {:induction false} GraphAscends(pieces: seq<Piece>)
    requires forall i :: 0 <= i < |pieces| ==> StrictlySorted(Identity(), pieces[i].dependsOn)
    ensures EdgesAscend(GraphOf(pieces))
    ensures forall e :: e in GraphOf(pieces) ==> e.0 < |pieces|
  {
    if pieces != [] {
      var front, n := pieces[..|pieces|-1], |pieces| - 1;
      GraphAscends(front);
      var before, row := GraphOf(front), pieces[n].dependsOn;
      forall a, b | 0 <= a < b < |row|
        ensures row[a] < row[b]
      {
        assert Identity()(row[a]) < Identity()(row[b]);
      }
      assert forall a :: 0 <= a < |before| ==> before[a] in before;
    }
  }
}
