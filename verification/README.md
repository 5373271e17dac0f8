# Hymenium: verified core

Hymenium orchestrates workflows: it decomposes handoffs into pieces, runs graphs of nodes, moves
workflows through gated phases, reconciles them with an outside coordinator, recovers stalled phases,
compresses agent contexts and sweeps away dead runtimes. This project models the algorithms behind
these in Dafny and proves what holds of them for every input, every run and every answer from outside.

`dafny verify dfyconfig.toml` checks everything.

## Layout

| part | modules |
|---|---|
| graph executor | `DagGraph`, `DagSort`, `DagRepeats`, `DagSortTheorems`, `DagWaves`, `DagWaveTheorems`, `DagExecutor` |
| decomposer | `Sorting`, `UnionFind`, `Steps`, `Components`, `Packing`, `Projects`, `Decompose` |
| context compression | `Context`, `ToolPairs`, `TokenBudget` |
| workflow machine | `Gate`, `Engine`, `EngineEffects`, `WorkflowObject`, `Reconcile`, `ReconcileTheorems`, `Finality`, `Retry`, `Outcome` |
| sweeper | `SweepSpec`, `SweepTheorems`, `Sweeper` |
| store reads | `StoreReads` |
| slugs | `Slug` |
| shared | `Collections`, `StringOrder` |

Each loop of the source is a method with a loop, each object with changing fields a class. A method is
proved equal to a specification function, and the theorems are about that function.

## What stands for the outside

- A task of the graph executor is an arbitrary oracle from node ids to outcomes; a task that cannot be
  joined is the outcome `Crashed`. Completions arrive in an arbitrary order, chosen by `:|`.
- The coordinator is an arbitrary partial function from task ids to task records, the check for
  artifacts an arbitrary function of the phase, a gate evaluator an arbitrary function of condition and phase.
- Whether the store takes a raised retry counter is a parameter of the signal.
- Clocks are parameters: a call reads the time once. Time is an integer.
- Hash maps and hash sets are iterated in an arbitrary order, again by `:|`.
- Tables are maps and sequences. A query for phases is an arbitrary function constrained only by what
  the SQL text asks for, so rows that tie may come in any order.
- The content of a message is its list of words, since only word counts and word prefixes matter;
  whether a message is about the focus topic is an arbitrary predicate.
- Slug inputs are lowercased already and "alphanumeric" is an arbitrary predicate that excludes the hyphen.

## Where the code and its promises part

- The loader does not reject repeated edges. The sort still terminates on them (`TopoSort`), but its
  cycle test, which compares lengths, can go wrong in both directions (`DuplicateEdgeHidesCycle`,
  `DuplicateEdgeRejectsAcyclic`). A repeated edge does harm exactly when it closes its target: when its
  source is the last of the target's predecessors in the order of the graph without repetitions
  (`VisitsOnceIffNoClosingRepeat`). An acyclic graph with such an edge is always rejected, and there the
  source subtracts a larger unsigned number from a smaller one, which the model reports as `Underflow`
  (`AcyclicIsAcceptedIff`); a cyclic one may be accepted by chance, and is never refused with the right
  count. So the sort is right exactly on the graphs without such an edge (`SortIsCorrect`). The wave
  theorems hold for every accepted order; only those about meaning and depth need it to be topological.
  A node listed twice in the order is spawned twice in its wave: `RunTasks` allows its tasks to end
  differently, the theorems over whole runs take them to end alike.
- Compression prunes to the budget and then adds stubs, so its output can exceed the budget
  (`StubsCanExceedBudget`). For messages that fit to begin with, `BudgetIsRespectedIff` says exactly
  when; for all messages, `LimitIsGuaranteedIff` says exactly which limit a budget guarantees.
- Forcing advancement does not only move the index: when evidence closes the exit gate and the next
  phase also lacks an artifact, the two modes stay at the same phase and differ in what they record as
  missing. `SameIndexDivergence` says exactly when for one call and `RunsDivergeAtOneIndexIff` for whole
  runs, with `GatedWorkflowParts` as a witness; apart from that record the prefix theorem holds.
- The exit gate of the final phase is never evaluated (`FinalExitGateIsNotEnforced`,
  `ExitGateIsEnforcedIff`, `AuditedWorkflowCompletes`).
- A completed workflow is final only at its last phase, a cancelled one hardly ever, and a
  user-terminated one can still become failed (`StatusIsFinalIff`, `CompletedIsFinalIff`,
  `CancelledIsFinalIff`, `TerminatedUntilFailed`). Cancelling writes behind the engine's back, so
  `StatusIsFinalIff` and `CancelledIsFinalIff` do not assume the engine's invariant, and
  `CancelledWorkflowCompletes` shows a cancelled workflow that comes back. Under the engine's own calls
  phases that are over stay as they are (`TerminalPhasesAreAbsorbing`).
- When the store refuses a raised retry counter, the handler reports an error but the counter stays
  raised, so it no longer equals the retries returned. `CounterIsExactIff` says exactly when, and
  `StallIsLost` shows one such signal.
- A heartbeat that does not parse counts as a year old, so such a runtime times out under any
  timeout below a year; the sweep theorems include such rows.

## Preconditions

- Step numbers are distinct. The parser does not enforce this, and with a repeated number the
  source's maps keep the last step only.
- The workflow and phase tables have their primary keys (`src/store.rs:119-153`).
- Within a workflow no two phases share a position. The schema does not say so; the writers number
  the phases of an instance. `AgreementIffDistinctOrders` shows that the batched read needs it.
- Counters stay below their ceilings only if the caller passes the effective ceiling of the current
  phase, as the two `effective_` methods compute it; the engine takes any number.
- Retry limits are 32-bit numbers, as in the policy type.

## Model

| member | source | states |
|---|---|---|
| `DagGraph.ValidateDag` | src/workflow/dag/loader.rs:42-73 | A graph is accepted if and only if its node ids are distinct and every edge joins known nodes; each error names an offending edge, source checked before target |
| `DagGraph.BuildAdjacency` | src/workflow/dag/executor.rs:54-87 | The three adjacency maps hold, for every node, the sources and targets of its edges in edge order |
| `DagGraph.ListsFollowEdges` | src/workflow/dag/executor.rs:54-87 | Each adjacency list goes in the order in which the edges are listed |
| `DagGraph.PredecessorClosedHasCycle` | src/workflow/dag/executor.rs:111-117 | If every node left over has a predecessor among the nodes left over, there is a cycle (walk back until a node repeats) |
| `DagSort.RelaxKeepsQueued` | src/workflow/dag/executor.rs:98-109 | Without repeated edges a node is enqueued once, at the moment its last incoming edge is dropped |
| `DagSort.SourcesFollowNodes` | src/workflow/dag/executor.rs:89-95 | The queue starts with the nodes without incoming edges, in node order |
| `DagSort.DropEdges` | src/workflow/dag/executor.rs:100-108 | The inner loop empties the edge lists as specified and keeps the sort invariant; when no new node is emptied, every push is paid for by the popped node (the termination measure) |
| `DagSort.PopNode` | src/workflow/dag/executor.rs:98-109 | One outer turn keeps the invariant and strictly decreases a lexicographic measure, on every accepted graph, repeated edges included |
| `DagSort.TopoSort` | src/workflow/dag/executor.rs:89-117 | Kahn's loop terminates on every accepted graph, repeated edges included, and answers by the length test on the order it drains to |
| `DagRepeats.TurnEnqueuesClosed` | src/workflow/dag/executor.rs:98-109 | One turn enqueues, in edge order and with repetitions, exactly the targets whose other predecessors have all been popped |
| `DagRepeats.StaysInStep` | src/workflow/dag/executor.rs:98-109 | As long as no turn enqueues a node twice, the sort of a graph and of the graph with every edge listed once have the same order and queue |
| `DagRepeats.VisitsOnceIffNoClosingRepeat` | src/workflow/dag/executor.rs:89-109 | No node is visited twice if and only if no repeated edge comes from the predecessor of its target that is popped last in the graph without repetitions |
| `DagRepeats.FirstVisitsKeepOrder` | src/workflow/dag/executor.rs:89-109 | On every accepted graph, closing repeats included, the first visits are in the order of the graph without repetitions |
| `DagSort.DrainedIsFinal` | src/workflow/dag/executor.rs:98-109 | The sort has one final state: further turns after the queue is empty change nothing |
| `DagSortTheorems.TopologicalIsAcyclic` | src/workflow/dag/executor.rs:111-117 | A permutation of the nodes in which every edge points forward exists only for graphs without cycles, self-loops included |
| `DagSortTheorems.UnvisitedIffCyclic` | src/workflow/dag/executor.rs:89-117 | On every accepted graph the nodes never popped are nonempty exactly when the graph has a cycle |
| `DagSortTheorems.SortIsCorrect` | src/workflow/dag/executor.rs:89-117 | The answer is right (a cyclic graph refused with the number of its unreached nodes, any other accepted with a topological order) if and only if the graph has no such closing repeat |
| `DagSortTheorems.UnreachedAreUnvisited` | src/workflow/dag/executor.rs:89-117 | The nodes the sort does not reach are those missing from the order of the graph without repetitions |
| `DagSortTheorems.UnclosedIsJudgedRightly` | src/workflow/dag/executor.rs:89-117 | Without a closing repeat the sort succeeds exactly on acyclic graphs, with a topological order, and otherwise counts the unreached nodes |
| `DagSortTheorems.AcyclicIsAcceptedIff` | src/workflow/dag/executor.rs:111-117 | An acyclic graph is accepted if and only if it has no closing repeat; with one, the count in the error message underflows |
| `DagSortTheorems.DistinctEdgesDoNotClose` | src/workflow/dag/executor.rs:89-117 | A graph without repeated edges has no closing repeat |
| `DagSortTheorems.DuplicateEdgeHidesCycle` | src/workflow/dag/executor.rs:100-117 | Counterexample: a repeated edge makes the length test accept a graph with a cycle |
| `DagSortTheorems.DuplicateEdgeRejectsAcyclic` | src/workflow/dag/executor.rs:100-117 | Counterexample: a repeated edge makes it reject an acyclic graph, and the count in the message underflows |
| `DagExecutor.KnownDecides` | src/workflow/dag/executor.rs:133-157 | Counting and scanning the results known so far decides both trigger rules as they are stated |
| `DagWaves.TriggerByRule` | src/workflow/dag/executor.rs:133-157 | A node is triggered without incoming edges, or if the sources of all its edges succeeded (all-success), or of one of them (one-success), by its own rule |
| `DagWaves.ReadyFollowsOrder` | src/workflow/dag/executor.rs:127-161 | The ready list is a subsequence of the topological order |
| `DagExecutor.FindReady` | src/workflow/dag/executor.rs:126-161 | The ready scan selects, in topological order, exactly the undecided nodes whose trigger holds |
| `DagExecutor.RunTasks` | src/workflow/dag/executor.rs:167-185 | One task runs per entry of the ready list, in any order of completion: an error is returned exactly when some task cannot be joined; every listed node is completed with the very status and output of one of its tasks, and no other result changes |
| `DagExecutor.SpawnedAsOracle` | src/workflow/dag/executor.rs:167-185 | When the tasks of a node all end alike, the order of completion does not show |
| `DagWaves.SkipPassSound` | src/workflow/dag/executor.rs:187-221 | The skip pass overwrites no result and skips only undecided rivals of a successful node before a one-success successor; afterwards each such successor is decided or has only decided predecessors |
| `DagWaves.SkipForSuccAdds` | src/workflow/dag/executor.rs:193-217 | One successor adds exactly its other undecided predecessors to the skips, with an empty skipped result, if it is one-success and undecided itself |
| `DagWaves.OrderOfSkipsMatters` | src/workflow/dag/executor.rs:189-221 | The pass goes in ready order: in one order a node is skipped that the other order spares |
| `DagExecutor.MarkSkipped` | src/workflow/dag/executor.rs:187-221 | The triple loop over ready nodes, successors and other predecessors is the specified pass |
| `DagWaveTheorems.NextWaveSound` | src/workflow/dag/executor.rs:119-222 | One wave keeps the invariant (completed and skipped disjoint, every result justified), overwrites nothing and completes exactly the ready nodes |
| `DagWaveTheorems.EveryWaveIsSound` | src/workflow/dag/executor.rs:119-222 | The invariant holds after any number of waves, for any mix of trigger rules and any task outcomes |
| `DagWaveTheorems.RunsOnlyGrow` | src/workflow/dag/executor.rs:119-222 | Decisions and results only accumulate over a run |
| `DagWaveTheorems.RunsAtMostOnce` | src/workflow/dag/executor.rs:126-185 | No node is run in two waves |
| `DagWaveTheorems.CompletedRanInSomeWave` | src/workflow/dag/executor.rs:176-179 | A completed node was run in an earlier wave |
| `DagWaveTheorems.WavesAreBounded` | src/workflow/dag/executor.rs:125-222 | There are at most as many executing waves as nodes |
| `DagWaveTheorems.EveryNodeIsAccountedFor` | src/workflow/dag/executor.rs:125-241 | When no node is ready: a completed node's trigger held, a skipped node lost to a successful predecessor of a shared one-success successor, any other node has no trigger and is reported skipped; a one-success node that ran has only decided predecessors |
| `DagWaveTheorems.WavesComputeMeaning` | src/workflow/dag/executor.rs:126-241 | On all-success graphs the final statuses are those of the recursive semantics: a task's outcome if every predecessor succeeded, skipped otherwise |
| `DagWaveTheorems.WaveBoundsPaths` | src/workflow/dag/executor.rs:126-161 | On all-success graphs a node runs in wave k only if no path to it has more than k edges |
| `DagWaveTheorems.WaveHasPath` | src/workflow/dag/executor.rs:126-161 | ... and a path with exactly k edges leads to it: the wave is the longest-path depth |
| `DagWaveTheorems.WavesAreWithinLongestPath` | src/workflow/dag/executor.rs:125-222 | On all-success graphs there are no more executing waves than nodes on the longest path |
| `DagExecutor.RunWaves` | src/workflow/dag/executor.rs:119-241 | The wave loop terminates and ends in the state that the order and the task outcomes determine, or at the first wave with a crashed task |
| `DagExecutor.Run` | src/workflow/dag/executor.rs:53-241 | Every graph the sort accepts runs at most one wave per node to the collected results or a crash. A cyclic graph is refused with the number of unreached nodes if and only if it has no closing repeat; an acyclic graph is accepted if it has none and refused with an underflow otherwise |
| `DagExecutor.MisjudgedGraphIsRun` | src/workflow/dag/executor.rs:111-241 | The cyclic graph that the length test accepts is run: one node is reported twice and the looping one not at all |
| `DagExecutor.ReturnedListFollowsOrder` | src/workflow/dag/executor.rs:224-240 | The returned list has as many entries as nodes and follows the order: the task's outcome if the node ran in some wave, skipped otherwise |
| `DagExecutor.ReturnedListReportsTasks` | src/workflow/dag/executor.rs:176-240 | The entry of a node that ran has the status and the output its task ended with; any other entry is skipped with no output |
| `DagExecutor.FailureSkipsSuccessors` | src/workflow/dag/executor.rs:146-161 | On all-success graphs every successor of a node that failed or was skipped is returned as skipped |
| `DagExecutor.ReturnedListIsMeaning` | src/workflow/dag/executor.rs:119-241 | On all-success graphs the returned statuses are those of the recursive semantics |
| `UnionFind.RootsAreUnique` | src/decompose/algorithm.rs:50-66 | The roots are determined by the parent map |
| `UnionFind.Find` | src/decompose/algorithm.rs:50-58 | Find terminates on every forest, returns the root, compresses the path and changes nobody's root |
| `UnionFind.Union` | src/decompose/algorithm.rs:60-66 | Union gives the elements of the first tree the root of the second and keeps every other root |
| `Components.BuildStepDeps` | src/decompose/algorithm.rs:34-45 | Every step number is mapped to the numbers its recognised dependency texts name |
| `Components.JoinAll` | src/decompose/algorithm.rs:75-87 | After all unions, in any iteration order, two steps share a root if and only if they are connected by dependencies inside the group |
| `Components.GroupByRoot` | src/decompose/algorithm.rs:90-94 | Every step is filed under its root, in step order, while find keeps compressing |
| `Components.MergeDependencyGroups` | src/decompose/algorithm.rs:49-103 | The result is the connected components of the in-group dependency relation, each sorted by number, listed by smallest number |
| `Components.ListingAscends` | src/decompose/algorithm.rs:96-102 | Inside a group step numbers ascend, and groups ascend by their smallest number |
| `Components.ListingIsUnique` | src/decompose/algorithm.rs:81-103 | There is only one such listing, so no hash map iteration order can show |
| `Projects.GroupsAreFilters` | src/decompose/algorithm.rs:10-24 | Project keys ascend, each group is the subsequence of the steps with its key, and no step is lost |
| `Projects.KeysSeparateProjects` | src/decompose/algorithm.rs:14-21 | With boundaries on two steps share a key if and only if they name the same project, no project counting as "default"; with boundaries off every key is "default" |
| `Projects.GroupsAreNamed` | src/decompose/algorithm.rs:18-23 | A group bears the name of its project and holds exactly the steps that name it, or name none if it is "default" |
| `StringOrder.BeforeIsFirstDifference` | src/decompose/algorithm.rs:18-23 | The key order: a proper prefix first, otherwise the smaller character at the first difference |
| `Projects.OneGroupWithoutBoundaries` | src/decompose/algorithm.rs:14-16 | With project boundaries off there is one group holding all steps in order |
| `Projects.GroupByProject` | src/decompose/algorithm.rs:10-24 | The grouping loop computes these groups; without steps there is no group, or one empty group with boundaries off |
| `Packing.PackIsSplit` | src/decompose/algorithm.rs:107-153 | Packing cuts the chunk list into consecutive nonempty runs; a run over the limit is a single chunk |
| `Packing.GreedyStaysAhead` | src/decompose/algorithm.rs:107-153 | Packing any suffix needs no more pieces than any admissible split of the whole list |
| `Packing.PackingIsOptimal` | src/decompose/algorithm.rs:107-153 | No admissible split into consecutive runs has fewer runs than the greedy packing, by effort and by count |
| `Packing.RunsFit` | src/decompose/algorithm.rs:116-146 | With some effort text every piece of several chunks stays within the effort limit, otherwise within the step limit |
| `Packing.RunsAreFewest` | src/decompose/algorithm.rs:116-146 | No cut of the chunks into runs that fit so has fewer runs |
| `Packing.PiecesCloseWhenFull` | src/decompose/algorithm.rs:126-146 | A piece is closed only when the next chunk would take it over that limit |
| `Packing.ChunkEffortSecs` | src/decompose/algorithm.rs:157-170 | A chunk's effort is the sum of the efforts that parse |
| `Packing.EffortOfOne` | src/decompose/algorithm.rs:157-170 | An effort that parses counts its seconds, any other nothing |
| `Packing.EffortsAddUp` | src/decompose/algorithm.rs:157-170 | Efforts add up over steps |
| `Packing.PackBy` | src/decompose/algorithm.rs:123-152 | The loop with its running cost and its mutable current piece computes the packing |
| `Packing.PackChunks` | src/decompose/algorithm.rs:107-153 | Effort mode is chosen when any step carries an effort text, count mode otherwise |
| `Decompose.TotalEffortSecs` | src/decompose/algorithm.rs:174-193 | A piece's estimate is the sum of its parsed efforts, absent when none parses |
| `Decompose.LayoutIsUnique` | src/decompose/mod.rs:147-186 | Steps and configuration determine the pieces |
| `Decompose.LayoutConserves` | src/decompose/mod.rs:147-186 | The pieces together hold exactly the steps of the handoff, none lost or duplicated |
| `Decompose.PlacedExactly` | src/decompose/mod.rs:147-186 | A step is in the handoff if and only if some piece holds it |
| `Decompose.NumbersStayApart` | src/decompose/mod.rs:144-167 | Every step number belongs to exactly one piece |
| `Decompose.PiecesStayInOneProject` | src/decompose/mod.rs:148-186 | With boundaries on the steps of a piece all name one project, no project counting as "default" |
| `Decompose.DependencySharesPiece` | src/decompose/mod.rs:153-160 | With dependencies respected, a step and its dependency in the same project are in the same piece |
| `Decompose.StepsAreCutInOrder` | src/decompose/mod.rs:155-160 | Without dependencies the pieces of a project cut its steps in order, and only a piece of one step exceeds the limit |
| `Decompose.EdgesCrossProjects` | src/decompose/mod.rs:188-217 | With dependencies respected boundaries are on wherever there is an edge, and it joins pieces of different projects |
| `Decompose.NoEdgesWithoutBoundaries` | src/decompose/mod.rs:188-217 | With dependencies respected and boundaries off the piece graph is empty |
| `Decompose.BuildPieces` | src/decompose/mod.rs:151-186 | Grouping, merging, packing and indexing produce the layout, and every number is filed under a piece that holds it |
| `Decompose.DepPieces` | src/decompose/mod.rs:192-210 | The dependency loop collects exactly the other pieces that the steps name; unknown numbers are ignored |
| `Decompose.RowsAreNeeds` | src/decompose/mod.rs:189-217 | Looking numbers up in the index gives piece j for piece i if and only if i differs from j and a step of i names a step of j |
| `Decompose.LinkPieces` | src/decompose/mod.rs:191-217 | Filling in the dependencies leaves the pieces' steps alone and completes the decomposition |
| `Decompose.Decompose` | src/decompose/mod.rs:132-225 | An empty handoff is an error; any other gives the layout, the estimates, sorted duplicate-free dependencies and the graph listing them |
| `Decompose.GraphIsNeeds` | src/decompose/mod.rs:211-216 | The graph has edge (i, j) if and only if i differs from j and some step of piece i names a step of piece j |
| `Decompose.GraphHasRows` | src/decompose/mod.rs:211-216 | The graph and the pieces' dependency lists say the same |
| `Decompose.GraphAscends` | src/decompose/mod.rs:211-216 | The graph lists its edges by piece, then by needed piece, each once |
| `Context.PriorityIsPermutation` | src/context.rs:389-410 | The candidate order visits every message exactly once |
| `Context.FocusedThenLatest` | src/context.rs:395-409 | Messages about the focus topic come first, and of two alike in that the later one |
| `Context.PruneFitsBudget` | src/context.rs:173-233 | The kept messages cost at most the budget, and kept plus removed messages number the input |
| `Context.DroppedDidNotFit` | src/context.rs:183-214 | A message is dropped if and only if at its turn it exceeded the budget and either something was already kept or the budget leaves no room for a word |
| `Context.SummaryStandsAlone` | src/context.rs:192-199 | A summarized message is the only one kept and fills the budget exactly |
| `Context.TopPrioritySurvives` | src/context.rs:183-214 | With a budget of 5 or more the first candidate survives |
| `Context.TopSurvives` | src/context.rs:183-214 | So the latest message about the focus topic, or the latest of all if none is, is kept whole, or alone and cut to the budget |
| `Context.ReportNamesMessages` | src/context.rs:192-214 | The report names the dropped messages in priority order with id and role, and the summarized one |
| `Context.FittingInputIsKept` | src/context.rs:173-233 | Messages that fit the budget together are all kept, unchanged and in order |
| `Context.PruneKeepsOrder` | src/context.rs:216-230 | Kept messages appear in input order, unchanged but for the summarized one |
| `Context.PruneToBudget` | src/context.rs:173-233 | The loops compute the kept messages and the report |
| `ToolPairs.RetainIsSubsequence` | src/context.rs:259-329 | What sanitizing retains of the originals is a subsequence, unchanged |
| `ToolPairs.RetainKeeps` | src/context.rs:259-329 | The retained list is paired, its position map points at the calls, and output plus removed messages number the input |
| `ToolPairs.InsertMissingToolStubs` | src/context.rs:331-367 | In any set iteration order, exactly the unanswered calls get one stub at their position and one report entry |
| `ToolPairs.StitchStubs` | src/context.rs:369-387 | Stitching follows every unanswered call by its stub |
| `ToolPairs.RepairFollowsCalls` | src/context.rs:345-362 | A stub names its call and the tool of the call, with the source's id and text |
| `ToolPairs.StubIsReported` | src/context.rs:353-357 | The report has an entry for exactly the stubs |
| `ToolPairs.SanitizedIsFullyPaired` | src/context.rs:237-257 | Call ids are distinct, every call has exactly one result and it comes later, every result has an earlier call |
| `ToolPairs.SanitizingIsIdempotent` | src/context.rs:237-257 | Sanitizing again returns the same list with an empty report |
| `ToolPairs.SanitizeConserves` | src/context.rs:237-387 | Output plus removed equals input plus stubbed; each stub costs 9, and 4 times the number of stubs is at most the cost |
| `ToolPairs.SanitizeToolPairs` | src/context.rs:237-257 | The three loops compute this list, and the report entries match |
| `ToolPairs.Compress` | src/context.rs:155-171 | A zero budget is the only error; messages are conserved, the list is fully paired, the cost is at most the budget plus 9 per stub and at most 13/4 of the budget, and at most one message is summarized |
| `TokenBudget.MissingAreUnanswered` | src/context.rs:331-367 | The stubbed calls are those of the list with no result after them |
| `TokenBudget.RetainedCost` | src/context.rs:259-329 | What is retained costs what the first calls and the first results after their calls cost, with the plain messages |
| `TokenBudget.RemovedAreRefused` | src/context.rs:259-329 | The report lists the messages that do not survive, in order, with id, role and the right one of four reasons |
| `TokenBudget.BudgetIsRespectedIff` | src/context.rs:155-171 | Messages that fit come out within the budget if and only if the surviving messages and 9 tokens for every unanswered call fit |
| `TokenBudget.PairedInputStaysWithinIff` | src/context.rs:155-171 | For a list without duplicates and orphans: if and only if its cost and 9 tokens for every unanswered call fit |
| `TokenBudget.WorstCostIsBound` | src/context.rs:155-171 | For all messages the output costs at most budget + 9 * (budget / 4), nothing below 4, hence at most 13/4 of the budget |
| `TokenBudget.WorstCostIsReached` | src/context.rs:155-171 | From budget 4 on some messages reach that cost |
| `TokenBudget.LimitIsGuaranteedIff` | src/context.rs:155-171 | A budget guarantees a limit for all messages if and only if the worst cost is within it; 13 * budget <= 4 * limit is enough |
| `TokenBudget.StubsCanExceedBudget` | src/context.rs:155-171 | Counterexample: one wordless call at budget 4 comes out at cost 13 |
| `Gate.EvaluateAll` | src/workflow/gate.rs:160-175 | Evaluation says yes exactly when every condition passes and fails exactly when some condition cannot be evaluated |
| `Gate.ClosedToEvidence` | src/workflow/gate.rs:291-335 | A gate holding an audit, findings or custom condition is closed to every task record |
| `Gate.EvidenceOpensExactly` | src/workflow/gate.rs:291-335 | A task record opens a gate if and only if every condition of it is a code diff or a passed verification that the record shows; the permissive evaluator opens every gate |
| `Gate.ParsesFourTexts` | src/workflow/gate.rs:49-57 | The four known condition texts and no others are parsed as such |
| `Engine.NewSatisfiesInv` | src/workflow/engine.rs:188-212 | A new instance satisfies the invariant |
| `Engine.ApplyKeepsInv` | src/workflow/engine.rs:237-849 | Every engine method keeps it: earlier phases completed, later phases untouched, the log the chain of the phases reached, workflow and phase status in agreement |
| `Engine.EveryRunSatisfiesInv` | src/workflow/engine.rs:186-850 | Every run from a new workflow satisfies the invariant |
| `Engine.ApplyKeepsTerminals` | src/workflow/engine.rs:237-849 | No method writes a completed, failed or skipped phase |
| `Engine.TerminalPhasesAreAbsorbing` | src/workflow/engine.rs:237-849 | Over a whole run a phase that is over stays exactly as it was |
| `Engine.RefusalChangesNothing` | src/workflow/engine.rs:237-849 | A refused call changes nothing but the record of missing artifacts, and that only in start and advance |
| `Engine.MovesIffGatesOpen` | src/workflow/engine.rs:630-738 | The index moves if and only if an advance finds a completed phase before the last, exit gate passed, artifacts present and entry gate passed |
| `Engine.EveryTransitionWasEarned` | src/workflow/engine.rs:630-738 | Every log entry of every run was made by an advance that found that phase completed and its gates open, and carries its ids and time |
| `Engine.StatusChangesIffCaused` | src/workflow/engine.rs:237-849 | A table says which call takes which phase to which status and when; for every call the statuses that change are exactly those of the table |
| `Engine.EveryStatusWasCaused` | src/workflow/engine.rs:237-849 | In every run a phase that is no longer pending owes its present status to a call the table allows; so an active phase was started with its artifacts present or resumed |
| `EngineEffects.StatusIsGiven` | src/workflow/engine.rs:237-849 | A table says which call gives the workflow which status; every call leaves that or the old one. A failed phase and a breakout differ there |
| `EngineEffects.TimesFollowStatus` | src/workflow/engine.rs:143-164 | The start is stamped when a phase leaves pending, the end when it completes or fails, the reason when it fails; the pending message lives while the phase awaits the user |
| `EngineEffects.CountersCount` | src/workflow/engine.rs:454-565 | A counter moves with its own call on an active phase only, by one, up to the largest 32-bit number; ids, task, agent and role never move |
| `EngineEffects.RefusalsAreRecorded` | src/workflow/engine.rs:237-849 | A call stamps the update time unless it is refused, and records the missing artifact exactly when that is why |
| `EngineEffects.CeilingIsReported` | src/workflow/engine.rs:483-565 | A counting call on an active phase says whether the ceiling was reached |
| `EngineEffects.RefusedAdvance` | src/workflow/engine.rs:630-738 | Why an advance is refused: the state first, then the final phase, then the gates |
| `EngineEffects.NewIsPristine` | src/workflow/engine.rs:188-212 | A new workflow is pending at its first phase, without log, task or agent |
| `EngineEffects.CeilingsFallBack` | src/workflow/engine.rs:567-588 | A phase's own ceiling, or the template's |
| `Engine.ApplyKeepsBelowCeilings` | src/workflow/engine.rs:483-588 | Recording against the effective ceilings keeps every live phase strictly below its positive ceilings |
| `Engine.EveryRunStaysBelowCeilings` | src/workflow/engine.rs:483-588 | So does every run |
| `WorkflowObject.WorkflowInstance.constructor` | src/workflow/engine.rs:188-212 | A new object holds the new instance |
| `WorkflowObject.WorkflowInstance.StartPhase` | src/workflow/engine.rs:237-301 | The object method makes the specified step: pending to active, or blocked on a missing artifact |
| `WorkflowObject.WorkflowInstance.CompletePhase` | src/workflow/engine.rs:304-330 | Active to completed |
| `WorkflowObject.WorkflowInstance.ReconcileCompleteCurrentPhase` | src/workflow/engine.rs:342-373 | Pending, active or awaiting to completed; a completed phase is left alone |
| `WorkflowObject.WorkflowInstance.ReconcileFailCurrentPhase` | src/workflow/engine.rs:382-415 | Pending, active or awaiting to failed; a failed phase fails the workflow again |
| `WorkflowObject.WorkflowInstance.FailPhase` | src/workflow/engine.rs:427-444 | Active to failed |
| `WorkflowObject.WorkflowInstance.IncrementRetryCount` | src/workflow/engine.rs:454-469 | Saturating increment of the active phase's retry counter |
| `WorkflowObject.WorkflowInstance.RecordToolFailure` | src/workflow/engine.rs:483-517 | Saturating count; at the ceiling the phase and the workflow fail |
| `WorkflowObject.WorkflowInstance.RecordRequest` | src/workflow/engine.rs:531-565 | Saturating count; at the ceiling the phase and the workflow fail |
| `WorkflowObject.WorkflowInstance.CanAdvance` | src/workflow/engine.rs:591-622 | True exactly when the exit gate of the current phase passes; an error without a current phase or when the evaluator breaks down |
| `WorkflowObject.WorkflowInstance.Advance` | src/workflow/engine.rs:630-738 | The final-phase test comes before any gate, then exit gate, artifacts, entry gate |
| `WorkflowObject.WorkflowInstance.CompleteWorkflow` | src/workflow/engine.rs:750-769 | Completed final phase to completed workflow |
| `WorkflowObject.WorkflowInstance.HandoffToUserPhase` | src/workflow/engine.rs:789-818 | Active to awaiting user input, or to failed and user-terminated on breakout |
| `WorkflowObject.WorkflowInstance.ResumeFromUserInput` | src/workflow/engine.rs:825-849 | Awaiting back to active, clearing the message |
| `Reconcile.ReconcilePhase` | src/dispatch/mod.rs:340-447 | The loop body makes the specified step on the instance, or leaves it unchanged when the query fails |
| `Reconcile.ReconcilePhases` | src/dispatch/mod.rs:321-450 | Only the phase that was current on entry is reconciled, even after an advance; one outcome per phase |
| `ReconcileTheorems.ReconcileKeepsInv` | src/dispatch/mod.rs:321-450 | Reconciliation keeps the engine's invariant, whatever the coordinator answers |
| `ReconcileTheorems.DispatchedSatisfiesInv` | src/dispatch/orchestrate.rs:117-202 | A dispatched workflow satisfies it |
| `ReconcileTheorems.DispatchAssigns` | src/dispatch/orchestrate.rs:117-202 | Dispatch gives every phase its task and the first one an agent |
| `ReconcileTheorems.EveryHistorySatisfiesInv` | src/dispatch/mod.rs:321-450 | So does every history mixing engine calls and reconciliations |
| `ReconcileTheorems.CallEndsOrDoesNothing` | src/dispatch/mod.rs:321-450 | A call ends the current phase, moving the index by at most one, when the task record says it is over, and otherwise changes nothing |
| `ReconcileTheorems.StopNeverAdvances` | src/dispatch/mod.rs:390-434 | A stop signal never moves the index, under either evaluator |
| `ReconcileTheorems.StopIsHonoured` | src/dispatch/mod.rs:378-388 | A completed task with a signal that does not say to continue, absent or false, stops the workflow where it is, as completed, with the suggested next action |
| `ReconcileTheorems.OtherwiseAdvances` | src/dispatch/mod.rs:390-434 | Without a signal, or with one that says to continue, the result is exactly that of the advance, never a stop |
| `ReconcileTheorems.OtherAnswers` | src/dispatch/mod.rs:343-446 | No task, a phase that is over, a failed query, a cancelled task in either spelling, and any other status: what each answers and writes |
| `ReconcileTheorems.OutcomesAreLocal` | src/dispatch/mod.rs:326-341 | One outcome per phase, and only the current phase has a real one |
| `ReconcileTheorems.ReconcileReachesFixpoint` | src/dispatch/mod.rs:321-450 | With fixed answers, after as many calls as phases remain every further call changes nothing, update time included |
| `ReconcileTheorems.EvidenceRunIsPrefix` | src/dispatch/mod.rs:390-434 | With the same answers the evidence run equals the forced run or is frozen at a completed phase the forced run went through |
| `ReconcileTheorems.PrefixWithoutMissingArtifacts` | src/dispatch/mod.rs:390-434 | When no artifact is missing it is equal, or frozen at a strictly smaller index |
| `ReconcileTheorems.SameIndexDivergence` | src/dispatch/mod.rs:390-434 | One call leaves the two at the same index but different if and only if the phase completes without a stop, evidence closes its exit gate and the next phase lacks an artifact |
| `ReconcileTheorems.RunsDivergeAtOneIndexIff` | src/dispatch/mod.rs:390-434 | Two whole runs end at the same index but different if and only if some call made from their common state was such a call |
| `Finality.GatedWorkflowParts` | src/dispatch/mod.rs:390-434 | Witness: a dispatched two-phase workflow whose first call parts the runs so |
| `ReconcileTheorems.EvidenceRunStaysBehindClosedGate` | src/dispatch/mod.rs:390-434 | No evidence run, however long, passes a non-final phase whose exit gate or whose successor's entry gate needs a verdict |
| `ReconcileTheorems.FinalExitGateIsNotEnforced` | src/workflow/engine.rs:630-660 | At the final phase every evaluator gets the same refusal: its exit gate is never evaluated, and the workflow can be completed |
| `ReconcileTheorems.ExitGateIsEnforcedIff` | src/workflow/engine.rs:630-660 | A closed exit gate holds a completed phase back if and only if the phase is not the last |
| `Finality.AuditedWorkflowCompletes` | src/dispatch/mod.rs:390-434 | Witness: a dispatched workflow behind an audit gate ends completed on evidence alone |
| `Finality.EveryLifeIsShaped` | src/workflow/engine.rs:237-849 | Engine calls, reconciliations and both ways of cancelling keep the phases mirroring the template and none skipped |
| `Finality.PhaseWithTask` | src/dispatch/orchestrate.rs:272-286 | Cancelling a task fails the first phase that has it |
| `Finality.CancelTaskWrites` | src/dispatch/orchestrate.rs:270-304 | It writes that phase's status, time and reason and cancels the workflow |
| `Finality.StatusIsFinalIff` | src/workflow/engine.rs:237-849 | In every such state, cancelled ones included, the status survives every history of engine calls and reconciliations if and only if the workflow has failed at a failed phase, is completed at its completed last phase, or has no phases |
| `Finality.CompletedIsFinalIff` | src/dispatch/mod.rs:402-434 | A completed workflow stays completed in every history if and only if it stands at its last phase |
| `Finality.FailedIsFinal` | src/workflow/engine.rs:237-849 | A failed workflow stays failed in every history |
| `Finality.CancelledIsFinalIff` | src/commands/cancel.rs:36-66 | A cancelled workflow, whatever its phases look like, stays cancelled in every history if and only if it has no phases or stands at a skipped one |
| `Finality.CancelledWorkflowCompletes` | src/commands/cancel.rs:36-66 | Witness: a dispatched workflow, started and cancelled while its phase is active, lies outside the engine's invariant and is completed by the next reconciliation |
| `Finality.TerminatedUntilFailed` | src/workflow/engine.rs:382-415 | A user-terminated workflow stays so until it is reconciled as failed, and is failed from then on |
| `Finality.StoppedWorkflowCanResume` | src/workflow/engine.rs:630-738 | An advance with open gates dispatches a completed workflow again if and only if a phase follows whose artifacts are present |
| `Finality.StoppedWorkflowResumes` | src/dispatch/mod.rs:378-388 | Witness: a stop completes a dispatched workflow at its first phase and an advance dispatches it again |
| `Retry.RetriedWithinBudgetOnly` | src/retry.rs:87-213 | A stall or failure is retried exactly while the retry budget lasts and escalated from then on |
| `Retry.RetriesNarrowAndClimb` | src/retry.rs:70-213 | A retry narrows the scope after chatter, and from the second lack of progress on narrows it and climbs one tier, each only if the policy says so |
| `Retry.HandleSignal` | src/monitor/handler.rs:21-77 | The handler makes the specified step on the instance and returns its action, the engine's refusal, or an error when the raised counter is not stored |
| `Retry.QuietSignals` | src/monitor/handler.rs:28-39 | Healthy and gate signals change nothing; a completion completes an active phase and is refused otherwise |
| `Retry.LoudSignals` | src/monitor/handler.rs:40-72 | A stall or failure is escalated without budget, refused unless the phase is active, and otherwise answered with the decision for its count and tier |
| `Retry.HandlingCountsRetries` | src/monitor/handler.rs:40-72 | One signal raises the current phase's counter exactly when the action is a retry or its counter could not be stored, and never past the limit |
| `Retry.CounterIsRetriesReturned` | src/monitor/handler.rs:21-77 | Over every sequence of signals and other events, a phase's counter is the number of retries returned for it and of those lost to the store, and at most the limit |
| `Retry.LosesIffNotPersisted` | src/monitor/handler.rs:40-69 | A retry is lost if and only if the store refuses the counter of an active phase that stalls or fails with budget left |
| `Retry.CounterIsExactIff` | src/monitor/handler.rs:52-69 | Over every history the counter is the number of retries returned if and only if no event of it meets that guard |
| `Retry.StallIsLost` | src/monitor/handler.rs:52-69 | Witness: a dispatched and started workflow whose first stall is not stored has counter 1 and no retry returned |
| `Retry.AttemptsAreBounded` | src/outcome.rs:209-215 | So the attempt count of the outcome is at most phases times (limit + 1), or 1, and its 32-bit sum can overflow only if that product does |
| `Retry.AttemptsAreExact` | src/outcome.rs:209-215 | The attempt count is exactly one per phase and one per counter raised over the history |
| `Outcome.RouteIsPassedPhases` | src/outcome.rs:217-232 | The route taken is the passed phases, completed, followed by the current phase if it was begun |
| `Outcome.EveryHistoryHasItsRoute` | src/outcome.rs:193-232 | In every history the route is that prefix, and a completed outcome's route is completed throughout |
| `Outcome.TerminalByStatus` | src/outcome.rs:193-197 | Completed and cancelled workflows end so, every other is recorded as failed |
| `Outcome.StepByStatus` | src/outcome.rs:221-231 | A step is completed or skipped as its phase is, and failed otherwise |
| `SweepSpec.ActivePhasesAreLive` | src/sweeper.rs:439-552 | After a sweep the agent of every active phase is unregistered, or online and heard from within the timeout |
| `SweepSpec.CollectionIsSafe` | src/sweeper.rs:297-305 | Collection removes no runtime that owns an active phase or went offline in this sweep; what it removes was offline past the retention |
| `SweepSpec.FinishedWorkflowsAreKept` | src/sweeper.rs:368-404 | Completed, cancelled and user-terminated workflows are untouched; any other is untouched or failed |
| `SweepSpec.ReportCountsFailures` | src/sweeper.rs:439-552 | The two phase counters of the report add up to the rows that went from active to failed |
| `SweepSpec.SweepIsIdempotent` | src/sweeper.rs:439-552 | A second sweep at the same time changes nothing and reports zeros |
| `SweepSpec.RowAfterFailing` | src/sweeper.rs:368-404 | Failing by key fails exactly the orphaned rows |
| `SweepTheorems.RuntimeAfterSweep` | src/sweeper.rs:439-552 | A sweep deletes exactly the runtimes offline past the retention, stamps exactly the online ones not heard from in time, and keeps every other |
| `SweepTheorems.PhaseAfterSweep` | src/sweeper.rs:439-552 | Exactly the active phases of registered runtimes that are offline or not heard from in time fail, with the time and the reason |
| `SweepTheorems.WorkflowAfterSweep` | src/sweeper.rs:439-552 | Exactly the workflows that lose a phase and are not completed, cancelled or user-terminated become failed, at the time of the sweep |
| `SweepTheorems.ReportCounts` | src/sweeper.rs:439-552 | The report counts the runtimes gone stale, their active phases and the runtimes deleted |
| `Sweeper.RuntimeRegistry.UpsertHeartbeat` | src/sweeper.rs:176-191 | The runtime is online with the new heartbeat, keeps its registration time, and no other row changes |
| `Sweeper.RuntimeRegistry.MarkOffline` | src/sweeper.rs:287-294 | Only a runtime that is not offline yet is stamped |
| `Sweeper.RuntimeRegistry.GcOffline` | src/sweeper.rs:297-305 | Exactly the expired runtimes are deleted and counted |
| `Sweeper.RuntimeRegistry.ActivePhasesForRuntimes` | src/sweeper.rs:319-361 | Querying in chunks of 999 finds the same rows as one query |
| `Sweeper.RuntimeRegistry.FailPhase` | src/sweeper.rs:368-404 | The phase fails if it is still active, and its workflow unless that is already over |
| `Sweeper.RuntimeRegistry.TimeOutRuntimes` | src/sweeper.rs:439-490 | Every runtime past the timeout is stamped offline, and no other |
| `Sweeper.RuntimeRegistry.ReconcileOfflinePhases` | src/sweeper.rs:409-428 | Active phases of all offline runtimes are failed and counted |
| `Sweeper.RuntimeRegistry.RunSweep` | src/sweeper.rs:439-552 | The four steps leave the specified tables and report |
| `StoreReads.GroupIsStrict` | src/store.rs:617-690 | Whatever the database answers, the rows of one workflow in it are strictly ordered and are all its rows |
| `StoreReads.BatchAgrees` | src/store.rs:617-690 | A batch and a query of its own give one workflow the same phases in the same order |
| `StoreReads.AgreementIffDistinctOrders` | src/store.rs:617-690 | Batches and single queries agree on every database that orders by workflow and position if and only if no two phases of a workflow share a position |
| `StoreReads.FilingGroups` | src/store.rs:617-690 | Filing rows into the map gives each workflow its own rows, in order |
| `StoreReads.FetchPhases` | src/store.rs:617-690 | The batched second query files exactly the phases each workflow's own query returns, or some workflow could not be loaded on its own |
| `StoreReads.ListActiveWorkflows` | src/store.rs:560-728 | The batched read returns exactly what loading each active workflow in turn returns, failures included, for any number of workflows |
| `StoreReads.LoadingIsRowwise` | src/store.rs:560-728 | A loaded list has one entry per workflow row in order, with its id, its parsed header and its phases parsed one by one; it fails exactly for a header or a phase that does not parse |
| `Slug.HandoffSlug` | src/dispatch/orchestrate.rs:501-530 | Collapsing hyphens and trimming computes the same string as splitting, dropping empties and joining |
| `Slug.CollapseTrimIsSplitJoin` | src/dispatch/orchestrate.rs:515-529 | The two slug makers agree on every text |
| `Slug.SlugIsClean` | src/decompose/algorithm.rs:212-222 | A slug has no leading, trailing or doubled hyphen |
| `Slug.SlugIsIdempotent` | src/decompose/algorithm.rs:212-222 | The slug of a slug is the slug |
| `Slug.SlugKeepsLetters` | src/decompose/algorithm.rs:212-222 | A slug holds exactly the alphanumeric characters of its text, in order |
| `Slug.SeparatorsBecomeOneHyphen` | src/decompose/algorithm.rs:212-222 | Between two letters any run of other characters becomes one hyphen, at the start it leaves no trace |
| `Slug.TrailingSeparators` | src/decompose/algorithm.rs:212-222 | At the end it leaves no trace, and a text without letters has an empty slug |
| `Slug.LettersAreTheirSlug` | src/decompose/algorithm.rs:212-222 | A text of letters and digits is its own slug |

## Left out

- Run: does not say which cyclic graphs with a closing repeat are accepted by chance; that is the length test itself.
- ReturnedListIsMeaning: speaks of topological orders only; an accepted cyclic graph has no recursive semantics.
- PackBy: efforts are unbounded sums; overflow of 64-bit seconds is not modelled.
- BuildStepDeps: dependency texts and effort texts are taken as parsed or not; the parsers are string slicing.
- Decompose: titles, slugs, suggested tiers and the list of warnings are not part of a piece.
- TerminalPhasesAreAbsorbing: speaks of the engine's own calls; the sweeper fails phases directly in its tables, modelled separately.
- DispatchedSatisfiesInv: the dispatch loop is reduced to the instance it leaves; the coordinator calls it makes are not modelled.
- ListActiveWorkflows: columns are opaque and parsed by arbitrary partial functions; an error is an absent result, without its message.
- RunSweep: database errors, runtime status texts outside the two known ones and the list of error messages are not modelled; each step is one transaction.
- Node execution, process handling, approval prompts, timeouts, variable expansion and locks.
- The coordinator's client, sockets, subprocesses, capability registry and process checks.
- CancelWorkflow: cancelling is modelled on the instance; the audit record, the outcome record and the store are not.
- HandleSignal: the reason texts of the actions are not modelled.
- Recovery by typed failure, tables of tiers and failure kinds, status text pairs.
- The markdown parser and the renderer of pieces, rubrics, logging and the command line.
- Acyclicity of the piece graph: merging across projects can create cycles, so it is not claimed.
