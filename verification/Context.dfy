/** Context compression: pruning to a token budget, then repair of tool calls and results. */
module Context {
  import opened Collections

  datatype Role = System | User | Assistant | ToolCall | ToolResult

  /** Content is the list of whitespace-separated words: nothing else about it matters here. */
  datatype Message = Message(id: string, role: Role, words: seq<string>, callId: Option<string>,
                             toolName: Option<string>)

  /** Why a message appears in the report. */
  datatype Note =
    | OverBudget
    | Summarized
    | DuplicateCall
    | SecondResult
    | OrphanedResult
    | ResultWithoutCallId
    | Stubbed

  datatype Item = Item(messageId: string, role: Role, note: Note)

  datatype Report = Report(removed: seq<Item>, summarized: seq<Item>, stubbed: seq<Item>)

  datatype ContextError = InvalidBudget

  function TokenCost(m: Message): nat {
    |m.words| + 4
  }

  function TotalCost(ms: seq<Message>): nat {
    if ms == [] then 0 else TotalCost(ms[..|ms|-1]) + TokenCost(ms[|ms|-1])
  }

  // ----------------------------------------------------------------- pruning: priority

  /** The positions whose message is focused, or is not, latest first. */
  function Descending(ms: seq<Message>, focused: Message -> bool, want: bool): (r: seq<nat>)
    ensures forall i: nat :: i in r <==> i < |ms| && focused(ms[i]) == want
  {
    if ms == [] then []
    else
      var front := Descending(ms[..|ms|-1], focused, want);
      if focused(ms[|ms|-1]) == want then [|ms| - 1] + front else front
  }

  /** Messages about the focus topic first, each part latest first. */
  function PrioritizedIndices(ms: seq<Message>, focused: Message -> bool): seq<nat> {
    Descending(ms, focused, true) + Descending(ms, focused, false)
  }

  lemma {:induction false} DescendingDistinct(ms: seq<Message>, focused: Message -> bool, want: bool)
    ensures Distinct(Descending(ms, focused, want))
  {
    if ms != [] {
      DescendingDistinct(ms[..|ms|-1], focused, want);
      var front := Descending(ms[..|ms|-1], focused, want);
      assert forall k :: 0 <= k < |front| ==> front[k] in front;
    }
  }

  predicate AreIndices(order: seq<nat>, n: nat) {
    forall k :: 0 <= k < |order| ==> order[k] < n
  }

  lemma {:induction false} Range(n: nat) returns (all: seq<nat>)
    ensures Distinct(all) && |all| == n && forall i: nat :: i in all <==> i < n
  {
    if n == 0 {
      all := [];
    } else {
      all := Range(n - 1);
      assert forall k :: 0 <= k < |all| ==> all[k] in all;
      all := all + [n - 1];
    }
  }

  /** The priority order visits every message once. */
  lemma PriorityIsPermutation(ms: seq<Message>, focused: Message -> bool)
    ensures Distinct(PrioritizedIndices(ms, focused))
    ensures forall i: nat :: i in PrioritizedIndices(ms, focused) <==> i < |ms|
    ensures |PrioritizedIndices(ms, focused)| == |ms|
    ensures AreIndices(PrioritizedIndices(ms, focused), |ms|)
  {
    var first, second := Descending(ms, focused, true), Descending(ms, focused, false);
    var order := first + second;
    DescendingDistinct(ms, focused, true);
    DescendingDistinct(ms, focused, false);
    forall i, j | 0 <= i < j < |order|
      ensures order[i] != order[j]
    {
      assert i < |first| ==> order[i] in first;
      assert j >= |first| ==> order[j] in second;
    }
    DistinctCardinality(order);
    var all := Range(|ms|);
    DistinctCardinality(all);
    assert ToSet(order) == ToSet(all);
    forall k | 0 <= k < |order|
      ensures order[k] < |ms|
    {
      assert order[k] in order;
    }
  }

  // -------------------------------------------------------------------- pruning: greedy

  /** The pruning loop's variables. */
  datatype Prune = Prune(kept: set<nat>, total: nat, removed: seq<Item>, fallback: Option<(nat, Message)>)

  function Truncate(m: Message, budget: nat): Option<Message> {
    if budget <= 4 then None
    else if |m.words| > budget - 4 then Some(m.(words := m.words[..budget-4]))
    else Some(m)
  }

  function OverBudgetItem(m: Message): Item {
    Item(m.id, m.role, OverBudget)
  }

  /** One candidate of the pruning loop. */
  function Consider(ms: seq<Message>, budget: nat, idx: nat, st: Prune): Prune
    requires idx < |ms|
  {
    var m := ms[idx];
    if st.total + TokenCost(m) <= budget then
      st.(kept := st.kept + {idx}, total := st.total + TokenCost(m))
    else if st.kept == {} then
      match Truncate(m, budget)
      case Some(t) => Prune({idx}, TokenCost(t), st.removed, Some((idx, t)))
      case None => st.(removed := st.removed + [OverBudgetItem(m)])
    else st.(removed := st.removed + [OverBudgetItem(m)])
  }

  /** The loop over a prefix of the candidates. */
  function ConsiderAll(ms: seq<Message>, budget: nat, order: seq<nat>): Prune
    requires AreIndices(order, |ms|)
  {
    if order == [] then Prune({}, 0, [], None)
    else Consider(ms, budget, order[|order|-1], ConsiderAll(ms, budget, order[..|order|-1]))
  }

  /** The message that stands for `idx` in the output. */
  function Kept(ms: seq<Message>, st: Prune, idx: nat): Message
    requires idx < |ms|
  {
    match st.fallback
    case Some((i, t)) => if i == idx then t else ms[idx]
    case None => ms[idx]
  }

  /** Kept messages in message order. */
  function Gather(ms: seq<Message>, st: Prune, n: nat): seq<Message>
    requires n <= |ms|
  {
    if n == 0 then []
    else if n - 1 in st.kept then Gather(ms, st, n - 1) + [Kept(ms, st, n - 1)]
    else Gather(ms, st, n - 1)
  }

  /** The sum of the costs of the kept messages. */
  ghost function KeptCost(ms: seq<Message>, st: Prune, n: nat): nat
    requires n <= |ms|
  {
    if n == 0 then 0
    else KeptCost(ms, st, n - 1) + if n - 1 in st.kept then TokenCost(Kept(ms, st, n - 1)) else 0
  }

  /** What the pruning loop keeps while it runs. */
  ghost predicate Pruning(ms: seq<Message>, budget: nat, order: seq<nat>, st: Prune) {
    && (forall i: nat :: i in st.kept ==> i in order && i < |ms|)
    && st.total <= budget
    && st.total == KeptCost(ms, st, |ms|)
    && |st.kept| + |st.removed| == |order|
    && (st.kept == {} ==> st.total == 0 && st.fallback == None)
    && match st.fallback
       case Some((i, t)) =>
         && i < |ms| && st.kept == {i} && budget > 4 && st.total == budget
         && Truncate(ms[i], budget) == Some(t) && TokenCost(ms[i]) > budget
       case None => true
  }

  lemma {:induction false} KeptCostLocal(ms: seq<Message>, a: Prune, b: Prune, idx: nat, n: nat)
    requires n <= |ms| && idx < |ms| && idx !in a.kept && b.kept == a.kept + {idx}
    requires forall i: nat :: i in a.kept && i < |ms| ==> Kept(ms, a, i) == Kept(ms, b, i)
    ensures KeptCost(ms, b, n) == KeptCost(ms, a, n) + if idx < n then TokenCost(Kept(ms, b, idx)) else 0
  {
    if n > 0 {
      KeptCostLocal(ms, a, b, idx, n - 1);
    }
  }

  lemma {:induction false} NothingKeptCostsNothing(ms: seq<Message>, st: Prune, n: nat)
    requires n <= |ms| && st.kept == {}
    ensures KeptCost(ms, st, n) == 0
  {
    if n > 0 {
      NothingKeptCostsNothing(ms, st, n - 1);
    }
  }

  lemma {:induction false} KeptCostFrame(ms: seq<Message>, a: Prune, b: Prune, n: nat)
    requires n <= |ms| && a.kept == b.kept && a.fallback == b.fallback
    ensures KeptCost(ms, b, n) == KeptCost(ms, a, n)
  {
    if n > 0 {
      KeptCostFrame(ms, a, b, n - 1);
    }
  }

  lemma ConsiderKeepsPruning(ms: seq<Message>, budget: nat, order: seq<nat>, st: Prune, idx: nat)
    requires Pruning(ms, budget, order, st) && idx < |ms| && idx !in order
    ensures Pruning(ms, budget, order + [idx], Consider(ms, budget, idx, st))
  {
    var next := Consider(ms, budget, idx, st);
    if idx in next.kept {
      KeptCostLocal(ms, st, next, idx, |ms|);
    } else {
      KeptCostFrame(ms, st, next, |ms|);
    }
  }

  lemma {:induction false} ConsiderAllPrunes(ms: seq<Message>, budget: nat, order: seq<nat>)
    requires Distinct(order) && AreIndices(order, |ms|)
    ensures Pruning(ms, budget, order, ConsiderAll(ms, budget, order))
  {
    if order == [] {
      NothingKeptCostsNothing(ms, ConsiderAll(ms, budget, order), |ms|);
    } else {
      var front := order[..|order|-1];
      ConsiderAllPrunes(ms, budget, front);
      assert order == front + [order[|order|-1]];
      ConsiderKeepsPruning(ms, budget, front, ConsiderAll(ms, budget, front), order[|order|-1]);
    }
  }

  // ---------------------------------------------------------- pruning: what it promises

  function PruneState(ms: seq<Message>, budget: nat, focused: Message -> bool): Prune
  {
    PriorityIsPermutation(ms, focused);
    ConsiderAll(ms, budget, PrioritizedIndices(ms, focused))
  }

  function Pruned(ms: seq<Message>, budget: nat, focused: Message -> bool): seq<Message> {
    Gather(ms, PruneState(ms, budget, focused), |ms|)
  }

  lemma {:induction false} GatherCost(ms: seq<Message>, st: Prune, n: nat)
    requires n <= |ms|
    ensures TotalCost(Gather(ms, st, n)) == KeptCost(ms, st, n)
  {
    if n > 0 {
      GatherCost(ms, st, n - 1);
    }
  }

  lemma {:induction false} GatherLength(ms: seq<Message>, st: Prune, n: nat)
    requires n <= |ms|
    ensures |Gather(ms, st, n)| == |set i | 0 <= i < n && i in st.kept|
  {
    if n > 0 {
      GatherLength(ms, st, n - 1);
      var below, here := set i | 0 <= i < n - 1 && i in st.kept, set i | 0 <= i < n && i in st.kept;
      if n - 1 in st.kept {
        assert here == below + {n - 1};
      } else {
        assert here == below;
      }
    }
  }

  /** Pruning stays within the budget and conserves messages. */
  lemma PruneFitsBudget(ms: seq<Message>, budget: nat, focused: Message -> bool)
    ensures TotalCost(Pruned(ms, budget, focused)) <= budget
    ensures |Pruned(ms, budget, focused)| + |PruneState(ms, budget, focused).removed| == |ms|
  {
    var st := PruneState(ms, budget, focused);
    PriorityIsPermutation(ms, focused);
    ConsiderAllPrunes(ms, budget, PrioritizedIndices(ms, focused));
    GatherCost(ms, st, |ms|);
    GatherLength(ms, st, |ms|);
    assert st.kept == set i | 0 <= i < |ms| && i in st.kept;
  }

  /** At most one message is summarized; it then fills the budget and is the only one kept. */
  lemma SummaryStandsAlone(ms: seq<Message>, budget: nat, focused: Message -> bool)
    requires PruneState(ms, budget, focused).fallback.Some?
    ensures var (i, t) := PruneState(ms, budget, focused).fallback.value;
            && i < |ms| && budget > 4
            && |ms[i].words| > budget - 4 && t == ms[i].(words := ms[i].words[..budget-4])
            && Pruned(ms, budget, focused) == [t]
            && TokenCost(t) == budget
  {
    var st := PruneState(ms, budget, focused);
    var i := st.fallback.value.0;
    PriorityIsPermutation(ms, focused);
    ConsiderAllPrunes(ms, budget, PrioritizedIndices(ms, focused));
    GatherSingle(ms, st, i, |ms|);
  }

  lemma {:induction false} GatherSingle(ms: seq<Message>, st: Prune, i: nat, n: nat)
    requires n <= |ms| && i < |ms| && st.kept == {i}
    ensures Gather(ms, st, n) == if i < n then [Kept(ms, st, i)] else []
  {
    if n > 0 {
      GatherSingle(ms, st, i, n - 1);
    }
  }

  /** Later candidates do not disturb what was kept. */
  lemma {:induction false} KeptStays(ms: seq<Message>, budget: nat, order: seq<nat>, k: nat, i: nat)
    requires Distinct(order) && AreIndices(order, |ms|) && k <= |order|
    requires i in ConsiderAll(ms, budget, order[..k]).kept
    ensures i in ConsiderAll(ms, budget, order).kept
    decreases |order| - k
  {
    if k < |order| {
      assert order[..k+1][..k] == order[..k];
      KeptStays(ms, budget, order, k + 1, i);
    } else {
      assert order[..k] == order;
    }
  }

  /**
   * The greedy rule at turn `k`: a candidate is dropped exactly when it does not fit what is left
   * then, unless it is the first to be kept and the budget has room for a word.
   */
  lemma DroppedDidNotFit(ms: seq<Message>, budget: nat, focused: Message -> bool, k: nat)
    requires k < |ms|
    ensures var order := PrioritizedIndices(ms, focused);
            && Distinct(order) && |order| == |ms| && AreIndices(order, |ms|)
            && var turn := ConsiderAll(ms, budget, order[..k]);
               order[k] !in PruneState(ms, budget, focused).kept <==>
               turn.total + TokenCost(ms[order[k]]) > budget && (turn.kept != {} || budget <= 4)
  {
    PriorityIsPermutation(ms, focused);
    DropRule(ms, budget, PrioritizedIndices(ms, focused), k);
  }

  lemma DropRule(ms: seq<Message>, budget: nat, order: seq<nat>, k: nat)
    requires Distinct(order) && AreIndices(order, |ms|) && k < |order|
    ensures var turn := ConsiderAll(ms, budget, order[..k]);
            order[k] !in ConsiderAll(ms, budget, order).kept <==>
            turn.total + TokenCost(ms[order[k]]) > budget && (turn.kept != {} || budget <= 4)
  {
    assert order[..k+1][..k] == order[..k];
    var turn, next := ConsiderAll(ms, budget, order[..k]), ConsiderAll(ms, budget, order[..k+1]);
    assert next == Consider(ms, budget, order[k], turn);
    ConsiderAllPrunes(ms, budget, order[..k]);
    assert order[k] !in turn.kept;
    hide ConsiderAll, Pruning;
    if order[k] in next.kept {
      KeptStays(ms, budget, order, k + 1, order[k]);
    } else {
      DroppedStays(ms, budget, order, k + 1, order[k]);
    }
  }

  /** Later candidates do not bring back what was dropped. */
  lemma {:induction false} DroppedStays(ms: seq<Message>, budget: nat, order: seq<nat>, k: nat, i: nat)
    requires Distinct(order) && AreIndices(order, |ms|) && k <= |order| && i in order[..k]
    requires i !in ConsiderAll(ms, budget, order[..k]).kept
    ensures i !in ConsiderAll(ms, budget, order).kept
    decreases |order| - k
  {
    if k < |order| {
      assert order[..k+1][..k] == order[..k];
      var p :| 0 <= p < k && order[p] == i;
      assert order[..k+1][p] == i && order[k] != i;
      DroppedStays(ms, budget, order, k + 1, i);
    } else {
      assert order[..k] == order;
    }
  }

  /** With room for a word, the message of highest priority survives, whole or summarized. */
  lemma TopPrioritySurvives(ms: seq<Message>, budget: nat, focused: Message -> bool)
    requires ms != [] && budget >= 5
    ensures PrioritizedIndices(ms, focused) != []
    ensures PrioritizedIndices(ms, focused)[0] in PruneState(ms, budget, focused).kept
  {
    var order := PrioritizedIndices(ms, focused);
    PriorityIsPermutation(ms, focused);
    assert order[0] in order;
    assert order[..1] == [order[0]] && order[..1][..0] == [];
    KeptStays(ms, budget, order, 1, order[0]);
  }

  /** A kept message has no fallback unless it is the summarized one, so it appears unchanged. */
  lemma {:induction false} GatherOrder(ms: seq<Message>, st: Prune, n: nat) returns (at: seq<nat>)
    requires n <= |ms|
    ensures |at| == |Gather(ms, st, n)|
    ensures forall j, k :: 0 <= j < k < |at| ==> at[j] < at[k]
    ensures forall k :: 0 <= k < |at| ==> at[k] < n && at[k] in st.kept && Gather(ms, st, n)[k] == Kept(ms, st, at[k])
  {
    if n == 0 {
      at := [];
    } else {
      at := GatherOrder(ms, st, n - 1);
      if n - 1 in st.kept {
        at := at + [n - 1];
      }
    }
  }

  /** Pruning keeps the message order. */
  lemma PruneKeepsOrder(ms: seq<Message>, budget: nat, focused: Message -> bool) returns (at: seq<nat>)
    ensures |at| == |Pruned(ms, budget, focused)|
    ensures forall j, k :: 0 <= j < k < |at| ==> at[j] < at[k]
    ensures forall k :: 0 <= k < |at| ==>
              at[k] < |ms| && Pruned(ms, budget, focused)[k] == Kept(ms, PruneState(ms, budget, focused), at[k])
  {
    at := GatherOrder(ms, PruneState(ms, budget, focused), |ms|);
  }

  // ------------------------------------------------------------------ pruning: the loop

  function SummaryOf(ms: seq<Message>, fallback: Option<(nat, Message)>): seq<Item> {
    match fallback
    case Some((i, t)) => if i < |ms| then [Item(ms[i].id, ms[i].role, Summarized)] else []
    case None => []
  }

  /** The greedy loop over the candidates. */
  method KeepGreedily(ms: seq<Message>, budget: nat, order: seq<nat>) returns (st: Prune, summarized: seq<Item>)
    requires Distinct(order) && AreIndices(order, |ms|)
    ensures st == ConsiderAll(ms, budget, order) && summarized == SummaryOf(ms, st.fallback)
  {
    var kept: set<nat>, total: nat, removed: seq<Item>, truncatedFallback: Option<(nat, Message)> := {}, 0, [], None;
    summarized := [];
    for k := 0 to |order|
      invariant Prune(kept, total, removed, truncatedFallback) == ConsiderAll(ms, budget, order[..k])
      invariant kept == {} ==> truncatedFallback == None
      invariant summarized == SummaryOf(ms, truncatedFallback)
    {
      var idx := order[k];
      assert order[..k+1][..k] == order[..k];
      var message := ms[idx];
      if total + TokenCost(message) <= budget {
        kept, total := kept + {idx}, total + TokenCost(message);
      } else if kept == {} {
        var truncated := Truncate(message, budget);
        match truncated {
          case Some(t) =>
            total, truncatedFallback, kept := TokenCost(t), Some((idx, t)), {idx};
            summarized := summarized + [Item(message.id, message.role, Summarized)];
          case None =>
            removed := removed + [OverBudgetItem(message)];
        }
      } else {
        removed := removed + [OverBudgetItem(message)];
      }
    }
    assert order[..|order|] == order;
    st := Prune(kept, total, removed, truncatedFallback);
  }

  /** Prune to the budget and report what was dropped or shortened. */
  method PruneToBudget(ms: seq<Message>, budget: nat, focused: Message -> bool)
    returns (keptMessages: seq<Message>, report: Report)
    ensures keptMessages == Pruned(ms, budget, focused)
    ensures report.removed == PruneState(ms, budget, focused).removed && report.stubbed == []
    ensures report.summarized == SummaryOf(ms, PruneState(ms, budget, focused).fallback)
  {
    PriorityIsPermutation(ms, focused);
    var st, summarized := KeepGreedily(ms, budget, PrioritizedIndices(ms, focused));
    keptMessages := [];
    for idx := 0 to |ms|
      invariant keptMessages == Gather(ms, st, idx)
    {
      if idx in st.kept {
        if st.fallback.Some? && st.fallback.value.0 == idx {
          keptMessages := keptMessages + [st.fallback.value.1];
        } else {
          keptMessages := keptMessages + [ms[idx]];
        }
      }
    }
    report := Report(st.removed, summarized, []);
  }

  // ------------------------------------------------------------------ nothing to prune

  lemma {:induction false} SelectionCostsLess(ms: seq<Message>, st: Prune, n: nat)
    requires n <= |ms| && st.fallback == None
    ensures KeptCost(ms, st, n) <= TotalCost(ms[..n])
  {
    if n > 0 {
      SelectionCostsLess(ms, st, n - 1);
      assert ms[..n][..n-1] == ms[..n-1];
    }
  }

  lemma NotInFront(front: seq<nat>, idx: nat)
    requires Distinct(front + [idx])
    ensures idx !in front
  {
    var order := front + [idx];
    forall k | 0 <= k < |front|
      ensures front[k] != idx
    {
      assert order[k] == front[k] && order[|front|] == idx;
    }
  }

  lemma NextFits(ms: seq<Message>, budget: nat, st: Prune, idx: nat)
    requires TotalCost(ms) <= budget && idx < |ms| && idx !in st.kept
    requires st.fallback == None && st.total == KeptCost(ms, st, |ms|)
    ensures st.total + TokenCost(ms[idx]) <= budget
  {
    var more := st.(kept := st.kept + {idx});
    KeptCostLocal(ms, st, more, idx, |ms|);
    SelectionCostsLess(ms, more, |ms|);
    assert ms[..|ms|] == ms;
  }

  /** While everything fits, every candidate is kept as it is. */
  lemma {:induction false} FittingCandidatesAreKept(ms: seq<Message>, budget: nat, order: seq<nat>)
    requires TotalCost(ms) <= budget && Distinct(order) && AreIndices(order, |ms|)
    ensures ConsiderAll(ms, budget, order).fallback == None
    ensures forall i: nat :: i in ConsiderAll(ms, budget, order).kept <==> i in order
  {
    if order != [] {
      var front, idx := order[..|order|-1], order[|order|-1];
      var st := ConsiderAll(ms, budget, front);
      FittingCandidatesAreKept(ms, budget, front);
      ConsiderAllPrunes(ms, budget, front);
      assert order == front + [idx];
      NotInFront(front, idx);
      assert st.total == KeptCost(ms, st, |ms|);
      hide Pruning, Distinct, KeptCost;
      NextFits(ms, budget, st, idx);
      assert ConsiderAll(ms, budget, order) == Consider(ms, budget, idx, st);
    }
  }

  lemma {:induction false} GatherAll(ms: seq<Message>, st: Prune, n: nat)
    requires n <= |ms| && st.fallback == None && forall i: nat :: i < n ==> i in st.kept
    ensures Gather(ms, st, n) == ms[..n]
  {
    if n > 0 {
      GatherAll(ms, st, n - 1);
    }
  }

  /** Messages that fit the budget together are not pruned. */
  lemma FittingInputIsKept(ms: seq<Message>, budget: nat, focused: Message -> bool)
    requires TotalCost(ms) <= budget
    ensures Pruned(ms, budget, focused) == ms
  {
    PriorityIsPermutation(ms, focused);
    FittingCandidatesAreKept(ms, budget, PrioritizedIndices(ms, focused));
    GatherAll(ms, PruneState(ms, budget, focused), |ms|);
  }

  // ------------------------------------------------------------- what the priority means

  lemma {:induction false} DescendingDescends(ms: seq<Message>, focused: Message -> bool, want: bool)
    ensures forall i, j :: 0 <= i < j < |Descending(ms, focused, want)| ==>
              Descending(ms, focused, want)[i] > Descending(ms, focused, want)[j]
  {
    if ms != [] {
      DescendingDescends(ms[..|ms|-1], focused, want);
      var front := Descending(ms[..|ms|-1], focused, want);
      assert forall k :: 0 <= k < |front| ==> front[k] in front;
    }
  }

  /** Messages about the focus topic come first, and of two alike in that the later one. */
  lemma FocusedThenLatest(ms: seq<Message>, focused: Message -> bool, i: nat, j: nat)
    requires i < j < |PrioritizedIndices(ms, focused)|
    ensures var order := PrioritizedIndices(ms, focused);
            && order[i] < |ms| && order[j] < |ms|
            && (focused(ms[order[j]]) ==> focused(ms[order[i]]))
            && (focused(ms[order[i]]) == focused(ms[order[j]]) ==> order[i] > order[j])
  {
    DescendingDescends(ms, focused, true);
    DescendingDescends(ms, focused, false);
    var first, second := Descending(ms, focused, true), Descending(ms, focused, false);
    var order := PrioritizedIndices(ms, focused);
    assert order[i] == if i < |first| then first[i] else second[i-|first|];
    assert order[j] == if j < |first| then first[j] else second[j-|first|];
    assert i < |first| ==> order[i] in first;
    assert i >= |first| ==> order[i] in second;
    assert j < |first| ==> order[j] in first;
    assert j >= |first| ==> order[j] in second;
  }

  /** The latest message about the focus topic, or the latest of all if none is about it. */
  ghost predicate IsTop(ms: seq<Message>, focused: Message -> bool, i: nat) {
    && i < |ms|
    && (forall j :: i < j < |ms| ==> !focused(ms[j]))
    && (focused(ms[i]) || (i == |ms| - 1 && forall j :: 0 <= j < |ms| ==> !focused(ms[j])))
  }

  lemma TopIsFirst(ms: seq<Message>, focused: Message -> bool, i: nat)
    requires IsTop(ms, focused, i)
    ensures PrioritizedIndices(ms, focused) != [] && PrioritizedIndices(ms, focused)[0] == i
  {
    var order := PrioritizedIndices(ms, focused);
    PriorityIsPermutation(ms, focused);
    assert i in order;
    var p :| 0 <= p < |order| && order[p] == i;
    if p > 0 {
      FocusedThenLatest(ms, focused, 0, p);
    }
  }

  lemma {:induction false} GatherHolds(ms: seq<Message>, st: Prune, n: nat, i: nat)
    requires n <= |ms| && i < n && i in st.kept
    ensures Kept(ms, st, i) in Gather(ms, st, n)
  {
    if i < n - 1 {
      GatherHolds(ms, st, n - 1, i);
    }
  }

  /** With room for a word that message survives: whole, or alone and cut to the budget. */
  lemma TopSurvives(ms: seq<Message>, budget: nat, focused: Message -> bool, i: nat)
    requires IsTop(ms, focused, i) && budget >= 5
    ensures || ms[i] in Pruned(ms, budget, focused)
            || (|ms[i].words| > budget - 4 && Pruned(ms, budget, focused) == [ms[i].(words := ms[i].words[..budget-4])])
  {
    TopIsFirst(ms, focused, i);
    TopPrioritySurvives(ms, budget, focused);
    var st := PruneState(ms, budget, focused);
    hide PruneState;
    GatherHolds(ms, st, |ms|, i);
    if st.fallback.Some? {
      SummaryStandsAlone(ms, budget, focused);
    }
  }

  // ------------------------------------------------------------- what the report means

  /** One entry per dropped message, in priority order, with its id and role. */
  function Dropped(ms: seq<Message>, order: seq<nat>, kept: set<nat>): seq<Item>
    requires AreIndices(order, |ms|)
  {
    if order == [] then []
    else
      var idx := order[|order|-1];
      Dropped(ms, order[..|order|-1], kept) +
      if idx in kept then [] else [Item(ms[idx].id, ms[idx].role, OverBudget)]
  }

  lemma {:induction false} DroppedLocal(ms: seq<Message>, order: seq<nat>, a: set<nat>, b: set<nat>)
    requires AreIndices(order, |ms|) && forall i :: i in order ==> (i in a <==> i in b)
    ensures Dropped(ms, order, a) == Dropped(ms, order, b)
  {
    if order != [] {
      assert order[|order|-1] in order;
      DroppedLocal(ms, order[..|order|-1], a, b);
    }
  }

  lemma OneMoreDropped(ms: seq<Message>, budget: nat, front: seq<nat>, idx: nat, st: Prune)
    requires AreIndices(front, |ms|) && idx < |ms| && idx !in front && idx !in st.kept
    requires st.removed == Dropped(ms, front, st.kept)
    ensures Consider(ms, budget, idx, st).removed == Dropped(ms, front + [idx], Consider(ms, budget, idx, st).kept)
  {
    var next := Consider(ms, budget, idx, st);
    assert next.kept == st.kept || next.kept == st.kept + {idx};
    DroppedLocal(ms, front, st.kept, next.kept);
    assert (front + [idx])[..|front|] == front;
  }

  lemma {:induction false} RemovedIsDropped(ms: seq<Message>, budget: nat, order: seq<nat>)
    requires Distinct(order) && AreIndices(order, |ms|)
    ensures var st := ConsiderAll(ms, budget, order); st.removed == Dropped(ms, order, st.kept)
  {
    if order != [] {
      var front, idx := order[..|order|-1], order[|order|-1];
      var st := ConsiderAll(ms, budget, front);
      RemovedIsDropped(ms, budget, front);
      ConsiderAllPrunes(ms, budget, front);
      assert order == front + [idx];
      NotInFront(front, idx);
      assert idx !in st.kept;
      hide Pruning, Distinct, ConsiderAll;
      OneMoreDropped(ms, budget, front, idx, st);
    }
  }

  /** The report names the dropped messages in priority order, and the summarized one. */
  lemma ReportNamesMessages(ms: seq<Message>, budget: nat, focused: Message -> bool)
    ensures AreIndices(PrioritizedIndices(ms, focused), |ms|)
    ensures var st := PruneState(ms, budget, focused);
            && st.removed == Dropped(ms, PrioritizedIndices(ms, focused), st.kept)
            && (st.fallback == None ==> SummaryOf(ms, st.fallback) == [])
            && (st.fallback.Some? ==>
                  var i := st.fallback.value.0;
                  i < |ms| && SummaryOf(ms, st.fallback) == [Item(ms[i].id, ms[i].role, Summarized)])
  {
    PriorityIsPermutation(ms, focused);
    RemovedIsDropped(ms, budget, PrioritizedIndices(ms, focused));
    if PruneState(ms, budget, focused).fallback.Some? {
      SummaryStandsAlone(ms, budget, focused);
    }
  }
}
