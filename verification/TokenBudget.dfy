/** What a compressed list can cost, in terms of the messages and the budget. */
module TokenBudget {
  import opened Collections
  import opened Context
  import opened ToolPairs

  // -------------------------------------------------------- what the repair does, read off the list

  /** Some result for `c` comes after a call of `c`. */
  ghost predicate Answered(ms: seq<Message>, c: string) {
    exists j :: AnsweredAt(ms, j, c)
  }

  ghost predicate AnsweredAt(ms: seq<Message>, j: int, c: string) {
    IsResult(ms, j, c) && CalledBefore(ms, j, c)
  }

  /** The calls without such a result. */
  ghost function Unanswered(ms: seq<Message>): set<string> {
    set i | 0 <= i < |ms| && ms[i].role == ToolCall && !Answered(ms, ms[i].id) :: ms[i].id
  }

  /** Message `m` survives after `ms`: no second call of an id, no second or uncalled result. */
  ghost predicate Survives(ms: seq<Message>, m: Message) {
    match m.role
    case ToolCall => !HasCall(ms, m.id)
    case ToolResult => m.callId.Some? && HasCall(ms, m.callId.value) && !Answered(ms, m.callId.value)
    case _ => true
  }

  /** The cost of the messages that survive. */
  ghost function SurvivingCost(ms: seq<Message>): nat {
    if ms == [] then 0
    else
      var front, m := ms[..|ms|-1], ms[|ms|-1];
      SurvivingCost(front) + if Survives(front, m) then TokenCost(m) else 0
  }

  lemma CalledBeforeEnd(ms: seq<Message>, m: Message, c: string)
    ensures CalledBefore(ms + [m], |ms|, c) <==> HasCall(ms, c)
  {
    assert forall i :: i < |ms| ==> (IsCall(ms, i, c) <==> IsCall(ms + [m], i, c));
    assert forall i :: IsCall(ms, i, c) ==> i < |ms|;
  }

  lemma AnsweredSnoc(ms: seq<Message>, m: Message, c: string)
    ensures Answered(ms + [m], c) <==>
              Answered(ms, c) || (m.role == ToolResult && m.callId == Some(c) && HasCall(ms, c))
  {
    CalledBeforeEnd(ms, m, c);
    forall j | j < |ms|
      ensures AnsweredAt(ms, j, c) <==> AnsweredAt(ms + [m], j, c)
    {
      assert forall i :: i < |ms| ==> (IsCall(ms, i, c) <==> IsCall(ms + [m], i, c));
    }
    assert AnsweredAt(ms + [m], |ms|, c) <==> m.role == ToolResult && m.callId == Some(c) && HasCall(ms, c);
    assert forall j :: AnsweredAt(ms + [m], j, c) ==> j <= |ms|;
    assert forall j :: AnsweredAt(ms, j, c) ==> j < |ms|;
  }

  lemma PositionsAreCalls(ms: seq<Message>)
    ensures Retain(ms).positions.Keys == Retain(ms).calls
  {
    RetainKeeps(ms);
  }

  /** Retention collects the called ids and the answered ids. */
  lemma {:induction false} RetainFinds(ms: seq<Message>, c: string)
    ensures c in Retain(ms).calls <==> HasCall(ms, c)
    ensures c in Retain(ms).results <==> Answered(ms, c)
  {
    if ms != [] {
      var front, m := ms[..|ms|-1], ms[|ms|-1];
      assert ms == front + [m];
      assert Retain(ms) == RetainOne(m, Retain(front));
      PositionsAreCalls(front);
      hide Retain, HasCall, Answered, ToolNameOf;
      RetainFinds(front, c);
      LongerHasMore(front, m, c);
      AnsweredSnoc(front, m, c);
    }
  }

  lemma UnansweredMember(ms: seq<Message>, c: string)
    ensures c in Unanswered(ms) <==> HasCall(ms, c) && !Answered(ms, c)
  {
    if HasCall(ms, c) {
      var i :| IsCall(ms, i, c);
      assert ms[i].id == c;
    }
    if c in Unanswered(ms) {
      var i :| 0 <= i < |ms| && ms[i].role == ToolCall && !Answered(ms, ms[i].id) && ms[i].id == c;
      assert IsCall(ms, i, c);
    }
  }

  lemma MissingAreUnanswered(ms: seq<Message>)
    ensures Missing(ms) == Unanswered(ms)
  {
    hide Retain, Unanswered, HasCall, Answered;
    forall c
      ensures c in Missing(ms) <==> c in Unanswered(ms)
    {
      RetainFinds(ms, c);
      UnansweredMember(ms, c);
    }
  }

  lemma RetainedIfSurvives(front: seq<Message>, m: Message)
    ensures var st := Retain(front);
            RetainOne(m, st).output == if Survives(front, m) then st.output + [m] else st.output
  {
    PositionsAreCalls(front);
    match m.role {
      case ToolCall => RetainFinds(front, m.id);
      case ToolResult =>
        if m.callId.Some? {
          RetainFinds(front, m.callId.value);
        }
      case _ =>
    }
  }

  lemma {:induction false} RetainedCost(ms: seq<Message>)
    ensures TotalCost(Retain(ms).output) == SurvivingCost(ms)
  {
    if ms != [] {
      var front, m := ms[..|ms|-1], ms[|ms|-1];
      RetainedCost(front);
      RetainedIfSurvives(front, m);
      TotalCostSnoc(Retain(front).output, m);
      hide RetainOne, TotalCost, Survives, TokenCost;
    }
  }

  // --------------------------------------------------------------- messages that fit the budget

  /** Messages that fit come out within the budget exactly when 9 tokens are left for every unanswered call. */
  lemma BudgetIsRespectedIff(ms: seq<Message>, budget: nat, focused: Message -> bool)
    requires TotalCost(ms) <= budget
    ensures TotalCost(Compressed(ms, budget, focused)) == SurvivingCost(ms) + 9 * |Unanswered(ms)|
    ensures TotalCost(Compressed(ms, budget, focused)) <= budget <==>
              SurvivingCost(ms) + 9 * |Unanswered(ms)| <= budget
  {
    FittingInputIsKept(ms, budget, focused);
    SanitizeConserves(ms);
    MissingAreUnanswered(ms);
    RetainedCost(ms);
  }

  lemma {:induction false} PairedScans(ms: seq<Message>)
    requires Paired(ms)
    ensures Scan(ms).Ids?
  {
    if ms != [] {
      var front, m, n := ms[..|ms|-1], ms[|ms|-1], |ms| - 1;
      assert ms == front + [m];
      PairedFront(front, m);
      PairedScans(front);
      ScanSnoc(front, m);
      LastIsSound(front, m);
      hide Scan, Paired;
      match m.role {
        case ToolCall => ScanFindsId(front, m.id);
        case ToolResult => ScanFindsId(front, m.callId.value);
        case _ =>
      }
    }
  }

  lemma PairedFront(front: seq<Message>, m: Message)
    requires Paired(front + [m])
    ensures Paired(front)
  {
    var ms := front + [m];
    assert forall i, c :: IsCall(front, i, c) ==> IsCall(ms, i, c);
    assert forall i, c :: IsResult(front, i, c) ==> IsResult(ms, i, c);
    forall j | 0 <= j < |front| && front[j].role == ToolResult
      ensures front[j].callId.Some? && CalledBefore(front, j, front[j].callId.value)
    {
      assert ms[j] == front[j] && CalledBefore(ms, j, ms[j].callId.value);
      var i :| i < j && IsCall(ms, i, ms[j].callId.value);
      assert IsCall(front, i, front[j].callId.value);
    }
  }

  lemma LastIsSound(front: seq<Message>, m: Message)
    requires Paired(front + [m])
    ensures m.role == ToolCall ==> !HasCall(front, m.id)
    ensures m.role == ToolResult ==>
              m.callId.Some? && HasCall(front, m.callId.value) && !HasResult(front, m.callId.value)
  {
    var ms, n := front + [m], |front|;
    assert ms[n] == m;
    if m.role == ToolCall {
      assert IsCall(ms, n, m.id);
      assert forall i :: IsCall(front, i, m.id) ==> IsCall(ms, i, m.id);
    } else if m.role == ToolResult {
      var c := m.callId.value;
      CalledBeforeEnd(front, m, c);
      assert IsResult(ms, n, c);
      assert forall j :: IsResult(front, j, c) ==> IsResult(ms, j, c);
    }
  }

  /** On a paired list nothing is dropped, so only the stubs count. */
  lemma PairedInputStaysWithinIff(ms: seq<Message>, budget: nat, focused: Message -> bool)
    requires Paired(ms) && TotalCost(ms) <= budget
    ensures TotalCost(Compressed(ms, budget, focused)) <= budget <==> TotalCost(ms) + 9 * |Unanswered(ms)| <= budget
  {
    PairedScans(ms);
    SoundListIsRetained(ms);
    RetainedCost(ms);
    BudgetIsRespectedIff(ms, budget, focused);
  }

  // ------------------------------------------------------------------------- the worst case

  /** The most that a budget can lead to. */
  function WorstCost(budget: nat): nat {
    if budget < 4 then 0 else budget + 9 * (budget / 4)
  }

  lemma CheapIsEmpty(ms: seq<Message>)
    requires TotalCost(ms) < 4
    ensures TotalCost(ms) == 0
  {
  }

  lemma WorstCostArithmetic(budget: nat, retained: nat, stubs: nat)
    requires 4 * stubs <= retained <= budget && (retained < 4 ==> retained == 0)
    ensures retained + 9 * stubs <= WorstCost(budget)
    ensures 4 * WorstCost(budget) <= 13 * budget
  {
  }

  /** No compressed list costs more. */
  lemma WorstCostIsBound(ms: seq<Message>, budget: nat, focused: Message -> bool)
    ensures TotalCost(Compressed(ms, budget, focused)) <= WorstCost(budget)
    ensures 4 * WorstCost(budget) <= 13 * budget
  {
    var pruned := Pruned(ms, budget, focused);
    assert Compressed(ms, budget, focused) == Sanitized(pruned);
    PruneFitsBudget(ms, budget, focused);
    SanitizeConserves(pruned);
    var retained := Retain(pruned).output;
    if TotalCost(retained) < 4 {
      CheapIsEmpty(retained);
    }
    hide *;
    WorstCostArithmetic(budget, TotalCost(retained), |Missing(pruned)|);
  }

  /** An id for every number. */
  function Name(i: nat): string {
    seq(i, k => 'c')
  }

  function Call(i: nat, words: seq<string>): Message {
    Message(Name(i), ToolCall, words, None, None)
  }

  /** `n` calls without words and without results. */
  function Calls(n: nat): seq<Message> {
    if n == 0 then [] else Calls(n - 1) + [Call(n - 1, [])]
  }

  /** A list whose calls all have distinct ids shorter than `n`, and no result. */
  ghost predicate OnlyCalls(ms: seq<Message>, n: nat) {
    && Scan(ms).Ids? && Scan(ms).answered == {} && |Scan(ms).calls| == n
    && forall c :: c in Scan(ms).calls ==> |c| < n
  }

  lemma OneMoreCall(ms: seq<Message>, n: nat, words: seq<string>)
    requires OnlyCalls(ms, n)
    ensures OnlyCalls(ms + [Call(n, words)], n + 1)
    ensures TotalCost(ms + [Call(n, words)]) == TotalCost(ms) + 4 + |words|
  {
    var m := Call(n, words);
    ScanSnoc(ms, m);
    TotalCostSnoc(ms, m);
    hide Scan, TotalCost;
    assert |m.id| == n && m.id !in Scan(ms).calls;
  }

  lemma {:induction false} CallsAreOnlyCalls(n: nat)
    ensures OnlyCalls(Calls(n), n) && TotalCost(Calls(n)) == 4 * n
  {
    if n > 0 {
      CallsAreOnlyCalls(n - 1);
      OneMoreCall(Calls(n - 1), n - 1, []);
      hide OnlyCalls, TotalCost;
    }
  }

  lemma OnlyCallsAreStubbed(ms: seq<Message>, n: nat)
    requires OnlyCalls(ms, n)
    ensures TotalCost(Sanitized(ms)) == TotalCost(ms) + 9 * n
  {
    SoundListIsRetained(ms);
    SanitizeConserves(ms);
    hide Scan, TotalCost, Retain, Sanitized;
    assert Missing(ms) == Scan(ms).calls;
  }

  /** `n + 1` calls, the last with `words`: every one of them is stubbed. */
  lemma CallsAreStubbed(n: nat, words: seq<string>)
    ensures var ms := Calls(n) + [Call(n, words)];
            && TotalCost(ms) == 4 * (n + 1) + |words|
            && TotalCost(Sanitized(ms)) == TotalCost(ms) + 9 * (n + 1)
  {
    CallsAreOnlyCalls(n);
    OneMoreCall(Calls(n), n, words);
    OnlyCallsAreStubbed(Calls(n) + [Call(n, words)], n + 1);
  }

  /** From budget 4 on, some list of messages reaches the worst case. */
  lemma WorstCostIsReached(budget: nat, focused: Message -> bool) returns (ms: seq<Message>)
    requires budget >= 4
    ensures TotalCost(Compressed(ms, budget, focused)) == WorstCost(budget)
  {
    var words := seq(budget % 4, k => "w");
    ms := Calls(budget / 4 - 1) + [Call(budget / 4 - 1, words)];
    CallsAreStubbed(budget / 4 - 1, words);
    FittingInputIsKept(ms, budget, focused);
  }

  /** Which limit a budget guarantees, whatever the messages: exactly those from the worst case on. */
  lemma LimitIsGuaranteedIff(budget: nat, limit: nat, focused: Message -> bool)
    ensures (forall ms :: TotalCost(Compressed(ms, budget, focused)) <= limit) <==> WorstCost(budget) <= limit
    ensures 13 * budget <= 4 * limit ==> WorstCost(budget) <= limit
  {
    forall ms
      ensures TotalCost(Compressed(ms, budget, focused)) <= WorstCost(budget)
    {
      WorstCostIsBound(ms, budget, focused);
    }
    if budget >= 4 {
      var ms := WorstCostIsReached(budget, focused);
    }
  }

  /** One wordless call, in a budget of 4, comes out at 13. */
  lemma StubsCanExceedBudget(focused: Message -> bool)
    ensures Calls(1) == [Call(0, [])] && TotalCost(Calls(1)) == 4
    ensures TotalCost(Compressed(Calls(1), 4, focused)) == 13
  {
    assert Calls(0) == [];
    assert Calls(1) == Calls(0) + [Call(0, [])];
    CallsAreStubbed(0, []);
    FittingInputIsKept(Calls(1), 4, focused);
  }

  // ------------------------------------------------------------- what the repair reports

  /** Why a message does not survive. */
  ghost function Refusal(ms: seq<Message>, m: Message): Note {
    if m.role == ToolCall then DuplicateCall
    else if m.callId == None then ResultWithoutCallId
    else if HasCall(ms, m.callId.value) then SecondResult
    else OrphanedResult
  }

  /** One entry per message that does not survive, in order, with its id, its role and the reason. */
  ghost function Refused(ms: seq<Message>): seq<Item> {
    if ms == [] then []
    else
      var front, m := ms[..|ms|-1], ms[|ms|-1];
      Refused(front) + if Survives(front, m) then [] else [Item(m.id, m.role, Refusal(front, m))]
  }

  lemma {:induction false} RemovedAreRefused(ms: seq<Message>)
    ensures Retain(ms).removed == Refused(ms)
  {
    if ms != [] {
      var front, m := ms[..|ms|-1], ms[|ms|-1];
      RemovedAreRefused(front);
      PositionsAreCalls(front);
      match m.role {
        case ToolCall => RetainFinds(front, m.id);
        case ToolResult =>
          if m.callId.Some? {
            RetainFinds(front, m.callId.value);
          }
        case _ =>
      }
      hide HasCall, Answered;
    }
  }
}
