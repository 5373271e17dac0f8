/** Repair of tool calls and results, and the whole compression pass. */
module ToolPairs {
  import opened Collections
  import opened Context

  // ----------------------------------------------------------------------- retention

  /** The variables of the retention loop. */
  datatype Retention = Retention(output: seq<Message>, calls: set<string>, results: set<string>, removed: seq<Item>,
                                 positions: map<string, nat>, names: map<string, string>)

  const NOTHING_RETAINED: Retention := Retention([], {}, {}, [], map[], map[])

  const DEFAULT_TOOL: string := "tool"

  function ToolNameOf(m: Message): string {
    match m.toolName
    case Some(n) => n
    case None => DEFAULT_TOOL
  }

  function Drop(m: Message, note: Note, st: Retention): Retention {
    st.(removed := st.removed + [Item(m.id, m.role, note)])
  }

  /** One message of the retention loop. */
  function RetainOne(m: Message, st: Retention): Retention {
    match m.role
    case ToolCall =>
      if m.id in st.calls then Drop(m, DuplicateCall, st)
      else st.(output := st.output + [m], calls := st.calls + {m.id},
               positions := st.positions[m.id := |st.output|], names := st.names[m.id := ToolNameOf(m)])
    case ToolResult =>
      (match m.callId
       case Some(c) =>
         if c !in st.positions then Drop(m, OrphanedResult, st)
         else if c in st.results then Drop(m, SecondResult, st)
         else st.(output := st.output + [m], results := st.results + {c})
       case None => Drop(m, ResultWithoutCallId, st))
    case _ => st.(output := st.output + [m])
  }

  function Retain(ms: seq<Message>): Retention {
    if ms == [] then NOTHING_RETAINED else RetainOne(ms[|ms|-1], Retain(ms[..|ms|-1]))
  }

  const STUB_WORDS: seq<string> := ["[stub", "result", "inserted", "after", "compression]"]

  function Stub(callId: string, toolName: string): (r: Message)
    ensures r.role == ToolResult && r.callId == Some(callId) && |r.words| == 5
  {
    Message(callId + "-stub", ToolResult, STUB_WORDS, Some(callId), Some(toolName))
  }

  /** Follow every call without a result by a stub result. */
  function Repair(output: seq<Message>, results: set<string>): seq<Message> {
    if output == [] then []
    else
      var m := output[|output|-1];
      Repair(output[..|output|-1], results) +
      if m.role == ToolCall && m.id !in results then [m, Stub(m.id, ToolNameOf(m))] else [m]
  }

  function Sanitized(ms: seq<Message>): seq<Message> {
    Repair(Retain(ms).output, Retain(ms).results)
  }

  /** The retained calls that need a stub. */
  function Missing(ms: seq<Message>): set<string> {
    Retain(ms).calls - Retain(ms).results
  }

  // ------------------------------------------------------------------ what a sound list is

  /** The call ids and the answered call ids of a list, unless the list breaks the pairing. */
  datatype Ids = Ids(calls: set<string>, answered: set<string>) | Broken

  /** Every call must be new, and every result must answer an earlier, unanswered call. */
  function Scan(ms: seq<Message>): Ids {
    if ms == [] then Ids({}, {}) else ScanOne(ms[|ms|-1], Scan(ms[..|ms|-1]))
  }

  function ScanOne(m: Message, ids: Ids): Ids {
    if ids.Broken? then Broken
    else match m.role
         case ToolCall => if m.id in ids.calls then Broken else ids.(calls := ids.calls + {m.id})
         case ToolResult =>
           if m.callId.Some? && m.callId.value in ids.calls && m.callId.value !in ids.answered
           then ids.(answered := ids.answered + {m.callId.value})
           else Broken
         case _ => ids
  }

  ghost predicate IsCall(ms: seq<Message>, i: int, c: string) {
    0 <= i < |ms| && ms[i].role == ToolCall && ms[i].id == c
  }

  ghost predicate IsResult(ms: seq<Message>, j: int, c: string) {
    0 <= j < |ms| && ms[j].role == ToolResult && ms[j].callId == Some(c)
  }

  /** Call ids are distinct, results answer earlier calls, and no call is answered twice. */
  ghost predicate Paired(ms: seq<Message>) {
    && (forall i, k, c :: IsCall(ms, i, c) && IsCall(ms, k, c) ==> i == k)
    && (forall j, k, c :: IsResult(ms, j, c) && IsResult(ms, k, c) ==> j == k)
    && (forall j :: 0 <= j < |ms| && ms[j].role == ToolResult ==>
          ms[j].callId.Some? && CalledBefore(ms, j, ms[j].callId.value))
  }

  ghost predicate CalledBefore(ms: seq<Message>, j: int, c: string) {
    exists i :: i < j && IsCall(ms, i, c)
  }

  /** Besides, every call is answered. */
  ghost predicate FullyPaired(ms: seq<Message>) {
    Paired(ms) && forall i, c :: IsCall(ms, i, c) ==> exists j :: i < j && IsResult(ms, j, c)
  }

  lemma ScanSnoc(ms: seq<Message>, m: Message)
    ensures Scan(ms + [m]) == ScanOne(m, Scan(ms))
  {
    assert (ms + [m])[..|ms|] == ms;
  }

  ghost predicate HasCall(ms: seq<Message>, c: string) {
    exists i :: IsCall(ms, i, c)
  }

  ghost predicate HasResult(ms: seq<Message>, c: string) {
    exists j :: IsResult(ms, j, c)
  }

  lemma LongerHasMore(ms: seq<Message>, m: Message, c: string)
    ensures HasCall(ms + [m], c) <==> HasCall(ms, c) || (m.role == ToolCall && m.id == c)
    ensures HasResult(ms + [m], c) <==> HasResult(ms, c) || (m.role == ToolResult && m.callId == Some(c))
  {
    assert forall i :: IsCall(ms, i, c) ==> IsCall(ms + [m], i, c);
    assert forall i :: IsCall(ms + [m], i, c) ==> i == |ms| || IsCall(ms, i, c);
    assert forall j :: IsResult(ms, j, c) ==> IsResult(ms + [m], j, c);
    assert forall j :: IsResult(ms + [m], j, c) ==> j == |ms| || IsResult(ms, j, c);
    assert m.role == ToolCall && m.id == c ==> IsCall(ms + [m], |ms|, c);
    assert m.role == ToolResult && m.callId == Some(c) ==> IsResult(ms + [m], |ms|, c);
  }

  lemma {:induction false} ScanFindsId(ms: seq<Message>, c: string)
    requires Scan(ms).Ids?
    ensures c in Scan(ms).calls <==> HasCall(ms, c)
    ensures c in Scan(ms).answered <==> HasResult(ms, c)
  {
    if ms != [] {
      var front, m := ms[..|ms|-1], ms[|ms|-1];
      assert ms == front + [m];
      ScanSnoc(front, m);
      hide Scan, HasCall, HasResult;
      ScanFindsId(front, c);
      LongerHasMore(front, m, c);
    }
  }

  lemma ScanFindsIds(ms: seq<Message>)
    requires Scan(ms).Ids?
    ensures forall c :: c in Scan(ms).calls <==> HasCall(ms, c)
    ensures forall c :: c in Scan(ms).answered <==> HasResult(ms, c)
  {
    forall c
      ensures c in Scan(ms).calls <==> HasCall(ms, c)
      ensures c in Scan(ms).answered <==> HasResult(ms, c)
    {
      ScanFindsId(ms, c);
    }
  }

  lemma {:induction false} ScanMeansPaired(ms: seq<Message>)
    requires Scan(ms).Ids?
    ensures Paired(ms)
  {
    if ms != [] {
      var front, m, n := ms[..|ms|-1], ms[|ms|-1], |ms| - 1;
      ScanMeansPaired(front);
      ScanFindsIds(front);
      assert forall i, c :: IsCall(ms, i, c) ==> i == n || IsCall(front, i, c);
      assert forall i, c :: IsResult(ms, i, c) ==> i == n || IsResult(front, i, c);
      assert m.role == ToolCall ==> !HasCall(front, m.id);
      assert m.role == ToolResult ==>
               m.callId.Some? && HasCall(front, m.callId.value) && !HasResult(front, m.callId.value);
      forall j | 0 <= j < |ms| && ms[j].role == ToolResult
        ensures ms[j].callId.Some? && CalledBefore(ms, j, ms[j].callId.value)
      {
        assert j < n ==> CalledBefore(front, j, front[j].callId.value);
        var i :| i < j && IsCall(front, i, ms[j].callId.value);
        assert IsCall(ms, i, ms[j].callId.value);
      }
    }
  }

  /** Equal sets of called and answered ids: every call has its one result, later in the list. */
  lemma ScanMeansFullyPaired(ms: seq<Message>)
    requires Scan(ms).Ids? && Scan(ms).calls == Scan(ms).answered
    ensures FullyPaired(ms)
  {
    ScanMeansPaired(ms);
    ScanFindsIds(ms);
    hide Scan;
    forall i, c | IsCall(ms, i, c)
      ensures exists j :: i < j && IsResult(ms, j, c)
    {
      assert HasCall(ms, c) && HasResult(ms, c);
      var j :| IsResult(ms, j, c);
      assert CalledBefore(ms, j, c);
    }
  }

  // ---------------------------------------------------------------- what retention keeps

  /** The maps point at the call and remember its tool name. */
  ghost predicate Positioned(st: Retention, c: string) {
    && c in st.positions && c in st.names
    && IsCall(st.output, st.positions[c], c)
    && st.names[c] == ToolNameOf(st.output[st.positions[c]])
  }

  /** What the retention loop keeps while it runs. */
  ghost predicate Retaining(ms: seq<Message>, st: Retention) {
    && Scan(st.output) == Ids(st.calls, st.results)
    && st.results <= st.calls
    && st.positions.Keys == st.names.Keys == st.calls
    && (forall c :: c in st.calls ==> Positioned(st, c))
    && |st.output| + |st.removed| == |ms|
  }

  lemma RetainOneScans(ms: seq<Message>, m: Message, st: Retention)
    requires Retaining(ms, st)
    ensures var next := RetainOne(m, st);
            && Scan(next.output) == Ids(next.calls, next.results) && next.results <= next.calls
            && next.positions.Keys == next.names.Keys == next.calls
            && |next.output| + |next.removed| == |ms| + 1
  {
    ScanSnoc(st.output, m);
    hide Scan, Positioned, ToolNameOf;
  }

  lemma RetainOnePositions(ms: seq<Message>, m: Message, st: Retention, c: string)
    requires Retaining(ms, st) && c in RetainOne(m, st).calls
    ensures Positioned(RetainOne(m, st), c)
  {
    hide Scan, ToolNameOf;
    assert c in st.calls ==> Positioned(st, c);
  }

  lemma RetainOneKeeps(ms: seq<Message>, m: Message, st: Retention)
    requires Retaining(ms, st)
    ensures Retaining(ms + [m], RetainOne(m, st))
  {
    RetainOneScans(ms, m, st);
    forall c | c in RetainOne(m, st).calls
      ensures Positioned(RetainOne(m, st), c)
    {
      RetainOnePositions(ms, m, st, c);
    }
    hide Scan, Positioned, RetainOne;
  }

  lemma {:induction false} RetainKeeps(ms: seq<Message>)
    ensures Retaining(ms, Retain(ms))
  {
    if ms != [] {
      var front, m := ms[..|ms|-1], ms[|ms|-1];
      assert ms == front + [m] && Retain(ms) == RetainOne(m, Retain(front));
      hide Retaining, RetainOne, Retain;
      RetainKeeps(front);
      RetainOneKeeps(front, m, Retain(front));
    }
  }

  /** Retention selects a subsequence of the messages, unchanged. */
  lemma {:induction false} RetainIsSubsequence(ms: seq<Message>) returns (at: seq<nat>)
    ensures |at| == |Retain(ms).output|
    ensures forall j, k :: 0 <= j < k < |at| ==> at[j] < at[k]
    ensures forall k :: 0 <= k < |at| ==> at[k] < |ms| && ms[at[k]] == Retain(ms).output[k]
  {
    if ms == [] {
      at := [];
    } else {
      at := RetainIsSubsequence(ms[..|ms|-1]);
      if |Retain(ms).output| > |at| {
        at := at + [|ms| - 1];
      }
    }
  }

  // ------------------------------------------------------------------------ after repair

  /** The ids called and answered in a repaired list. */
  function RepairedIds(ids: Ids, results: set<string>): Ids
    requires ids.Ids?
  {
    ids.(answered := ids.answered + (ids.calls - results))
  }

  lemma AnsweredScansAlike(m: Message, ids: Ids, results: set<string>)
    requires ids.Ids? && ScanOne(m, ids).Ids? && ScanOne(m, ids).answered <= results
    requires m.role == ToolCall ==> m.id in results
    ensures ScanOne(m, RepairedIds(ids, results)) == RepairedIds(ScanOne(m, ids), results)
  {
    if m.role == ToolCall {
      assert ids.calls - results == ids.calls + {m.id} - results;
    } else if m.role == ToolResult {
      var c := m.callId.value;
      assert ids.answered + (ids.calls - results) + {c} == ids.answered + {c} + (ids.calls - results);
    }
  }

  lemma StubbedScansAlike(m: Message, s: Message, ids: Ids, results: set<string>)
    requires ids.Ids? && ScanOne(m, ids).Ids? && ScanOne(m, ids).answered <= results
    requires m.role == ToolCall && m.id !in results && s.role == ToolResult && s.callId == Some(m.id)
    ensures ScanOne(s, ScanOne(m, RepairedIds(ids, results))) == RepairedIds(ScanOne(m, ids), results)
  {
    assert ids.answered + (ids.calls - results) + {m.id} == ids.answered + (ids.calls + {m.id} - results);
  }

  lemma RepairScansOne(front: seq<Message>, m: Message, results: set<string>)
    requires Scan(front).Ids? && Scan(front + [m]).Ids? && Scan(front + [m]).answered <= results
    requires Scan(Repair(front, results)) == RepairedIds(Scan(front), results)
    ensures Scan(Repair(front + [m], results)) == RepairedIds(Scan(front + [m]), results)
  {
    var r := Repair(front, results);
    assert (front + [m])[..|front|] == front;
    ScanSnoc(front, m);
    ScanSnoc(r, m);
    var s := Stub(m.id, ToolNameOf(m));
    if m.role == ToolCall && m.id !in results {
      assert Repair(front + [m], results) == (r + [m]) + [s];
      hide Scan, Repair, RepairedIds, ScanOne, Stub;
      ScanSnoc(r + [m], s);
      StubbedScansAlike(m, s, Scan(front), results);
    } else {
      assert Repair(front + [m], results) == r + [m];
      hide Scan, Repair, RepairedIds, ScanOne;
      AnsweredScansAlike(m, Scan(front), results);
    }
  }

  /** Repairing: the answered ids are those answered already and those stubbed. */
  lemma {:induction false} RepairScans(output: seq<Message>, results: set<string>)
    requires Scan(output).Ids? && Scan(output).answered <= results
    ensures Scan(Repair(output, results)) == RepairedIds(Scan(output), results)
  {
    if output == [] {
      var none: set<string> := {};
      assert none + (none - results) == none;
    } else {
      var front, m := output[..|output|-1], output[|output|-1];
      assert output == front + [m];
      ScanSnoc(front, m);
      RepairScans(front, results);
      RepairScansOne(front, m, results);
    }
  }

  /** After the repair every call has exactly one result, after it, and every result has its call before it. */
  lemma SanitizedIsFullyPaired(ms: seq<Message>)
    ensures FullyPaired(Sanitized(ms))
    ensures Scan(Sanitized(ms)) == Ids(Retain(ms).calls, Retain(ms).calls)
  {
    var st := Retain(ms);
    RetainKeeps(ms);
    RepairScans(st.output, st.results);
    assert st.results + (st.calls - st.results) == st.calls;
    ScanMeansFullyPaired(Sanitized(ms));
  }

  lemma SoundMessageIsRetained(ms: seq<Message>, m: Message, st: Retention)
    requires Retaining(ms, st) && ScanOne(m, Ids(st.calls, st.results)).Ids?
    ensures var next := RetainOne(m, st);
            && next.output == st.output + [m] && next.removed == st.removed
            && Ids(next.calls, next.results) == ScanOne(m, Ids(st.calls, st.results))
  {
    hide Scan, Positioned, ToolNameOf;
  }

  lemma {:induction false} SoundListIsRetained(ms: seq<Message>)
    requires Scan(ms).Ids?
    ensures Retain(ms).output == ms && Retain(ms).removed == []
    ensures Ids(Retain(ms).calls, Retain(ms).results) == Scan(ms)
  {
    if ms != [] {
      var front, m := ms[..|ms|-1], ms[|ms|-1];
      assert ms == front + [m];
      ScanSnoc(front, m);
      assert Retain(ms) == RetainOne(m, Retain(front));
      hide Scan, Retain, RetainOne, Retaining;
      SoundListIsRetained(front);
      RetainKeeps(front);
      SoundMessageIsRetained(front, m, Retain(front));
    }
  }

  lemma {:induction false} NothingToRepair(output: seq<Message>, results: set<string>)
    requires forall i, c :: IsCall(output, i, c) ==> c in results
    ensures Repair(output, results) == output
  {
    if output != [] {
      var front, n := output[..|output|-1], |output| - 1;
      assert forall i, c :: IsCall(front, i, c) ==> IsCall(output, i, c);
      assert output[n].role == ToolCall ==> IsCall(output, n, output[n].id);
      NothingToRepair(front, results);
      assert output == front + [output[n]];
    }
  }

  /** Sanitizing again changes nothing and has nothing to report. */
  lemma SanitizingIsIdempotent(ms: seq<Message>)
    ensures Sanitized(Sanitized(ms)) == Sanitized(ms)
    ensures Retain(Sanitized(ms)).removed == [] && Missing(Sanitized(ms)) == {}
  {
    var r := Sanitized(ms);
    SanitizedIsFullyPaired(ms);
    SoundListIsRetained(r);
    ScanFindsIds(r);
    NothingToRepair(r, Retain(r).results);
  }

  // ------------------------------------------------------------------ counting and costs

  function StubCount(output: seq<Message>, results: set<string>): nat {
    if output == [] then 0
    else
      var m := output[|output|-1];
      StubCount(output[..|output|-1], results) + if m.role == ToolCall && m.id !in results then 1 else 0
  }

  lemma StubCountSnoc(front: seq<Message>, m: Message, results: set<string>)
    ensures StubCount(front + [m], results) ==
              StubCount(front, results) + if m.role == ToolCall && m.id !in results then 1 else 0
  {
    assert (front + [m])[..|front|] == front;
  }

  lemma OneMoreMissing(m: Message, ids: Ids, results: set<string>)
    requires ids.Ids? && ScanOne(m, ids).Ids?
    ensures |ScanOne(m, ids).calls - results| ==
              |ids.calls - results| + if m.role == ToolCall && m.id !in results then 1 else 0
  {
    var before, after := ids.calls - results, ScanOne(m, ids).calls - results;
    if m.role == ToolCall && m.id !in results {
      assert after == before + {m.id};
    } else {
      assert after == before;
    }
  }

  lemma {:induction false} StubsAreMissingCalls(output: seq<Message>, results: set<string>)
    requires Scan(output).Ids?
    ensures StubCount(output, results) == |Scan(output).calls - results|
  {
    if output != [] {
      var front, m := output[..|output|-1], output[|output|-1];
      assert output == front + [m];
      ScanSnoc(front, m);
      StubCountSnoc(front, m, results);
      hide Scan, StubCount;
      StubsAreMissingCalls(front, results);
      OneMoreMissing(m, Scan(front), results);
    }
  }

  lemma TotalCostSnoc(ms: seq<Message>, m: Message)
    ensures TotalCost(ms + [m]) == TotalCost(ms) + TokenCost(m)
  {
    assert (ms + [m])[..|ms|] == ms;
  }

  /** Every stub costs 9; every stubbed call already cost at least 4. */
  lemma {:induction false} RepairCosts(output: seq<Message>, results: set<string>)
    ensures |Repair(output, results)| == |output| + StubCount(output, results)
    ensures TotalCost(Repair(output, results)) == TotalCost(output) + 9 * StubCount(output, results)
    ensures 4 * StubCount(output, results) <= TotalCost(output)
  {
    if output != [] {
      var front, m := output[..|output|-1], output[|output|-1];
      RepairCosts(front, results);
      var r := Repair(front, results);
      TotalCostSnoc(r, m);
      if m.role == ToolCall && m.id !in results {
        var s := Stub(m.id, ToolNameOf(m));
        TotalCostSnoc(r + [m], s);
        assert r + [m, s] == (r + [m]) + [s];
      }
    }
  }

  lemma RetainOneCosts(m: Message, st: Retention)
    ensures TotalCost(RetainOne(m, st).output) <= TotalCost(st.output) + TokenCost(m)
  {
    TotalCostSnoc(st.output, m);
    hide TotalCost, ToolNameOf;
  }

  lemma {:induction false} RetainCosts(ms: seq<Message>)
    ensures TotalCost(Retain(ms).output) <= TotalCost(ms)
  {
    if ms != [] {
      var front, m := ms[..|ms|-1], ms[|ms|-1];
      assert TotalCost(ms) == TotalCost(front) + TokenCost(m);
      assert Retain(ms) == RetainOne(m, Retain(front));
      hide TotalCost, Retain, RetainOne;
      RetainCosts(front);
      RetainOneCosts(m, Retain(front));
    }
  }

  /** Messages are conserved by the repair, stubs apart. */
  lemma SanitizeConserves(ms: seq<Message>)
    ensures |Sanitized(ms)| + |Retain(ms).removed| == |ms| + |Missing(ms)|
    ensures TotalCost(Sanitized(ms)) == TotalCost(Retain(ms).output) + 9 * |Missing(ms)|
    ensures 4 * |Missing(ms)| <= TotalCost(Retain(ms).output) <= TotalCost(ms)
  {
    var st := Retain(ms);
    RetainKeeps(ms);
    RetainCosts(ms);
    StubsAreMissingCalls(st.output, st.results);
    RepairCosts(st.output, st.results);
  }

  // -------------------------------------------------------------------------- the loops

  method RetainAndPrune(ms: seq<Message>) returns (st: Retention)
    ensures st == Retain(ms)
  {
    var retainedCalls: set<string>, retainedResults: set<string>, removed: seq<Item> := {}, {}, [];
    var output: seq<Message>, positions: map<string, nat>, callNames: map<string, string> := [], map[], map[];
    for k := 0 to |ms|
      invariant Retention(output, retainedCalls, retainedResults, removed, positions, callNames) == Retain(ms[..k])
    {
      assert ms[..k+1][..k] == ms[..k];
      var m := ms[k];
      if m.role == ToolCall {
        if m.id !in retainedCalls {
          retainedCalls := retainedCalls + {m.id};
          positions := positions[m.id := |output|];
          callNames := callNames[m.id := ToolNameOf(m)];
          output := output + [m];
        } else {
          removed := removed + [Item(m.id, m.role, DuplicateCall)];
        }
        continue;
      }
      if m.role == ToolResult {
        match m.callId {
          case Some(callId) =>
            if callId in positions {
              if callId !in retainedResults {
                retainedResults := retainedResults + {callId};
                output := output + [m];
              } else {
                removed := removed + [Item(m.id, m.role, SecondResult)];
              }
            } else {
              removed := removed + [Item(m.id, m.role, OrphanedResult)];
            }
          case None =>
            removed := removed + [Item(m.id, m.role, ResultWithoutCallId)];
        }
        continue;
      }
      output := output + [m];
    }
    assert ms[..|ms|] == ms;
    st := Retention(output, retainedCalls, retainedResults, removed, positions, callNames);
  }

  function StubItem(callId: string): Item {
    Item(callId + "-stub", ToolResult, Stubbed)
  }

  /** One report entry per stubbed call, in some order. */
  ghost predicate ReportsStubs(stubbed: seq<Item>, missing: set<string>) {
    exists order: seq<string> ::
      Distinct(order) && ToSet(order) == missing &&
        stubbed == seq(|order|, i requires 0 <= i < |order| => StubItem(order[i]))
  }

  ghost predicate StubbedAt(st: Retention, stubs: map<nat, seq<Message>>, c: string) {
    && c in st.positions && c in st.names
    && st.positions[c] in stubs && stubs[st.positions[c]] == [Stub(c, st.names[c])]
  }

  function Entry(stubs: map<nat, seq<Message>>, at: nat): seq<Message> {
    if at in stubs then stubs[at] else []
  }

  /** The stubs by the position of their call. */
  ghost predicate AreStubs(st: Retention, missing: set<string>, stubs: map<nat, seq<Message>>) {
    && (forall c :: c in missing ==> StubbedAt(st, stubs, c))
    && (forall i :: i in stubs ==> exists c :: c in missing && c in st.positions && st.positions[c] == i)
  }

  lemma StubAdded(ms: seq<Message>, st: Retention, done: set<string>, stubs: map<nat, seq<Message>>, c: string)
    requires Retaining(ms, st) && AreStubs(st, done, stubs) && done <= st.calls && c in st.calls && c !in done
    ensures Entry(stubs, st.positions[c]) == []
    ensures AreStubs(st, done + {c}, stubs[st.positions[c] := [] + [Stub(c, st.names[c])]])
  {
    assert Positioned(st, c);
    forall d | d in st.calls && st.positions[d] == st.positions[c]
      ensures d == c
    {
      assert Positioned(st, d);
    }
    assert [] + [Stub(c, st.names[c])] == [Stub(c, st.names[c])];
    var next := stubs[st.positions[c] := [Stub(c, st.names[c])]];
    forall i | i in next
      ensures exists d :: d in done + {c} && d in st.positions && st.positions[d] == i
    {
      if i != st.positions[c] {
        var d :| d in done && d in st.positions && st.positions[d] == i;
        assert d in done + {c};
      }
    }
  }

  /** The retained calls are visited in an arbitrary order. */
  method InsertMissingToolStubs(ghost ms: seq<Message>, st: Retention)
    returns (stubs: map<nat, seq<Message>>, stubbed: seq<Item>)
    requires Retaining(ms, st)
    ensures AreStubs(st, st.calls - st.results, stubs)
    ensures ReportsStubs(stubbed, st.calls - st.results)
  {
    stubs, stubbed := map[], [];
    ghost var order: seq<string>, done: set<string> := [], {};
    var todo := st.calls;
    while todo != {}
      invariant todo <= st.calls && done == st.calls - todo - st.results
      invariant AreStubs(st, done, stubs)
      invariant Distinct(order) && ToSet(order) == done
      invariant stubbed == seq(|order|, i requires 0 <= i < |order| => StubItem(order[i]))
    {
      var c :| c in todo;
      todo := todo - {c};
      if c in st.results {
        continue;
      }
      var at := st.positions[c];
      StubAdded(ms, st, done, stubs, c);
      stubs := stubs[at := Entry(stubs, at) + [Stub(c, st.names[c])]];
      stubbed := stubbed + [StubItem(c)];
      done := done + {c};
      order := order + [c];
    }
    assert done == st.calls - st.results;
  }

  /** Positions that carry a stub are those of the unanswered calls. */
  lemma StubPositions(ms: seq<Message>, st: Retention, stubs: map<nat, seq<Message>>, i: nat)
    requires Retaining(ms, st) && AreStubs(st, st.calls - st.results, stubs) && i < |st.output|
    ensures var m := st.output[i];
            Entry(stubs, i) == if m.role == ToolCall && m.id !in st.results then [Stub(m.id, ToolNameOf(m))] else []
  {
    var m := st.output[i];
    ScanMeansPaired(st.output);
    ScanFindsIds(st.output);
    hide Scan;
    if m.role == ToolCall {
      assert IsCall(st.output, i, m.id) && HasCall(st.output, m.id);
      assert Positioned(st, m.id);
      assert st.positions[m.id] == i;
      assert m.id !in st.results ==> StubbedAt(st, stubs, m.id);
    }
    if i in stubs {
      var c :| c in st.calls - st.results && c in st.positions && st.positions[c] == i;
      assert Positioned(st, c);
    }
  }

  lemma RepairSnoc(front: seq<Message>, m: Message, results: set<string>)
    ensures Repair(front + [m], results) ==
              Repair(front, results) + [m] +
              if m.role == ToolCall && m.id !in results then [Stub(m.id, ToolNameOf(m))] else []
  {
    assert (front + [m])[..|front|] == front;
  }

  method StitchStubs(ghost ms: seq<Message>, ghost st: Retention, output: seq<Message>, stubs: map<nat, seq<Message>>)
    returns (stitched: seq<Message>)
    requires Retaining(ms, st) && output == st.output && AreStubs(st, st.calls - st.results, stubs)
    ensures stitched == Repair(output, st.results)
  {
    stitched := [];
    for idx := 0 to |output|
      invariant stitched == Repair(output[..idx], st.results)
    {
      hide Retaining, AreStubs, Repair, Stub, ToolNameOf;
      TakeMore(output, idx);
      RepairSnoc(output[..idx], output[idx], st.results);
      StubPositions(ms, st, stubs, idx);
      stitched := stitched + [output[idx]];
      if idx in stubs {
        stitched := stitched + stubs[idx];
      }
    }
    assert output[..|output|] == output;
  }

  /** Remove what cannot be paired, answer what is left unanswered. */
  method SanitizeToolPairs(ms: seq<Message>) returns (messages: seq<Message>, report: Report)
    ensures messages == Sanitized(ms)
    ensures report.removed == Retain(ms).removed && report.summarized == []
    ensures ReportsStubs(report.stubbed, Missing(ms))
  {
    var st := RetainAndPrune(ms);
    RetainKeeps(ms);
    var stubs, stubbed := InsertMissingToolStubs(ms, st);
    if stubs == map[] {
      NoStubsNothingToRepair(ms, st, stubs);
      messages := st.output;
    } else {
      messages := StitchStubs(ms, st, st.output, stubs);
    }
    report := Report(st.removed, [], stubbed);
  }

  lemma NoStubsNothingToRepair(ms: seq<Message>, st: Retention, stubs: map<nat, seq<Message>>)
    requires Retaining(ms, st) && AreStubs(st, st.calls - st.results, stubs) && stubs == map[]
    ensures Repair(st.output, st.results) == st.output
  {
    forall i, c | IsCall(st.output, i, c)
      ensures c in st.results
    {
      StubPositions(ms, st, stubs, i);
    }
    NothingToRepair(st.output, st.results);
  }

  lemma ReportCounts(stubbed: seq<Item>, missing: set<string>)
    requires ReportsStubs(stubbed, missing)
    ensures |stubbed| == |missing|
  {
    var order: seq<string> :|
      Distinct(order) && ToSet(order) == missing &&
        stubbed == seq(|order|, i requires 0 <= i < |order| => StubItem(order[i]));
    DistinctCardinality(order);
  }

  /** The compressed messages. */
  function Compressed(ms: seq<Message>, budget: nat, focused: Message -> bool): seq<Message> {
    Sanitized(Pruned(ms, budget, focused))
  }

  /**
   * The whole pass. Messages are conserved: what came in and was stubbed equals what goes out and
   * was removed. Stubs may push the output over the budget, by at most a factor 13/4.
   */
  method Compress(ms: seq<Message>, budget: nat, focused: Message -> bool)
    returns (r: Result<(seq<Message>, Report), ContextError>)
    ensures budget == 0 <==> r.Err?
    ensures r.Ok? ==> r.value.0 == Compressed(ms, budget, focused) && FullyPaired(r.value.0)
    ensures r.Ok? ==> |r.value.0| + |r.value.1.removed| == |ms| + |r.value.1.stubbed|
    ensures r.Ok? ==> TotalCost(r.value.0) <= budget + 9 * |r.value.1.stubbed| && 4 * |r.value.1.stubbed| <= budget
    ensures r.Ok? ==> 4 * TotalCost(r.value.0) <= 13 * budget
    ensures r.Ok? ==> |r.value.1.summarized| <= 1
  {
    if budget == 0 {
      return Err(InvalidBudget);
    }
    var pruned, report := PruneToBudget(ms, budget, focused);
    var messages, sanitization := SanitizeToolPairs(pruned);
    PruneFitsBudget(ms, budget, focused);
    SanitizeConserves(pruned);
    SanitizedIsFullyPaired(pruned);
    ReportCounts(sanitization.stubbed, Missing(pruned));
    r := Ok((messages, Report(report.removed + sanitization.removed, report.summarized,
                              report.stubbed + sanitization.stubbed)));
  }

  // --------------------------------------------------------------- what a stub says

  /** What follows an unanswered call in the repaired list. */
  ghost predicate StubFollows(ms: seq<Message>, i: nat, m: Message)
    requires i < |ms|
  {
    && i + 1 < |ms|
    && ms[i+1].id == m.id + "-stub" && ms[i+1].role == ToolResult && ms[i+1].callId == Some(m.id)
    && ms[i+1].words == ["[stub", "result", "inserted", "after", "compression]"]
    && ms[i+1].toolName == Some(if m.toolName.Some? then m.toolName.value else "tool")
  }

  /** A call that is not answered is followed by a result that names it and its tool. */
  lemma {:induction false} RepairFollowsCalls(output: seq<Message>, results: set<string>, i: nat)
    requires i < |Repair(output, results)|
    requires Repair(output, results)[i].role == ToolCall && Repair(output, results)[i].id !in results
    ensures StubFollows(Repair(output, results), i, Repair(output, results)[i])
  {
    var front, m := output[..|output|-1], output[|output|-1];
    var before := Repair(front, results);
    if i < |before| {
      RepairFollowsCalls(front, results, i);
    }
  }

  /** The report entry of a stub names it. */
  lemma StubIsReported(stubbed: seq<Item>, missing: set<string>, c: string)
    requires ReportsStubs(stubbed, missing)
    ensures c in missing <==> Item(c + "-stub", ToolResult, Stubbed) in stubbed
  {
    var order: seq<string> :|
      Distinct(order) && ToSet(order) == missing &&
      stubbed == seq(|order|, i requires 0 <= i < |order| => StubItem(order[i]));
    if c in missing {
      assert c in ToSet(order);
      var i :| 0 <= i < |order| && order[i] == c;
      assert stubbed[i] == StubItem(c);
    }
    if Item(c + "-stub", ToolResult, Stubbed) in stubbed {
      var i :| 0 <= i < |stubbed| && stubbed[i] == Item(c + "-stub", ToolResult, Stubbed);
      SuffixedAlike(c, order[i], "-stub");
      assert order[i] in ToSet(order);
    }
  }

  lemma SuffixedAlike(a: string, b: string, suffix: string)
    requires a + suffix == b + suffix
    ensures a == b
  {
    assert |a + suffix| == |b + suffix|;
    assert a == (a + suffix)[..|a|] && b == (b + suffix)[..|b|];
  }
}
