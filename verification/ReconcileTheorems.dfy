/** Whole-run properties of reconciliation, against an arbitrary coordinator. */
module ReconcileTheorems {
  import opened Collections
  import opened Engine
  import opened Gate
  import opened Reconcile

  // ------------------------------------------------------------------- the invariant

  /** The status writes of reconciliation agree with the phase. */
  lemma StatusWriteKeepsInv(s: Instance, status: WorkflowStatus)
    requires Inv(s) && HasCurrent(s)
    requires || (status == WfCompleted && Current(s).status == Completed)
             || (status == WfDispatched && s.status == WfDispatched)
    ensures Inv(s.(status := status))
  {
    hide Untouched;
  }

  lemma CompletingCompletes(s: Instance, now: int)
    requires Inv(s) && HasCurrent(s) && !Terminal(Current(s).status)
    ensures var s1 := Apply(s, ReconcileComplete, now).0;
            s1.idx == s.idx && HasCurrent(s1) && Current(s1).status == Completed && s1.status != WfFailed
  {
    hide LogIsChain, Mirrors, Untouched;
  }

  /** The status a reconciliation writes after trying to advance. */
  function StatusAfter(s2: Instance, outcome: Outcome): Instance {
    match outcome
    case Moved(_) => s2.(status := WfDispatched)
    case Refused(AlreadyAtFinalPhase) => s2.(status := WfCompleted)
    case _ => s2
  }

  lemma AdvanceKeepsInv(s1: Instance, op: Op, now: int)
    requires Inv(s1) && HasCurrent(s1) && Current(s1).status == Completed
    ensures Inv(StatusAfter(Apply(s1, op, now).0, Apply(s1, op, now).1))
  {
    ApplyKeepsInv(s1, op, now);
    ApplyShape(s1, op, now);
    var (s2, outcome) := Apply(s1, op, now);
    if outcome.Moved? {
      hide Apply, StatusesAgree, Untouched, LogIsChain;
      StatusWriteKeepsInv(s2, WfDispatched);
    } else if outcome == Refused(AlreadyAtFinalPhase) {
      RefusalChangesNothing(s1, op, now);
      hide Apply, StatusesAgree, Untouched, LogIsChain;
      StatusWriteKeepsInv(s2, WfCompleted);
    }
  }

  lemma SettleKeepsInv(s: Instance, d: TaskDetail, w: World, forceAdvance: bool)
    requires Inv(s) && HasCurrent(s) && !Terminal(Current(s).status)
    ensures Inv(Settle(s, d, w, forceAdvance).0)
  {
    assert |s.phases| == |s.template.phases|;
    hide Inv, Apply, EvaluatorFor, AsksToStop;
    var s1 := Apply(s, ReconcileComplete, w.now).0;
    ApplyKeepsInv(s, ReconcileComplete, w.now);
    CompletingCompletes(s, w.now);
    StatusWriteKeepsInv(s1, WfCompleted);
    AdvanceKeepsInv(s1, Advance(EvaluatorFor(d, forceAdvance), w.artifacts), w.now);
  }

  /** Reconciliation keeps the engine's invariant. */
  lemma ReconcileKeepsInv(s: Instance, w: World, forceAdvance: bool)
    requires Inv(s)
    ensures Inv(After(s, w, forceAdvance))
  {
    hide Inv, Apply, Settle;
    if HasCurrent(s) && Awaits(s) {
      var taskId := Current(s).taskId.value;
      match w.canopy(taskId) {
        case None =>
        case Some(d) =>
          SettleKeepsInv(s, d, w, forceAdvance);
          ApplyKeepsInv(s, ReconcileFail(FailReason(taskId, d.status)), w.now);
      }
    }
  }

  // ----------------------------------------------------------------- runs of all kinds

  /** What can happen to a workflow: an engine call, or a reconciliation. */
  datatype Event = Call(op: Op, at: int) | Reconciled(w: World, forceAdvance: bool)

  function Happen(s: Instance, e: Event): (r: Instance)
    requires |s.phases| == |s.template.phases|
    ensures |r.phases| == |r.template.phases|
  {
    match e
    case Call(op, at) => Apply(s, op, at).0
    case Reconciled(w, forceAdvance) => After(s, w, forceAdvance)
  }

  function History(s: Instance, events: seq<Event>): (r: Instance)
    requires |s.phases| == |s.template.phases|
    ensures |r.phases| == |r.template.phases|
  {
    if events == [] then s else Happen(History(s, events[..|events|-1]), events[|events|-1])
  }

  /** A workflow after dispatch: every phase has a task, the first an agent. */
  function Dispatched(t: Template, tasks: seq<string>, agent: string, now: int): Instance
    requires |tasks| == |t.phases|
  {
    var s := New(t, now);
    s.(status := WfDispatched,
       phases := seq(|s.phases|, i requires 0 <= i < |s.phases| =>
                       s.phases[i].(taskId := Some(tasks[i]), agentId := if i == 0 then Some(agent) else None)))
  }

  /** Dispatch gives every phase its task and the first phase an agent, and changes nothing else. */
  lemma DispatchAssigns(t: Template, tasks: seq<string>, agent: string, now: int, i: nat)
    requires |tasks| == |t.phases| && i < |t.phases|
    ensures var s, p := Dispatched(t, tasks, agent, now), New(t, now).phases[i];
            && s.status == WfDispatched && s.template == t && s.idx == 0 && |s.phases| == |t.phases|
            && s.phases[i] == p.(taskId := Some(tasks[i]), agentId := if i == 0 then Some(agent) else None)
  {
  }

  lemma DispatchedSatisfiesInv(t: Template, tasks: seq<string>, agent: string, now: int)
    requires |tasks| == |t.phases|
    ensures Inv(Dispatched(t, tasks, agent, now))
  {
  }

  /** Every history of a dispatched workflow satisfies the invariant, whatever the coordinator answers. */
  lemma {:induction false} EveryHistorySatisfiesInv(s: Instance, events: seq<Event>)
    requires Inv(s)
    ensures Inv(History(s, events))
  {
    if events != [] {
      hide Inv, Apply, Reconcile.After;
      var before, e := History(s, events[..|events|-1]), events[|events|-1];
      EveryHistorySatisfiesInv(s, events[..|events|-1]);
      match e {
        case Call(op, at) => ApplyKeepsInv(before, op, at);
        case Reconciled(w, forceAdvance) => ReconcileKeepsInv(before, w, forceAdvance);
      }
    }
  }

  // --------------------------------------------------------------------- one call

  /** What a call can do: nothing, end the current phase, or end it and move one phase on. */
  ghost predicate EndsCurrent(s: Instance, s': Instance) {
    && s.idx <= s'.idx <= s.idx + 1 && s'.idx < |s'.phases| && |s'.phases| == |s.phases| && s'.template == s.template
    && Terminal(s'.phases[s.idx].status)
    && (s'.idx == s.idx + 1 ==> s'.phases[s.idx].status == Completed)
    && (forall i :: 0 <= i < |s.phases| ==>
          s'.phases[i].taskId == s.phases[i].taskId && (i != s.idx ==> s'.phases[i] == s.phases[i]))
    && s.transitions <= s'.transitions
  }

  lemma CompleteEnds(s: Instance, now: int)
    requires |s.phases| == |s.template.phases| && HasCurrent(s) && !Terminal(Current(s).status)
    ensures var s1 := Apply(s, ReconcileComplete, now).0;
            EndsCurrent(s, s1) && s1.idx == s.idx && Current(s1).status == Completed && s1.transitions == s.transitions
            && s1.blockedOn == s.blockedOn
  {
  }

  lemma AdvanceFromEnded(s: Instance, s1: Instance, ev: Evaluator, artifacts: Artifacts, now: int)
    requires |s.phases| == |s.template.phases| && HasCurrent(s)
    requires EndsCurrent(s, s1) && s1.idx == s.idx && Current(s1).status == Completed
    ensures EndsCurrent(s, Apply(s1, Advance(ev, artifacts), now).0)
    ensures !Apply(s1, Advance(ev, artifacts), now).1.Moved? ==> Apply(s1, Advance(ev, artifacts), now).0.idx == s.idx
  {
    hide AllPass;
  }

  lemma SettleEnds(s: Instance, d: TaskDetail, w: World, forceAdvance: bool)
    requires |s.phases| == |s.template.phases| && HasCurrent(s) && !Terminal(Current(s).status)
    ensures EndsCurrent(s, Settle(s, d, w, forceAdvance).0)
    ensures AsksToStop(d) ==> Settle(s, d, w, forceAdvance).0.idx == s.idx
  {
    hide Apply;
    CompleteEnds(s, w.now);
    AdvanceFromEnded(s, Apply(s, ReconcileComplete, w.now).0, EvaluatorFor(d, forceAdvance), w.artifacts, w.now);
  }

  lemma FailEnds(s: Instance, reason: string, now: int)
    requires |s.phases| == |s.template.phases| && HasCurrent(s) && !Terminal(Current(s).status)
    ensures EndsCurrent(s, Apply(s, ReconcileFail(reason), now).0)
    ensures Apply(s, ReconcileFail(reason), now).0.idx == s.idx
  {
  }

  /** The task record says the phase is over. */
  predicate Decided(w: World, s: Instance) {
    && Awaits(s)
    && var task := w.canopy(Current(s).taskId.value);
       task.Some? && (IsCompletedStatus(task.value.status) || IsFailedStatus(task.value.status))
  }

  /** A call either does nothing at all, or ends the current phase. */
  lemma CallEndsOrDoesNothing(s: Instance, w: World, forceAdvance: bool)
    requires |s.phases| == |s.template.phases|
    ensures if Decided(w, s) then EndsCurrent(s, After(s, w, forceAdvance)) else After(s, w, forceAdvance) == s
  {
    hide Apply, Settle, EndsCurrent;
    if Decided(w, s) {
      var taskId := Current(s).taskId.value;
      var d := w.canopy(taskId).value;
      SettleEnds(s, d, w, forceAdvance);
      FailEnds(s, FailReason(taskId, d.status), w.now);
    }
  }

  /** A stop signal never moves the index, under either evaluator. */
  lemma StopNeverAdvances(s: Instance, w: World, forceAdvance: bool)
    requires |s.phases| == |s.template.phases| && Awaits(s)
    requires w.canopy(Current(s).taskId.value).Some? && AsksToStop(w.canopy(Current(s).taskId.value).value)
    ensures After(s, w, forceAdvance).idx == s.idx
  {
    hide Apply, Settle, EndsCurrent;
    var taskId := Current(s).taskId.value;
    var d := w.canopy(taskId).value;
    SettleEnds(s, d, w, forceAdvance);
    FailEnds(s, FailReason(taskId, d.status), w.now);
  }

  // ------------------------------------------------------------------------- fixpoint

  /** Calls with fixed answers, each at its own time. */
  function Repeat(s: Instance, w: World, forceAdvance: bool, times: seq<int>): (r: Instance)
    requires |s.phases| == |s.template.phases|
    ensures |r.phases| == |r.template.phases|
  {
    if times == [] then s
    else After(Repeat(s, w, forceAdvance, times[..|times|-1]), w.(now := times[|times|-1]), forceAdvance)
  }

  /** Phases not yet passed. */
  function Remaining(s: Instance): int {
    |s.phases| - s.idx
  }

  lemma {:induction false} CallsUseUpPhases(s: Instance, w: World, forceAdvance: bool, times: seq<int>)
    requires |s.phases| == |s.template.phases|
    ensures var r := Repeat(s, w, forceAdvance, times);
            |r.phases| == |s.phases| && (Decided(w, r) ==> Remaining(r) + |times| <= Remaining(s))
    decreases |times|
  {
    if times != [] {
      hide Reconcile.After;
      var front, w' := times[..|times|-1], w.(now := times[|times|-1]);
      var before := Repeat(s, w, forceAdvance, front);
      CallsUseUpPhases(s, w, forceAdvance, front);
      CallEndsOrDoesNothing(before, w', forceAdvance);
      assert Decided(w', before) <==> Decided(w, before);
    }
  }

  /** With fixed answers, after as many calls as phases remain every further call changes nothing. */
  lemma ReconcileReachesFixpoint(s: Instance, w: World, forceAdvance: bool, times: seq<int>, later: int)
    requires |s.phases| == |s.template.phases| && |times| >= Remaining(s)
    ensures var r := Repeat(s, w, forceAdvance, times);
            After(r, w.(now := later), forceAdvance) == r
  {
    hide Reconcile.After;
    var r := Repeat(s, w, forceAdvance, times);
    CallsUseUpPhases(s, w, forceAdvance, times);
    CallEndsOrDoesNothing(r, w.(now := later), forceAdvance);
    assert Decided(w.(now := later), r) <==> Decided(w, r);
  }

  // --------------------------------------------------- evidence run against forced run

  function RunAll(s: Instance, worlds: seq<World>, forceAdvance: bool): (r: Instance)
    requires |s.phases| == |s.template.phases|
    ensures |r.phases| == |r.template.phases|
  {
    if worlds == [] then s
    else After(RunAll(s, worlds[..|worlds|-1], forceAdvance), worlds[|worlds|-1], forceAdvance)
  }

  /** The current phase is completed and the workflow stands still on it. */
  ghost predicate Frozen(s: Instance) {
    HasCurrent(s) && Current(s).status == Completed
  }

  /** `e` is frozen at a state that `f` went through; at the same index they differ at most in `blockedOn`. */
  ghost predicate Behind(e: Instance, f: Instance) {
    && Frozen(e) && e.idx <= f.idx < |f.phases| && |e.phases| == |f.phases| && e.template == f.template
    && (forall i :: 0 <= i <= e.idx ==> f.phases[i] == e.phases[i])
    && e.transitions <= f.transitions
    && (e.idx == f.idx ==> f == e.(blockedOn := f.blockedOn))
  }

  lemma BehindStays(e: Instance, f: Instance, w: World)
    requires |e.phases| == |e.template.phases| && |f.phases| == |f.template.phases| && Behind(e, f)
    ensures After(e, w, false) == e && Behind(e, After(f, w, true))
  {
    hide Reconcile.After;
    CallEndsOrDoesNothing(e, w, false);
    CallEndsOrDoesNothing(f, w, true);
    if Decided(w, f) {
      assert f.idx != e.idx;
    }
  }

  /** Advancing the same completed phase under both evaluators. */
  lemma AdvanceComparison(s: Instance, ev: Evaluator, artifacts: Artifacts, now: int)
    requires |s.phases| == |s.template.phases| && Frozen(s)
    ensures var (e, oe) := Apply(s, Advance(ev, artifacts), now);
            var (f, of) := Apply(s, Advance(Permissive(), artifacts), now);
            && (oe.Moved? ==> (e, oe) == (f, of))
            && (oe == Refused(AlreadyAtFinalPhase) <==> of == Refused(AlreadyAtFinalPhase))
            && (oe == Refused(AlreadyAtFinalPhase) ==> e == f)
            && (!oe.Moved? && oe != Refused(AlreadyAtFinalPhase) ==>
                  && e == s.(blockedOn := e.blockedOn) && oe.Refused?
                  && (of.Moved? ==>
                      f.idx == s.idx + 1 && f.phases == s.phases && f.template == s.template &&
                        s.transitions <= f.transitions && f.idx < |f.phases|)
                  && (!of.Moved? ==> f == s.(blockedOn := f.blockedOn) && of.Refused?))
  {
  }

  lemma SettleComparison(s: Instance, d: TaskDetail, w: World)
    requires |s.phases| == |s.template.phases| && HasCurrent(s) && !Terminal(Current(s).status)
    ensures var e, f := Settle(s, d, w, false).0, Settle(s, d, w, true).0;
            e == f || Behind(e, f)
  {
    hide Apply;
    var s1 := Apply(s, ReconcileComplete, w.now).0;
    CompleteEnds(s, w.now);
    AdvanceComparison(s1, ByEvidence(d.evidence), w.artifacts, w.now);
  }

  /** From equal states, one call leaves the runs equal or the evidence run behind. */
  lemma CallComparison(s: Instance, w: World)
    requires |s.phases| == |s.template.phases|
    ensures var e, f := After(s, w, false), After(s, w, true);
            e == f || Behind(e, f)
  {
    hide Apply, Settle, Behind;
    if Awaits(s) && w.canopy(Current(s).taskId.value).Some? {
      SettleComparison(s, w.canopy(Current(s).taskId.value).value, w);
    }
  }

  /** The run that checks evidence is always a prefix of the run that is forced. */
  lemma {:induction false} EvidenceRunIsPrefix(s: Instance, worlds: seq<World>)
    requires |s.phases| == |s.template.phases|
    ensures var e, f := RunAll(s, worlds, false), RunAll(s, worlds, true);
            e == f || Behind(e, f)
    decreases |worlds|
  {
    if worlds != [] {
      hide Reconcile.After, Behind;
      var front, w := worlds[..|worlds|-1], worlds[|worlds|-1];
      var e, f := RunAll(s, front, false), RunAll(s, front, true);
      EvidenceRunIsPrefix(s, front);
      if e == f {
        CallComparison(e, w);
      } else {
        BehindStays(e, f, w);
      }
    }
  }

  /** Nothing required is ever missing. */
  ghost predicate NothingMissing(w: World) {
    forall p :: w.artifacts(p) == None
  }

  /** When no artifact is missing the runs are equal, or the evidence run stands at a smaller index. */
  lemma {:induction false} PrefixWithoutMissingArtifacts(s: Instance, worlds: seq<World>)
    requires |s.phases| == |s.template.phases|
    requires forall k :: 0 <= k < |worlds| ==> NothingMissing(worlds[k])
    ensures var e, f := RunAll(s, worlds, false), RunAll(s, worlds, true);
            e == f || (Behind(e, f) && e.idx < f.idx)
    decreases |worlds|
  {
    if worlds != [] {
      hide Reconcile.After, Behind;
      var front, w := worlds[..|worlds|-1], worlds[|worlds|-1];
      var e, f := RunAll(s, front, false), RunAll(s, front, true);
      PrefixWithoutMissingArtifacts(s, front);
      if e == f {
        CallComparison(e, w);
        assert NothingMissing(worlds[|worlds|-1]);
        SameIndexMeansEqual(e, w);
      } else {
        BehindStays(e, f, w);
        IndexNeverFalls(f, w);
      }
    }
  }

  lemma IndexNeverFalls(s: Instance, w: World)
    requires |s.phases| == |s.template.phases|
    ensures s.idx <= After(s, w, true).idx
  {
    CallEndsOrDoesNothing(s, w, true);
  }

  /** The evidence evaluator closes the exit gate of the current phase, and the next phase lacks an artifact. */
  predicate BlocksBeforeArtifacts(s: Instance, d: TaskDetail, w: World)
    requires |s.phases| == |s.template.phases|
  {
    && s.idx + 1 < |s.phases|
    && !AllPass(s.template.phases[s.idx].exitGate, ByEvidence(d.evidence), s.phases[s.idx].phaseId)
    && w.artifacts(s.template.phases[s.idx + 1]).Some?
    && w.artifacts(s.template.phases[s.idx + 1]) != s.blockedOn
  }

  predicate CompletesNow(s: Instance, w: World) {
    && Awaits(s)
    && var task := w.canopy(Current(s).taskId.value);
       task.Some? && IsCompletedStatus(task.value.status) && !AsksToStop(task.value)
  }

  lemma AdvanceDivergence(s: Instance, d: TaskDetail, w: World)
    requires |s.phases| == |s.template.phases| && Frozen(s)
    ensures var e := Apply(s, Advance(ByEvidence(d.evidence), w.artifacts), w.now).0;
            var f := Apply(s, Advance(Permissive(), w.artifacts), w.now).0;
            e.idx == f.idx && e != f <==> BlocksBeforeArtifacts(s, d, w)
  {
  }

  lemma SettleDivergence(s: Instance, d: TaskDetail, w: World)
    requires |s.phases| == |s.template.phases| && HasCurrent(s) && !Terminal(Current(s).status) && !AsksToStop(d)
    ensures var e, f := Settle(s, d, w, false).0, Settle(s, d, w, true).0;
            e.idx == f.idx && e != f <==> BlocksBeforeArtifacts(s, d, w)
  {
    var s1 := Apply(s, ReconcileComplete, w.now).0;
    CompleteEnds(s, w.now);
    assert BlocksBeforeArtifacts(s1, d, w) <==> BlocksBeforeArtifacts(s, d, w) by {
      ReconcileCompleteKeepsIds(s, w.now);
    }
    hide Apply, BlocksBeforeArtifacts;
    AdvanceDivergence(s1, d, w);
    AdvanceComparison(s1, ByEvidence(d.evidence), w.artifacts, w.now);
    AdvanceOutcomeStatus(s1, ByEvidence(d.evidence), w.artifacts, w.now);
    AdvanceOutcomeStatus(s1, Permissive(), w.artifacts, w.now);
  }

  lemma AdvanceOutcomeStatus(s: Instance, ev: Evaluator, artifacts: Artifacts, now: int)
    requires |s.phases| == |s.template.phases| && Frozen(s)
    ensures var (r, outcome) := Apply(s, Advance(ev, artifacts), now);
            if outcome.Moved? then r.status == WfDispatched && r.idx == s.idx + 1 else r.idx == s.idx
  {
    hide AllPass;
  }

  lemma ReconcileCompleteKeepsIds(s: Instance, now: int)
    requires |s.phases| == |s.template.phases| && HasCurrent(s)
    ensures var s1 := Apply(s, ReconcileComplete, now).0;
            s1.template == s.template && s1.idx == s.idx && s1.blockedOn == s.blockedOn && HasCurrent(s1)
            && Current(s1).phaseId == Current(s).phaseId && |s1.phases| == |s.phases|
  {
  }

  /**
   * Exactly when one call from the same state leaves the two runs at the same index but different:
   * the forced run records the missing artifact that the evidence run, stopped at its exit gate, never looks for.
   */
  lemma SameIndexDivergence(s: Instance, w: World)
    requires |s.phases| == |s.template.phases|
    ensures var e, f := After(s, w, false), After(s, w, true);
            e.idx == f.idx && e != f <==>
            CompletesNow(s, w) && BlocksBeforeArtifacts(s, w.canopy(Current(s).taskId.value).value, w)
  {
    hide Apply, Settle, BlocksBeforeArtifacts;
    if CompletesNow(s, w) {
      SettleDivergence(s, w.canopy(Current(s).taskId.value).value, w);
    } else if Awaits(s) && w.canopy(Current(s).taskId.value).Some? {
      StopSettlesAlike(s, w.canopy(Current(s).taskId.value).value, w);
    }
  }

  /** Call `k` of the two runs is made from their common state and parts them at one index. */
  ghost predicate PartsAt(s: Instance, worlds: seq<World>, k: nat)
    requires |s.phases| == |s.template.phases| && k < |worlds|
  {
    var common := RunAll(s, worlds[..k], false);
    && common == RunAll(s, worlds[..k], true)
    && CompletesNow(common, worlds[k])
    && BlocksBeforeArtifacts(common, worlds[k].canopy(Current(common).taskId.value).value, worlds[k])
  }

  ghost predicate SomeCallParts(s: Instance, worlds: seq<World>)
    requires |s.phases| == |s.template.phases|
  {
    exists k: nat :: k < |worlds| && PartsAt(s, worlds, k)
  }

  lemma PartsAtFront(s: Instance, worlds: seq<World>, n: nat)
    requires |s.phases| == |s.template.phases| && n < |worlds|
    ensures SomeCallParts(s, worlds[..n+1]) <==> SomeCallParts(s, worlds[..n]) || PartsAt(s, worlds, n)
  {
    forall k: nat | k < n
      ensures PartsAt(s, worlds[..n+1], k) <==> PartsAt(s, worlds[..n], k)
    {
      assert worlds[..n+1][..k] == worlds[..n][..k];
    }
    assert worlds[..n+1][..n] == worlds[..n];
    assert PartsAt(s, worlds[..n+1], n) <==> PartsAt(s, worlds, n);
    hide PartsAt;
    if SomeCallParts(s, worlds[..n+1]) {
      var k: nat :| k < n + 1 && PartsAt(s, worlds[..n+1], k);
      assert k < n ==> PartsAt(s, worlds[..n], k);
    }
    if SomeCallParts(s, worlds[..n]) {
      var k: nat :| k < n && PartsAt(s, worlds[..n], k);
      assert PartsAt(s, worlds[..n+1], k);
    }
  }

  /** Once apart the runs stay apart, at one index or not, as they are. */
  lemma ApartStaysApart(e: Instance, f: Instance, w: World)
    requires |e.phases| == |e.template.phases| && |f.phases| == |f.template.phases| && Behind(e, f) && e != f
    ensures After(e, w, false) == e && After(f, w, true) != e
    ensures After(f, w, true).idx == e.idx <==> f.idx == e.idx
  {
    hide Reconcile.After;
    BehindStays(e, f, w);
    CallEndsOrDoesNothing(f, w, true);
  }

  /** The runs end at one index but different exactly when some call of theirs parted them so. */
  lemma {:induction false} RunsDivergeAtOneIndexIff(s: Instance, worlds: seq<World>, n: nat)
    requires |s.phases| == |s.template.phases| && n <= |worlds|
    ensures var e, f := RunAll(s, worlds[..n], false), RunAll(s, worlds[..n], true);
            e.idx == f.idx && e != f <==> SomeCallParts(s, worlds[..n])
    ensures RunAll(s, worlds[..n], false) == RunAll(s, worlds[..n], true) ==> !SomeCallParts(s, worlds[..n])
    decreases n
  {
    if n > 0 {
      var e, f, w := RunAll(s, worlds[..n-1], false), RunAll(s, worlds[..n-1], true), worlds[n-1];
      RunsDivergeAtOneIndexIff(s, worlds, n - 1);
      assert worlds[..n][..n-1] == worlds[..n-1];
      PartsAtFront(s, worlds, n - 1);
      EvidenceRunIsPrefix(s, worlds[..n-1]);
      hide Reconcile.After, Behind, BlocksBeforeArtifacts, CompletesNow, SomeCallParts;
      if e == f {
        SameIndexDivergence(e, w);
      } else {
        ApartStaysApart(e, f, w);
      }
    }
  }

  lemma StopSettlesAlike(s: Instance, d: TaskDetail, w: World)
    requires |s.phases| == |s.template.phases| && HasCurrent(s)
    ensures AsksToStop(d) ==> Settle(s, d, w, false) == Settle(s, d, w, true)
  {
  }

  lemma SameIndexMeansEqual(s: Instance, w: World)
    requires |s.phases| == |s.template.phases| && NothingMissing(w)
    ensures var e, f := After(s, w, false), After(s, w, true);
            e.idx == f.idx ==> e == f
  {
    hide Reconcile.After;
    SameIndexDivergence(s, w);
  }

  // ------------------------------------------------------------------- closed gates

  ghost predicate HoldsVerdictCondition(gate: seq<string>) {
    exists k :: 0 <= k < |gate| && NeedsVerdict(gate[k])
  }

  /** The way out of phase `i` holds a condition that no evidence can pass. */
  ghost predicate NeedsVerdictToLeave(t: Template, i: nat)
    requires i + 1 < |t.phases|
  {
    HoldsVerdictCondition(t.phases[i].exitGate) || HoldsVerdictCondition(t.phases[i+1].entryGate)
  }

  lemma ClosedGateHolds(s: Instance, e: Evidence, artifacts: Artifacts, now: int)
    requires |s.phases| == |s.template.phases| && s.idx + 1 < |s.phases| && NeedsVerdictToLeave(s.template, s.idx)
    ensures !Apply(s, Advance(ByEvidence(e), artifacts), now).1.Moved?
  {
    var here, next := s.template.phases[s.idx], s.template.phases[s.idx+1];
    if HoldsVerdictCondition(here.exitGate) {
      var k :| 0 <= k < |here.exitGate| && NeedsVerdict(here.exitGate[k]);
      ClosedToEvidence(here.exitGate, e, s.phases[s.idx].phaseId, k);
    } else {
      var k :| 0 <= k < |next.entryGate| && NeedsVerdict(next.entryGate[k]);
      ClosedToEvidence(next.entryGate, e, next.phaseId, k);
    }
  }

  lemma CallStaysBehindClosedGate(s: Instance, w: World, i: nat)
    requires |s.phases| == |s.template.phases| && i + 1 < |s.phases| && s.idx <= i && NeedsVerdictToLeave(s.template, i)
    ensures After(s, w, false).idx <= i
  {
    hide Apply, NeedsVerdictToLeave;
    CallEndsOrDoesNothing(s, w, false);
    if s.idx == i && Decided(w, s) {
      var taskId := Current(s).taskId.value;
      var d := w.canopy(taskId).value;
      var s1 := Apply(s, ReconcileComplete, w.now).0;
      CompleteEnds(s, w.now);
      AdvanceOutcomeStatus(s1, ByEvidence(d.evidence), w.artifacts, w.now);
      ClosedGateHolds(s1, d.evidence, w.artifacts, w.now);
      FailEnds(s, FailReason(taskId, d.status), w.now);
    }
  }

  /** No evidence run, however long and whatever is answered, passes such a phase. */
  lemma {:induction false} EvidenceRunStaysBehindClosedGate(s: Instance, worlds: seq<World>, i: nat)
    requires |s.phases| == |s.template.phases| && i + 1 < |s.phases| && s.idx <= i && NeedsVerdictToLeave(s.template, i)
    ensures RunAll(s, worlds, false).idx <= i && RunAll(s, worlds, false).template == s.template
    ensures |RunAll(s, worlds, false).phases| == |s.phases|
    decreases |worlds|
  {
    if worlds != [] {
      hide Reconcile.After, NeedsVerdictToLeave;
      var front, w := worlds[..|worlds|-1], worlds[|worlds|-1];
      EvidenceRunStaysBehindClosedGate(s, front, i);
      CallStaysBehindClosedGate(RunAll(s, front, false), w, i);
      CallEndsOrDoesNothing(RunAll(s, front, false), w, false);
    }
  }

  // ------------------------------------------------------------ what is not guaranteed

  /** The exit gate of the final phase is never evaluated: advancing reports the final phase first. */
  lemma FinalExitGateIsNotEnforced(s: Instance, ev: Evaluator, artifacts: Artifacts, now: int)
    requires |s.phases| == |s.template.phases| && Frozen(s) && s.idx == |s.phases| - 1
    ensures Apply(s, Advance(ev, artifacts), now) == (s, Refused(AlreadyAtFinalPhase))
    ensures Apply(s, CompleteWorkflow, now).0.status == WfCompleted
  {
  }

  /** A closed exit gate holds a completed phase back exactly when the phase is not the last. */
  lemma ExitGateIsEnforcedIff(s: Instance, ev: Evaluator, artifacts: Artifacts, now: int)
    requires |s.phases| == |s.template.phases| && Frozen(s)
    requires !AllPass(s.template.phases[s.idx].exitGate, ev, Current(s).phaseId)
    ensures Apply(s, Advance(ev, artifacts), now).1 == Refused(GateFailed(Current(s).phaseId)) <==>
              s.idx + 1 < |s.phases|
  {
  }

  // ------------------------------------------------------ what a call answers, field by field

  /** The phase after its task is completed, before anything else. */
  function Ended(s: Instance, now: int): Instance
    requires |s.phases| == |s.template.phases|
  {
    Apply(s, ReconcileComplete, now).0
  }

  /** A completed task whose signal does not say to continue: the workflow stops where it is. */
  lemma StopIsHonoured(s: Instance, w: World, forceAdvance: bool, d: TaskDetail)
    requires |s.phases| == |s.template.phases| && HasCurrent(s) && !Terminal(Current(s).status)
    requires Current(s).taskId.Some? && w.canopy(Current(s).taskId.value) == Some(d) && d.status == "completed"
    requires d.signal.Some? && d.signal.value.shouldContinue != Some(true)
    ensures var r := Ended(s, w.now).(status := WfCompleted);
            && ReconcileCurrent(s, w, forceAdvance) ==
                 Ok((r, StoppedByAgentSignal(Current(s).phaseId, d.signal.value.nextAction)))
            && r.idx == s.idx && r.status == WfCompleted
  {
  }

  /** A completed task without such a signal: the result is that of the advance, and never a stop. */
  lemma OtherwiseAdvances(s: Instance, w: World, forceAdvance: bool, d: TaskDetail)
    requires |s.phases| == |s.template.phases| && HasCurrent(s) && !Terminal(Current(s).status)
    requires Current(s).taskId.Some? && w.canopy(Current(s).taskId.value) == Some(d) && d.status == "completed"
    requires d.signal == None || d.signal.value.shouldContinue == Some(true)
    ensures var ev := if forceAdvance then Permissive() else ByEvidence(d.evidence);
            var (r, outcome) := Apply(Ended(s, w.now), Advance(ev, w.artifacts), w.now);
            var phaseId := Current(s).phaseId;
            ReconcileCurrent(s, w, forceAdvance) ==
              if outcome.Moved? then Ok((r.(status := WfDispatched), MarkedCompleted(phaseId, true)))
              else if outcome == Refused(AlreadyAtFinalPhase)
              then Ok((r.(status := WfCompleted), MarkedCompleted(phaseId, true)))
              else Ok((r, MarkedCompleted(phaseId, false)))
  {
    hide Apply;
  }

  /** Every other case of a reconciliation. */
  lemma OtherAnswers(s: Instance, w: World, forceAdvance: bool)
    requires |s.phases| == |s.template.phases| && HasCurrent(s)
    ensures var p, r := Current(s), ReconcileCurrent(s, w, forceAdvance);
            && (p.taskId == None ==> r == Ok((s, NoTaskId)))
            && (p.taskId.Some? ==>
                  var task := w.canopy(p.taskId.value);
                  if p.status == Completed || p.status == Failed || p.status == Skipped
                  then r == Ok((s, AlreadyTerminal(p.phaseId)))
                  else if task == None then r == Err(CanopyError)
                  else if task.value.status == "cancelled" || task.value.status == "canceled" then
                    var reason := "Canopy task " + p.taskId.value + " was " + task.value.status;
                    r == Ok((Apply(s, ReconcileFail(reason), w.now).0, MarkedFailed(p.phaseId, reason)))
                  else task.value.status != "completed" ==> r == Ok((s, StillActive)))
  {
    hide Apply, Settle;
    assert "completed"[1] != "cancelled"[1] && "completed"[1] != "canceled"[1];
  }

  /** The list of outcomes: one per phase, and only the current phase's can be a real one. */
  lemma OutcomesAreLocal(n: nat, idx: nat, o: PhaseOutcome)
    ensures |OutcomesOf(n, idx, o)| == n
    ensures forall i :: 0 <= i < n ==> OutcomesOf(n, idx, o)[i] == if i == idx then o else NoTaskId
  {
  }
}
