/** Which workflow statuses are final, and workflows that reach the states in question. */
module Finality {
  import opened Collections
  import opened Engine
  import opened Gate
  import opened Reconcile
  import opened ReconcileTheorems

  // ------------------------------------------------------------------------- cancelling

  datatype CancelError = AlreadyOver | TaskNotFound

  /** The cancel command writes the workflow's status and leaves its phases alone. */
  function CancelWorkflow(s: Instance): Result<Instance, CancelError> {
    if s.status == WfCompleted || s.status == WfFailed then Err(AlreadyOver)
    else Ok(s.(status := WfCancelled))
  }

  const CANCEL_REASON: string := "task cancelled"

  /** The first phase that has the task. */
  function PhaseWithTask(phases: seq<PhaseState>, task: string): (r: Option<nat>)
    ensures r.Some? ==> r.value < |phases| && phases[r.value].taskId == Some(task)
    ensures r.Some? ==> forall i :: 0 <= i < r.value ==> phases[i].taskId != Some(task)
    ensures r == None ==> forall i :: 0 <= i < |phases| ==> phases[i].taskId != Some(task)
  {
    if phases == [] then None
    else match PhaseWithTask(phases[..|phases|-1], task)
         case Some(i) => Some(i)
         case None => if phases[|phases|-1].taskId == Some(task) then Some(|phases| - 1) else None
  }

  /** Cancelling a task fails its phase, whatever its status, and cancels the workflow. */
  function CancelTask(s: Instance, task: string, now: int): Result<Instance, CancelError> {
    match PhaseWithTask(s.phases, task)
    case None => Err(TaskNotFound)
    case Some(i) =>
      var p := s.phases[i].(status := Failed, completedAt := Some(now), failureReason := Some(CANCEL_REASON));
      Ok(s.(phases := s.phases[i := p], status := WfCancelled))
  }

  /** An event of the workflow's history, or a cancellation. */
  datatype Action = Did(event: Event) | WorkflowCancelled | TaskCancelled(task: string, at: int)

  function Act(s: Instance, a: Action): (r: Instance)
    requires |s.phases| == |s.template.phases|
    ensures |r.phases| == |r.template.phases|
  {
    match a
    case Did(e) => Happen(s, e)
    case WorkflowCancelled => (match CancelWorkflow(s) case Ok(r) => r case Err(_) => s)
    case TaskCancelled(task, at) => (match CancelTask(s, task, at) case Ok(r) => r case Err(_) => s)
  }

  function Life(s: Instance, actions: seq<Action>): (r: Instance)
    requires |s.phases| == |s.template.phases|
    ensures |r.phases| == |r.template.phases|
  {
    if actions == [] then s else Act(Life(s, actions[..|actions|-1]), actions[|actions|-1])
  }

  /** What cancelling keeps too: phases mirror the template, and none is skipped. */
  ghost predicate Shaped(s: Instance) {
    Mirrors(s) && forall i :: 0 <= i < |s.phases| ==> s.phases[i].status != Skipped
  }

  lemma InvIsShaped(s: Instance)
    requires Inv(s)
    ensures Shaped(s)
  {
    forall i | 0 <= i < |s.phases|
      ensures s.phases[i].status != Skipped
    {
      assert i > s.idx ==> Untouched(s.phases[i]);
    }
  }

  lemma ApplyKeepsShaped(s: Instance, op: Op, now: int)
    requires Shaped(s)
    ensures Shaped(Apply(s, op, now).0)
  {
    ApplyShape(s, op, now);
    forall i: nat | i < |s.phases|
      ensures Apply(s, op, now).0.phases[i].status != Skipped
    {
      StatusChangesIffCaused(s, op, now, i, Skipped);
    }
    hide Apply;
  }

  lemma SettleKeepsShaped(s: Instance, d: TaskDetail, w: World, forceAdvance: bool)
    requires Shaped(s) && HasCurrent(s)
    ensures Shaped(Settle(s, d, w, forceAdvance).0)
  {
    var s1 := Apply(s, ReconcileComplete, w.now).0;
    ApplyKeepsShaped(s, ReconcileComplete, w.now);
    ApplyKeepsShaped(s1, Advance(EvaluatorFor(d, forceAdvance), w.artifacts), w.now);
    hide Apply;
  }

  lemma HappenKeepsShaped(s: Instance, e: Event)
    requires Shaped(s)
    ensures Shaped(Happen(s, e))
  {
    hide Apply, Settle;
    match e {
      case Call(op, at) => ApplyKeepsShaped(s, op, at);
      case Reconciled(w, forceAdvance) =>
        if Awaits(s) && w.canopy(Current(s).taskId.value).Some? {
          var taskId := Current(s).taskId.value;
          var d := w.canopy(taskId).value;
          SettleKeepsShaped(s, d, w, forceAdvance);
          ApplyKeepsShaped(s, ReconcileFail(FailReason(taskId, d.status)), w.now);
        }
    }
  }

  /** Every life of a dispatched workflow, cancellations included, keeps that shape. */
  lemma {:induction false} EveryLifeIsShaped(s: Instance, actions: seq<Action>)
    requires Shaped(s)
    ensures Shaped(Life(s, actions))
  {
    if actions != [] {
      EveryLifeIsShaped(s, actions[..|actions|-1]);
      var before := Life(s, actions[..|actions|-1]);
      hide Life, Happen;
      match actions[|actions|-1] {
        case Did(e) => HappenKeepsShaped(before, e);
        case WorkflowCancelled =>
        case TaskCancelled(task, at) =>
      }
    }
  }

  lemma {:induction false} HistoryKeepsShaped(s: Instance, events: seq<Event>)
    requires Shaped(s)
    ensures Shaped(History(s, events))
  {
    if events != [] {
      HistoryKeepsShaped(s, events[..|events|-1]);
      hide Happen;
      HappenKeepsShaped(History(s, events[..|events|-1]), events[|events|-1]);
    }
  }

  // --------------------------------------------------------------- which statuses are final

  /** Failed at a failed phase, or completed at a completed last one; without phases nothing is left to do. */
  predicate Settled(s: Instance) {
    || s.phases == []
    || (HasCurrent(s) && Current(s).status == Failed && s.status == WfFailed)
    || (s.idx + 1 == |s.phases| && Current(s).status == Completed && s.status == WfCompleted)
  }

  lemma CallStaysSettled(s: Instance, op: Op, now: int)
    requires Mirrors(s) && Settled(s)
    ensures Settled(Apply(s, op, now).0) && Apply(s, op, now).0.status == s.status
  {
    hide Untouched, AllPass;
  }

  lemma EventStaysSettled(s: Instance, e: Event)
    requires Mirrors(s) && Settled(s)
    ensures Settled(Happen(s, e)) && Happen(s, e).status == s.status
  {
    match e {
      case Call(op, at) => CallStaysSettled(s, op, at);
      case Reconciled(w, forceAdvance) => CallEndsOrDoesNothing(s, w, forceAdvance);
    }
  }

  lemma {:induction false} SettledIsFinal(s: Instance, events: seq<Event>)
    requires Shaped(s) && Settled(s)
    ensures Settled(History(s, events)) && History(s, events).status == s.status
  {
    if events != [] {
      var front := events[..|events|-1];
      SettledIsFinal(s, front);
      HistoryKeepsShaped(s, front);
      hide Happen, Settled;
      EventStaysSettled(History(s, front), events[|events|-1]);
    }
  }

  lemma HistoryOfOne(s: Instance, e: Event)
    requires |s.phases| == |s.template.phases|
    ensures History(s, [e]) == Happen(s, e)
  {
    assert [e][..0] == [];
  }

  lemma HistoryOfTwo(s: Instance, d: Event, e: Event)
    requires |s.phases| == |s.template.phases|
    ensures History(s, [d, e]) == Happen(Happen(s, d), e)
  {
    assert [d, e][..1] == [d];
    HistoryOfOne(s, d);
  }

  lemma {:induction false} HistoryCons(s: Instance, e: Event, events: seq<Event>)
    requires |s.phases| == |s.template.phases|
    ensures History(s, [e] + events) == History(Happen(s, e), events)
  {
    if events == [] {
      assert [e] + events == [e];
      HistoryOfOne(s, e);
    } else {
      var front := events[..|events|-1];
      assert ([e] + events)[..|events|] == [e] + front;
      HistoryCons(s, e, front);
    }
  }

  function NothingNeeded(): Artifacts {
    (p: Phase) => None
  }

  function FailEvent(): Event {
    Event.Call(ReconcileFail(""), 0)
  }

  function LeaveEvent(): Event {
    Event.Call(Advance(Permissive(), NothingNeeded()), 0)
  }

  /** The call that ends a completed phase: leave it, or complete the workflow at the last one. */
  function EndEvent(s: Instance): Event {
    if s.idx + 1 < |s.phases| then LeaveEvent() else Event.Call(CompleteWorkflow, 0)
  }

  lemma UnfinishedCanFail(s: Instance)
    requires Mirrors(s) && HasCurrent(s) && Current(s).status != Completed && Current(s).status != Skipped
    ensures Happen(s, FailEvent()).status == WfFailed
  {
  }

  lemma CompletedCanEnd(s: Instance)
    requires Mirrors(s) && HasCurrent(s) && Current(s).status == Completed
    ensures var r := Happen(s, EndEvent(s));
            if s.idx + 1 < |s.phases| then r.status == WfDispatched && r.idx == s.idx + 1 && |r.phases| == |s.phases|
            else r.status == WfCompleted
  {
  }

  /** A live phase in a workflow marked as failed can be completed and ended. */
  lemma LiveInFailedCanChange(s: Instance)
    requires Mirrors(s) && HasCurrent(s) && !Terminal(Current(s).status) && s.status == WfFailed
    ensures var done := Event.Call(ReconcileComplete, 0);
            Happen(Happen(s, done), EndEvent(s)).status != WfFailed
  {
    var done := Happen(s, Event.Call(ReconcileComplete, 0));
    assert Mirrors(done) && Current(done).status == Completed && EndEvent(done) == EndEvent(s);
    CompletedCanEnd(done);
  }

  /** Out of every other state some history leads to another status. */
  lemma UnsettledCanChange(s: Instance) returns (events: seq<Event>)
    requires Shaped(s) && !Settled(s)
    ensures History(s, events).status != s.status
    decreases |s.phases| - s.idx
  {
    hide History, Happen, LogIsChain;
    if Current(s).status == Completed {
      CompletedCanEnd(s);
      HistoryOfOne(s, EndEvent(s));
      events := [EndEvent(s)];
      if s.idx + 1 < |s.phases| && s.status == WfDispatched {
        HappenKeepsShaped(s, LeaveEvent());
        var later := UnsettledCanChange(Happen(s, LeaveEvent()));
        HistoryCons(s, LeaveEvent(), later);
        events := [LeaveEvent()] + later;
      }
    } else if s.status == WfFailed {
      LiveInFailedCanChange(s);
      HistoryOfTwo(s, Event.Call(ReconcileComplete, 0), EndEvent(s));
      events := [Event.Call(ReconcileComplete, 0), EndEvent(s)];
    } else {
      UnfinishedCanFail(s);
      HistoryOfOne(s, FailEvent());
      events := [FailEvent()];
    }
  }

  /** A status stays for ever, whatever the engine and the coordinator do, exactly in the settled states. */
  lemma StatusIsFinalIff(s: Instance)
    requires Shaped(s)
    ensures (forall events :: History(s, events).status == s.status) <==> Settled(s)
  {
    assert |s.phases| == |s.template.phases|;
    hide Shaped, Settled, History;
    if Settled(s) {
      forall events
        ensures History(s, events).status == s.status
      {
        SettledIsFinal(s, events);
      }
    } else {
      var events := UnsettledCanChange(s);
    }
  }

  /** A completed workflow is final exactly when it stands at its last phase. */
  lemma CompletedIsFinalIff(s: Instance)
    requires Inv(s) && s.status == WfCompleted
    ensures (forall events :: History(s, events).status == WfCompleted) <==> s.idx + 1 == |s.phases|
  {
    InvIsShaped(s);
    StatusIsFinalIff(s);
    hide History;
  }

  /** A failed workflow is final. */
  lemma FailedIsFinal(s: Instance, events: seq<Event>)
    requires Inv(s) && s.status == WfFailed
    ensures History(s, events).status == WfFailed
  {
    InvIsShaped(s);
    SettledIsFinal(s, events);
  }

  /** A workflow completed by an agent's stop before its final phase can be advanced. */
  lemma StoppedWorkflowCanResume(s: Instance, artifacts: Artifacts, now: int)
    requires Inv(s) && s.status == WfCompleted
    ensures Apply(s, Advance(Permissive(), artifacts), now).0.status == WfDispatched <==>
              s.idx + 1 < |s.phases| && artifacts(s.template.phases[s.idx+1]) == None
  {
  }

  ghost predicate AtSkipped(s: Instance) {
    Mirrors(s) && HasCurrent(s) && Current(s).status == Skipped
  }

  lemma NothingMovesSkipped(s: Instance, e: Event)
    requires AtSkipped(s) && s.status == WfCancelled
    ensures AtSkipped(Happen(s, e)) && Happen(s, e).status == WfCancelled
  {
    match e {
      case Call(op, at) =>
      case Reconciled(w, forceAdvance) => CallEndsOrDoesNothing(s, w, forceAdvance);
    }
  }

  lemma {:induction false} SkippedStaysCancelled(s: Instance, events: seq<Event>)
    requires AtSkipped(s) && s.status == WfCancelled
    ensures AtSkipped(History(s, events)) && History(s, events).status == WfCancelled
  {
    if events != [] {
      SkippedStaysCancelled(s, events[..|events|-1]);
      hide Happen, AtSkipped;
      NothingMovesSkipped(History(s, events[..|events|-1]), events[|events|-1]);
    }
  }

  /** The event that moves a cancelled workflow on. */
  function MovingEvent(s: Instance): Event
    requires HasCurrent(s)
  {
    if Current(s).status == Completed then EndEvent(s) else FailEvent()
  }

  /**
   * A cancelled workflow, however it was cancelled, is final exactly when it has no phases or stands at
   * a skipped one.
   */
  lemma CancelledIsFinalIff(s: Instance)
    requires Mirrors(s) && s.status == WfCancelled
    ensures (forall events :: History(s, events).status == WfCancelled) <==>
              s.phases == [] || Current(s).status == Skipped
  {
    hide History, Happen, LogIsChain;
    if s.phases == [] || Current(s).status == Skipped {
      forall events
        ensures History(s, events).status == WfCancelled
      {
        if s.phases == [] {
          NoPhasesStay(s, events);
        } else {
          SkippedStaysCancelled(s, events);
        }
      }
    } else {
      if Current(s).status == Completed {
        CompletedCanEnd(s);
      } else {
        UnfinishedCanFail(s);
      }
      HistoryOfOne(s, MovingEvent(s));
      assert History(s, [MovingEvent(s)]).status != WfCancelled;
    }
  }

  lemma NoPhasesStay(s: Instance, events: seq<Event>)
    requires Mirrors(s) && s.phases == []
    ensures History(s, events).status == s.status
  {
    assert Shaped(s) && Settled(s);
    SettledIsFinal(s, events);
  }

  /** The one call that moves a terminated workflow. */
  predicate FailsAgain(e: Event) {
    e.Call? && e.op.ReconcileFail?
  }

  lemma TerminatedMoves(s: Instance, e: Event)
    requires Inv(s) && s.status == WfUserTerminated
    ensures Happen(s, e).status == if FailsAgain(e) then WfFailed else WfUserTerminated
  {
    hide Untouched, LogIsChain, AllPass;
    match e {
      case Call(op, at) =>
      case Reconciled(w, forceAdvance) => CallEndsOrDoesNothing(s, w, forceAdvance);
    }
  }

  ghost predicate SomeFailsAgain(events: seq<Event>) {
    exists k :: 0 <= k < |events| && FailsAgain(events[k])
  }

  lemma SomeFailsAgainSnoc(front: seq<Event>, e: Event)
    ensures SomeFailsAgain(front + [e]) <==> SomeFailsAgain(front) || FailsAgain(e)
  {
    var events := front + [e];
    assert forall k :: 0 <= k < |front| ==> events[k] == front[k];
    assert events[|front|] == e;
  }

  /** A workflow its user terminated stays so until it is reconciled as failed, and is failed from then on. */
  lemma {:induction false} TerminatedUntilFailed(s: Instance, events: seq<Event>)
    requires Inv(s) && s.status == WfUserTerminated
    ensures History(s, events).status == if SomeFailsAgain(events) then WfFailed else WfUserTerminated
  {
    assert |s.phases| == |s.template.phases|;
    hide Inv, Happen, FailsAgain;
    if events != [] {
      var front, e := events[..|events|-1], events[|events|-1];
      assert events == front + [e];
      var before := History(s, front);
      TerminatedUntilFailed(s, front);
      EveryHistorySatisfiesInv(s, front);
      SomeFailsAgainSnoc(front, e);
      hide SomeFailsAgain;
      if before.status == WfFailed {
        FailedIsFinal(before, [e]);
        HistoryOfOne(before, e);
      } else {
        TerminatedMoves(before, e);
      }
    }
  }

  // -------------------------------------------------------------------------- some workflows

  const BUILD: string := "build"
  const REVIEW: string := "review"

  function PhaseOf(id: string, exitGate: seq<string>): Phase {
    Phase(id, "worker", AnyTier, [], exitGate, None, None)
  }

  /** Every task is completed without evidence, with the given signal. */
  function AllDone(signal: Option<Signal>): Canopy {
    (taskId: string) => Some(TaskDetail("completed", Evidence(false, false), signal))
  }

  /** Only the review phase lacks something. */
  function ReviewLacks(): Artifacts {
    (p: Phase) => if p.phaseId == REVIEW then Some("diff.patch") else None
  }

  /** Two phases, the first behind a gate for a code diff, as dispatched. */
  function Gated(): Instance {
    Dispatched(Template([PhaseOf(BUILD, ["code_diff_exists"]), PhaseOf(REVIEW, [])], 0, 0), ["t1", "t2"], "agent", 0)
  }

  /** One phase behind a gate for an audit, as dispatched. */
  function Audited(): Instance {
    Dispatched(Template([PhaseOf(BUILD, ["audit_clean"])], 0, 0), ["t1"], "agent", 0)
  }

  function GatedWorld(): World {
    World(AllDone(None), ReviewLacks(), 1)
  }

  lemma GatedIsClosed()
    ensures CompletesNow(Gated(), GatedWorld())
    ensures BlocksBeforeArtifacts(Gated(), GatedWorld().canopy("t1").value, GatedWorld())
    ensures Current(Gated()).taskId == Some("t1")
  {
    assert ParseGateCondition(Gated().template.phases[0].exitGate[0]) == CodeDiffExists;
  }

  lemma GatedCalls()
    ensures Reconcile.After(Gated(), GatedWorld(), false).idx == Reconcile.After(Gated(), GatedWorld(), true).idx == 0
    ensures Reconcile.After(Gated(), GatedWorld(), false).blockedOn == None
    ensures Reconcile.After(Gated(), GatedWorld(), true).blockedOn == Some("diff.patch")
  {
    GatedIsClosed();
  }

  /** A dispatched workflow whose two runs part at one index: no evidence, and the next phase lacks an artifact. */
  lemma GatedWorkflowParts()
    ensures Inv(Gated()) && SomeCallParts(Gated(), [GatedWorld()])
    ensures var e, f := RunAll(Gated(), [GatedWorld()], false), RunAll(Gated(), [GatedWorld()], true);
            e.idx == f.idx == 0 && e.blockedOn == None && f.blockedOn == Some("diff.patch")
  {
    DispatchedSatisfiesInv(Gated().template, ["t1", "t2"], "agent", 0);
    hide Reconcile.After, BlocksBeforeArtifacts, CompletesNow, GatedWorld, Inv;
    GatedIsClosed();
    GatedCalls();
    assert [GatedWorld()][..0] == [];
    assert PartsAt(Gated(), [GatedWorld()], 0);
  }

  /** A dispatched workflow that ends completed on evidence alone, past a gate that no evidence opens. */
  lemma AuditedWorkflowCompletes()
    ensures Inv(Audited()) &&
            forall e: Evidence :: !AllPass(Audited().template.phases[0].exitGate, ByEvidence(e), BUILD)
    ensures RunAll(Audited(), [World(AllDone(None), NothingNeeded(), 1)], false).status == WfCompleted
  {
    var s, w := Audited(), World(AllDone(None), NothingNeeded(), 1);
    DispatchedSatisfiesInv(s.template, ["t1"], "agent", 0);
    assert [w][..0] == [];
    forall e: Evidence
      ensures !AllPass(s.template.phases[0].exitGate, ByEvidence(e), BUILD)
    {
      ClosedToEvidence(s.template.phases[0].exitGate, e, BUILD, 0);
    }
  }

  /** A dispatched workflow that a stop completes at its first phase, and an advance dispatches again. */
  lemma StoppedWorkflowResumes()
    ensures var stop := Reconciled(World(AllDone(Some(Signal(None, None))), NothingNeeded(), 1), false);
            var advance := Event.Call(Advance(Permissive(), NothingNeeded()), 2);
            && Inv(Gated())
            && History(Gated(), [stop]).status == WfCompleted
            && History(Gated(), [stop, advance]).status == WfDispatched
  {
    var s := Gated();
    DispatchedSatisfiesInv(s.template, ["t1", "t2"], "agent", 0);
    var stop := Reconciled(World(AllDone(Some(Signal(None, None))), NothingNeeded(), 1), false);
    var advance := Event.Call(Advance(Permissive(), NothingNeeded()), 2);
    HistoryOfOne(s, stop);
    HistoryOfTwo(s, stop, advance);
  }

  /** The audited workflow, started and then cancelled by the command. */
  function CancelledWhileActive(): Instance {
    Life(Audited(), [Did(Event.Call(StartPhase(NothingNeeded()), 1)), WorkflowCancelled])
  }

  /**
   * A dispatched workflow that is cancelled while its phase is active: outside the engine's invariant,
   * and completed by the next reconciliation.
   */
  lemma CancelledWorkflowCompletes()
    ensures Shaped(Audited()) && Shaped(CancelledWhileActive())
    ensures CancelledWhileActive().status == WfCancelled
    ensures HasCurrent(CancelledWhileActive()) && Current(CancelledWhileActive()).status == Active
    ensures !Inv(CancelledWhileActive())
    ensures History(CancelledWhileActive(), [Reconciled(World(AllDone(None), NothingNeeded(), 2), false)]).status
              == WfCompleted
  {
    var start := Did(Event.Call(StartPhase(NothingNeeded()), 1));
    var actions := [start, WorkflowCancelled];
    DispatchedSatisfiesInv(Audited().template, ["t1"], "agent", 0);
    InvIsShaped(Audited());
    EveryLifeIsShaped(Audited(), actions);
    assert actions[..1] == [start] && [start][..0] == [];
    HistoryOfOne(CancelledWhileActive(), Reconciled(World(AllDone(None), NothingNeeded(), 2), false));
  }

  /** What cancelling a task writes: the first phase that has it, and the workflow's status. */
  lemma CancelTaskWrites(s: Instance, task: string, now: int, i: nat)
    requires i < |s.phases| && s.phases[i].taskId == Some(task)
    requires forall j :: 0 <= j < i ==> s.phases[j].taskId != Some(task)
    ensures CancelTask(s, task, now) ==
              Ok(s.(status := WfCancelled,
                    phases := s.phases[i := s.phases[i].(status := Failed, completedAt := Some(now),
                                                         failureReason := Some("task cancelled"))]))
  {
  }
}
