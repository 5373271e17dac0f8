/** Reconciling a workflow with the task records of an outside coordinator. */
module Reconcile {
  import opened Collections
  import opened Engine
  import opened Gate
  import opened WorkflowObject

  datatype Signal = Signal(shouldContinue: Option<bool>, nextAction: Option<string>)

  datatype TaskDetail = TaskDetail(status: string, evidence: Evidence, signal: Option<Signal>)

  /** The answer to a task query; `None` is a failed query. */
  type Canopy = string -> Option<TaskDetail>

  /** What one reconciliation call finds outside: task records, artifacts on disk, the time. */
  datatype World = World(canopy: Canopy, artifacts: Artifacts, now: int)

  datatype PhaseOutcome =
    | NoTaskId
    | StillActive
    | MarkedCompleted(phaseId: string, advanced: bool)
    | MarkedFailed(phaseId: string, reason: string)
    | AlreadyTerminal(phaseId: string)
    | StoppedByAgentSignal(phaseId: string, nextAction: Option<string>)

  datatype DispatchError = CanopyError

  /** An absent `shouldContinue` asks to stop as well. */
  predicate WantsStop(s: Signal) {
    s.shouldContinue != Some(true)
  }

  predicate AsksToStop(d: TaskDetail) {
    d.signal.Some? && WantsStop(d.signal.value)
  }

  predicate IsCompletedStatus(status: string) {
    status == "completed"
  }

  predicate IsFailedStatus(status: string) {
    status == "cancelled" || status == "canceled"
  }

  function EvaluatorFor(d: TaskDetail, forceAdvance: bool): Evaluator {
    if forceAdvance then Permissive() else ByEvidence(d.evidence)
  }

  function FailReason(taskId: string, status: string): string {
    "Canopy task " + taskId + " was " + status
  }

  /** The completed branch: complete the phase, honour a stop, otherwise try to advance. */
  function Settle(s: Instance, d: TaskDetail, w: World, forceAdvance: bool): (Instance, PhaseOutcome)
    requires |s.phases| == |s.template.phases| && HasCurrent(s)
  {
    var phaseId := Current(s).phaseId;
    var s1 := Apply(s, ReconcileComplete, w.now).0;
    if AsksToStop(d) then (s1.(status := WfCompleted), StoppedByAgentSignal(phaseId, d.signal.value.nextAction))
    else
      var (s2, outcome) := Apply(s1, Advance(EvaluatorFor(d, forceAdvance), w.artifacts), w.now);
      match outcome
      case Moved(_) => (s2.(status := WfDispatched), MarkedCompleted(phaseId, true))
      case Refused(AlreadyAtFinalPhase) => (s2.(status := WfCompleted), MarkedCompleted(phaseId, true))
      case _ => (s2, MarkedCompleted(phaseId, false))
  }

  /** The current phase needs an answer from outside. */
  predicate Awaits(s: Instance) {
    HasCurrent(s) && Current(s).taskId.Some? && !Terminal(Current(s).status)
  }

  /** One reconciliation of the current phase: the new instance and the phase's outcome. */
  function ReconcileCurrent(s: Instance, w: World, forceAdvance: bool): Result<(Instance, PhaseOutcome), DispatchError>
    requires |s.phases| == |s.template.phases| && HasCurrent(s)
  {
    if Current(s).taskId == None then Ok((s, NoTaskId))
    else if Terminal(Current(s).status) then Ok((s, AlreadyTerminal(Current(s).phaseId)))
    else
      var taskId := Current(s).taskId.value;
      match w.canopy(taskId)
      case None => Err(CanopyError)
      case Some(d) =>
        if IsCompletedStatus(d.status) then Ok(Settle(s, d, w, forceAdvance))
        else if IsFailedStatus(d.status) then
          var reason := FailReason(taskId, d.status);
          Ok((Apply(s, ReconcileFail(reason), w.now).0, MarkedFailed(Current(s).phaseId, reason)))
        else Ok((s, StillActive))
  }

  /** The instance after a call; a failed query leaves it as it was. */
  function After(s: Instance, w: World, forceAdvance: bool): (r: Instance)
    requires |s.phases| == |s.template.phases|
    ensures |r.phases| == |r.template.phases|
  {
    if !HasCurrent(s) then s
    else match ReconcileCurrent(s, w, forceAdvance)
         case Ok((s', _)) => s'
         case Err(_) => s
  }

  /** One outcome per phase; only the phase that was current can have a real one. */
  function OutcomesOf(n: nat, idx: nat, o: PhaseOutcome): seq<PhaseOutcome> {
    seq(n, i => if i == idx then o else NoTaskId)
  }

  /** Reconcile the phases of an instance in place. */
  method ReconcilePhases(instance: WorkflowInstance, w: World, forceAdvance: bool)
    returns (r: Result<seq<PhaseOutcome>, DispatchError>)
    requires instance.Valid()
    modifies instance
    ensures instance.Valid() && instance.State() == After(old(instance.State()), w, forceAdvance)
    ensures var s := old(instance.State());
            if !HasCurrent(s) then r == Ok(OutcomesOf(|s.phases|, s.idx, NoTaskId))
            else match ReconcileCurrent(s, w, forceAdvance)
                 case Ok((_, o)) => r == Ok(OutcomesOf(|s.phases|, s.idx, o))
                 case Err(e) => r == Err(e)
  {
    ghost var s := instance.State();
    var phaseCount := |instance.phaseStates|;
    var currentIdx := instance.currentPhaseIdx;
    var outcomes: seq<PhaseOutcome> := [];
    ghost var mine: PhaseOutcome := NoTaskId;
    for idx := 0 to phaseCount
      invariant |outcomes| == idx && instance.Valid()
      invariant idx <= currentIdx ==> instance.State() == s && mine == NoTaskId
      invariant currentIdx < idx ==> ReconcileCurrent(s, w, forceAdvance) == Ok((instance.State(), mine))
      invariant outcomes == OutcomesOf(idx, currentIdx, mine)
    {
      if idx != currentIdx {
        outcomes := outcomes + [NoTaskId];
        continue;
      }
      var result := ReconcilePhase(instance, w, forceAdvance);
      match result {
        case Err(e) => return Err(e);
        case Ok(o) =>
          mine := o;
          outcomes := outcomes + [o];
      }
    }
    return Ok(outcomes);
  }

  /** The loop body for the current phase. */
  method ReconcilePhase(instance: WorkflowInstance, w: World, forceAdvance: bool)
    returns (r: Result<PhaseOutcome, DispatchError>)
    requires instance.Valid() && instance.currentPhaseIdx < |instance.phaseStates|
    modifies instance
    ensures instance.Valid()
    ensures match ReconcileCurrent(old(instance.State()), w, forceAdvance)
            case Ok((s, o)) => instance.State() == s && r == Ok(o)
            case Err(e) => instance.State() == old(instance.State()) && r == Err(e)
  {
    var phase := instance.phaseStates[instance.currentPhaseIdx];
    if phase.taskId == None {
      return Ok(NoTaskId);
    }
    if Terminal(phase.status) {
      return Ok(AlreadyTerminal(phase.phaseId));
    }
    var task := w.canopy(phase.taskId.value);
    if task == None {
      return Err(CanopyError);
    }
    var detail := task.value;
    if IsCompletedStatus(detail.status) {
      var completed := instance.ReconcileCompleteCurrentPhase(w.now);
      if detail.signal.Some? && WantsStop(detail.signal.value) {
        instance.status := WfCompleted;
        return Ok(StoppedByAgentSignal(phase.phaseId, detail.signal.value.nextAction));
      }
      var outcome := instance.Advance(EvaluatorFor(detail, forceAdvance), w.artifacts, w.now);
      match outcome {
        case Moved(_) =>
          instance.status := WfDispatched;
          return Ok(MarkedCompleted(phase.phaseId, true));
        case Refused(AlreadyAtFinalPhase) =>
          instance.status := WfCompleted;
          return Ok(MarkedCompleted(phase.phaseId, true));
        case _ =>
          return Ok(MarkedCompleted(phase.phaseId, false));
      }
    } else if IsFailedStatus(detail.status) {
      var reason := FailReason(phase.taskId.value, detail.status);
      var failed := instance.ReconcileFailCurrentPhase(reason, w.now);
      return Ok(MarkedFailed(phase.phaseId, reason));
    } else {
      return Ok(StillActive);
    }
  }
}
