/** The workflow instance as an object whose methods update its fields in place. */
module WorkflowObject {
  import opened Collections
  import opened Engine
  import opened Gate

  class WorkflowInstance {
    const template: Template
    var status: WorkflowStatus
    var blockedOn: Option<string>
    var currentPhaseIdx: nat
    var phaseStates: seq<PhaseState>
    var transitions: seq<Transition>
    var updatedAt: int

    /** The fields as one value. */
    function State(): Instance
      reads this
    {
      Instance(template, status, blockedOn, currentPhaseIdx, phaseStates, transitions, updatedAt)
    }

    ghost predicate Valid()
      reads this
    {
      |phaseStates| == |template.phases|
    }

    constructor (t: Template, now: int)
      ensures Valid() && State() == New(t, now)
    {
      template := t;
      status := WfPending;
      blockedOn := None;
      currentPhaseIdx := 0;
      phaseStates := seq(|t.phases|, i requires 0 <= i < |t.phases| => NewPhaseState(t.phases[i]));
      transitions := [];
      updatedAt := now;
    }

    method StartPhase(artifacts: Artifacts, now: int) returns (r: Outcome)
      requires Valid()
      modifies this
      ensures Valid() && (State(), r) == Apply(old(State()), Op.StartPhase(artifacts), now)
    {
      if currentPhaseIdx >= |phaseStates| || phaseStates[currentPhaseIdx].status != Pending {
        return Refused(StateError);
      }
      var phaseId := phaseStates[currentPhaseIdx].phaseId;
      var missing := artifacts(template.phases[currentPhaseIdx]);
      if missing.Some? {
        blockedOn := missing;
        return Refused(GateFailed(phaseId));
      }
      var phase := phaseStates[currentPhaseIdx];
      phaseStates := phaseStates[currentPhaseIdx := phase.(status := Active, startedAt := Some(now))];
      status := WfInProgress;
      updatedAt := now;
      return Done;
    }

    method CompletePhase(now: int) returns (r: Outcome)
      requires Valid()
      modifies this
      ensures Valid() && (State(), r) == Apply(old(State()), Op.CompletePhase, now)
    {
      if currentPhaseIdx >= |phaseStates| || phaseStates[currentPhaseIdx].status != Active {
        return Refused(StateError);
      }
      var phase := phaseStates[currentPhaseIdx];
      phaseStates := phaseStates[currentPhaseIdx := phase.(status := Completed, completedAt := Some(now))];
      updatedAt := now;
      return Done;
    }

    method ReconcileCompleteCurrentPhase(now: int) returns (r: Outcome)
      requires Valid()
      modifies this
      ensures Valid() && (State(), r) == Apply(old(State()), Op.ReconcileComplete, now)
    {
      if currentPhaseIdx >= |phaseStates| {
        return Refused(StateError);
      }
      var phase := phaseStates[currentPhaseIdx];
      match phase.status {
        case Pending =>
          phase := phase.(status := Active, startedAt := Some(now));
          phase := phase.(status := Completed, completedAt := Some(now));
        case Active | AwaitingUserInput =>
          phase := phase.(status := Completed, completedAt := Some(now));
        case Completed =>
          assert phaseStates[currentPhaseIdx := phase] == phaseStates;
        case Failed | Skipped =>
          return Refused(StateError);
      }
      phaseStates := phaseStates[currentPhaseIdx := phase];
      updatedAt := now;
      return Done;
    }

    method ReconcileFailCurrentPhase(reason: string, now: int) returns (r: Outcome)
      requires Valid()
      modifies this
      ensures Valid() && (State(), r) == Apply(old(State()), Op.ReconcileFail(reason), now)
    {
      if currentPhaseIdx >= |phaseStates| {
        return Refused(StateError);
      }
      var phase := phaseStates[currentPhaseIdx];
      match phase.status {
        case Pending =>
          phase := phase.(status := Active, startedAt := Some(now));
          phase := phase.(failureReason := Some(reason), status := Failed, completedAt := Some(now));
        case Active | AwaitingUserInput =>
          phase := phase.(failureReason := Some(reason), status := Failed, completedAt := Some(now));
        case Failed =>
          assert phaseStates[currentPhaseIdx := phase] == phaseStates;
        case Completed | Skipped =>
          return Refused(StateError);
      }
      phaseStates := phaseStates[currentPhaseIdx := phase];
      status := WfFailed;
      updatedAt := now;
      return Done;
    }

    method FailPhase(reason: string, now: int) returns (r: Outcome)
      requires Valid()
      modifies this
      ensures Valid() && (State(), r) == Apply(old(State()), Op.FailPhase(reason), now)
    {
      if currentPhaseIdx >= |phaseStates| || phaseStates[currentPhaseIdx].status != Active {
        return Refused(StateError);
      }
      var phase := phaseStates[currentPhaseIdx];
      phase := phase.(failureReason := Some(reason), status := Failed, completedAt := Some(now));
      phaseStates := phaseStates[currentPhaseIdx := phase];
      status := WfFailed;
      updatedAt := now;
      return Done;
    }

    method IncrementRetryCount(now: int) returns (r: Outcome)
      requires Valid()
      modifies this
      ensures Valid() && (State(), r) == Apply(old(State()), Op.IncrementRetry, now)
    {
      if currentPhaseIdx >= |phaseStates| || phaseStates[currentPhaseIdx].status != Active {
        return Refused(StateError);
      }
      var phase := phaseStates[currentPhaseIdx];
      phaseStates := phaseStates[currentPhaseIdx := phase.(retryCount := SaturatingInc(phase.retryCount))];
      updatedAt := now;
      return Done;
    }

    method RecordToolFailure(ceiling: nat, now: int) returns (r: Outcome)
      requires Valid()
      modifies this
      ensures Valid() && (State(), r) == Apply(old(State()), Op.RecordToolFailure(ceiling), now)
    {
      if currentPhaseIdx >= |phaseStates| || phaseStates[currentPhaseIdx].status != Active {
        return Refused(StateError);
      }
      var phase := phaseStates[currentPhaseIdx];
      phase := phase.(toolFailures := SaturatingInc(phase.toolFailures));
      var hitCeiling := phase.toolFailures >= ceiling;
      if hitCeiling {
        phase := phase.(failureReason := Some(ToolCeilingReason(phase.toolFailures, ceiling)), status := Failed,
                        completedAt := Some(now));
      }
      phaseStates := phaseStates[currentPhaseIdx := phase];
      updatedAt := now;
      if hitCeiling {
        status := WfFailed;
      }
      return Ceiling(hitCeiling);
    }

    method RecordRequest(ceiling: nat, now: int) returns (r: Outcome)
      requires Valid()
      modifies this
      ensures Valid() && (State(), r) == Apply(old(State()), Op.RecordRequest(ceiling), now)
    {
      if currentPhaseIdx >= |phaseStates| || phaseStates[currentPhaseIdx].status != Active {
        return Refused(StateError);
      }
      var phase := phaseStates[currentPhaseIdx];
      phase := phase.(requests := SaturatingInc(phase.requests));
      var hitCeiling := phase.requests >= ceiling;
      if hitCeiling {
        phase := phase.(failureReason := Some(RequestCeilingReason(phase.requests, ceiling)), status := Failed,
                        completedAt := Some(now));
      }
      phaseStates := phaseStates[currentPhaseIdx := phase];
      updatedAt := now;
      if hitCeiling {
        status := WfFailed;
      }
      return Ceiling(hitCeiling);
    }

    /** Exit gates of the current phase; an evaluator that breaks down is a gate failure. */
    method CanAdvance(ev: Evaluator) returns (r: Result<bool, EngineError>)
      requires Valid()
      ensures currentPhaseIdx < |phaseStates| ==>
                (r == Ok(true) <==>
                 AllPass(template.phases[currentPhaseIdx].exitGate, ev, phaseStates[currentPhaseIdx].phaseId))
      ensures currentPhaseIdx >= |phaseStates| ==> r == Err(StateError)
      ensures currentPhaseIdx < |phaseStates| && r.Err? ==> r.error == GateFailed(phaseStates[currentPhaseIdx].phaseId)
    {
      if currentPhaseIdx >= |phaseStates| {
        return Err(StateError);
      }
      var phaseId := phaseStates[currentPhaseIdx].phaseId;
      var evaluation := EvaluateAll(template.phases[currentPhaseIdx].exitGate, ev, phaseId);
      match evaluation {
        case Err(_) => return Err(GateFailed(phaseId));
        case Ok(passed) => return Ok(passed);
      }
    }

    method Advance(ev: Evaluator, artifacts: Artifacts, now: int) returns (r: Outcome)
      requires Valid()
      modifies this
      ensures Valid() && (State(), r) == Apply(old(State()), Op.Advance(ev, artifacts), now)
    {
      if currentPhaseIdx >= |phaseStates| || phaseStates[currentPhaseIdx].status != Completed {
        return Refused(StateError);
      }
      var fromPhaseId := phaseStates[currentPhaseIdx].phaseId;
      if currentPhaseIdx >= SaturatingPred(|template.phases|) {
        return Refused(AlreadyAtFinalPhase);
      }
      var canAdvance := CanAdvance(ev);
      if canAdvance != Ok(true) {
        return Refused(GateFailed(fromPhaseId));
      }
      var nextIdx := currentPhaseIdx + 1;
      var next := template.phases[nextIdx];
      var missing := artifacts(next);
      if missing.Some? {
        blockedOn := missing;
        return Refused(GateFailed(next.phaseId));
      }
      if next.entryGate != [] {
        var entryEval := EvaluateAll(next.entryGate, ev, next.phaseId);
        if entryEval != Ok(true) {
          return Refused(GateFailed(next.phaseId));
        }
      }
      currentPhaseIdx := nextIdx;
      var transition := Transition(fromPhaseId, phaseStates[currentPhaseIdx].phaseId, now);
      transitions := transitions + [transition];
      status := WfDispatched;
      updatedAt := now;
      return Moved(transition);
    }

    method CompleteWorkflow(now: int) returns (r: Outcome)
      requires Valid()
      modifies this
      ensures Valid() && (State(), r) == Apply(old(State()), Op.CompleteWorkflow, now)
    {
      if currentPhaseIdx >= |phaseStates| || phaseStates[currentPhaseIdx].status != Completed {
        return Refused(StateError);
      }
      if currentPhaseIdx != SaturatingPred(|template.phases|) {
        return Refused(StateError);
      }
      status := WfCompleted;
      updatedAt := now;
      return Done;
    }

    method HandoffToUserPhase(message: string, breakout: bool, now: int) returns (r: Outcome)
      requires Valid()
      modifies this
      ensures Valid() && (State(), r) == Apply(old(State()), Op.HandoffToUser(message, breakout), now)
    {
      if currentPhaseIdx >= |phaseStates| || phaseStates[currentPhaseIdx].status != Active {
        return Refused(StateError);
      }
      var phase := phaseStates[currentPhaseIdx];
      if breakout {
        phase := phase.(failureReason := Some(message), status := Failed, completedAt := Some(now));
        status := WfUserTerminated;
      } else {
        phase := phase.(pendingMessage := Some(message), status := AwaitingUserInput);
        status := WfAwaitingUserInput;
      }
      phaseStates := phaseStates[currentPhaseIdx := phase];
      updatedAt := now;
      return Done;
    }

    method ResumeFromUserInput(now: int) returns (r: Outcome)
      requires Valid()
      modifies this
      ensures Valid() && (State(), r) == Apply(old(State()), Op.ResumeFromUserInput, now)
    {
      if status != WfAwaitingUserInput {
        return Refused(StateError);
      }
      if currentPhaseIdx >= |phaseStates| || phaseStates[currentPhaseIdx].status != AwaitingUserInput {
        return Refused(StateError);
      }
      var phase := phaseStates[currentPhaseIdx];
      phaseStates := phaseStates[currentPhaseIdx := phase.(pendingMessage := None, status := Active)];
      status := WfInProgress;
      updatedAt := now;
      return Done;
    }
  }
}
