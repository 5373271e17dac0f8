/** What the engine's calls write, field by field. */
module EngineEffects {
  import opened Collections
  import opened Engine
  import opened Gate

  // ---------------------------------------------------------------------- workflow status

  /** The call fails its phase: the phase's own failures, and a counter that reaches its ceiling. */
  predicate Fails(s: Instance, op: Op) {
    && s.idx < |s.phases|
    && var p := s.phases[s.idx];
       || (op.ReconcileFail? && (p.status == Pending || p.status == Active || p.status == AwaitingUserInput))
       || (p.status == Active &&
           (|| op.FailPhase?
            || (op.RecordToolFailure? && SaturatingInc(p.toolFailures) >= op.ceiling)
            || (op.RecordRequest? && SaturatingInc(p.requests) >= op.ceiling)
            || (op.HandoffToUser? && op.breakout)))
  }

  /** The status a call gives the workflow, if it gives one. */
  function StatusGiven(s: Instance, op: Op): Option<WorkflowStatus>
    requires |s.phases| == |s.template.phases|
  {
    if s.idx >= |s.phases| then None
    else
      var p := s.phases[s.idx];
      if op.HandoffToUser? && p.status == Active then
        Some(if op.breakout then WfUserTerminated else WfAwaitingUserInput)
      else if Fails(s, op) || (op.ReconcileFail? && p.status == Failed) then Some(WfFailed)
      else if op.StartPhase? && p.status == Pending && op.artifacts(s.template.phases[s.idx]) == None
      then Some(WfInProgress)
      else if op.ResumeFromUserInput? && p.status == AwaitingUserInput && s.status == WfAwaitingUserInput
      then Some(WfInProgress)
      else if op.CompleteWorkflow? && p.status == Completed && s.idx + 1 == |s.phases| then Some(WfCompleted)
      else if op.Advance? && p.status == Completed && s.idx + 1 < |s.phases|
              && GatesOpen(s.template, s.idx, op.ev, op.artifacts) then Some(WfDispatched)
      else None
  }

  /** Every call leaves the workflow the status of the table, or its own. */
  lemma StatusIsGiven(s: Instance, op: Op, now: int)
    requires Mirrors(s)
    ensures Apply(s, op, now).0.status == match StatusGiven(s, op) case Some(status) => status case None => s.status
  {
    hide AllPass, ToolCeilingReason, RequestCeilingReason, SaturatingInc;
  }

  // --------------------------------------------------------------------------- the phase

  /** Why a phase fails, as the call records it. */
  function FailureText(p: PhaseState, op: Op): Option<string> {
    match op
    case ReconcileFail(reason) => Some(reason)
    case FailPhase(reason) => Some(reason)
    case HandoffToUser(message, _) => Some(message)
    case RecordToolFailure(ceiling) => Some(ToolCeilingReason(SaturatingInc(p.toolFailures), ceiling))
    case RecordRequest(ceiling) => Some(RequestCeilingReason(SaturatingInc(p.requests), ceiling))
    case _ => None
  }

  /** When the current phase was started, ended and why it failed. */
  lemma TimesFollowStatus(s: Instance, op: Op, now: int)
    requires Mirrors(s) && HasCurrent(s)
    ensures var p, q := s.phases[s.idx], Apply(s, op, now).0.phases[s.idx];
            && q.startedAt == (if p.status == Pending && q.status != Pending then Some(now) else p.startedAt)
            && q.completedAt ==
                 (if p.status != q.status && (q.status == Completed || q.status == Failed) then Some(now)
                  else p.completedAt)
            && q.failureReason ==
                 (if p.status != q.status && q.status == Failed then FailureText(p, op) else p.failureReason)
            && q.pendingMessage ==
                 (if p.status != q.status && q.status == AwaitingUserInput then Some(op.message)
                  else if p.status == AwaitingUserInput && q.status == Active then None
                  else p.pendingMessage)
  {
    hide AllPass, ToolCeilingReason, RequestCeilingReason, SaturatingInc;
  }

  function Next(n: nat): nat {
    if n < 0xFFFF_FFFF then n + 1 else n
  }

  /** Counters move with their own call only, by one, and stop at the largest 32-bit number. */
  lemma CountersCount(s: Instance, op: Op, now: int)
    requires Mirrors(s) && HasCurrent(s)
    ensures var p, q := s.phases[s.idx], Apply(s, op, now).0.phases[s.idx];
            && q.retryCount == (if p.status == Active && op.IncrementRetry? then Next(p.retryCount) else p.retryCount)
            && q.toolFailures ==
                 (if p.status == Active && op.RecordToolFailure? then Next(p.toolFailures) else p.toolFailures)
            && q.requests == (if p.status == Active && op.RecordRequest? then Next(p.requests) else p.requests)
            && q.agentId == p.agentId && q.taskId == p.taskId && q.phaseId == p.phaseId && q.role == p.role
  {
    hide AllPass, ToolCeilingReason, RequestCeilingReason;
  }

  // ------------------------------------------------------------------------ the rest

  /** The artifact a refused call missed. */
  function MissedArtifact(s: Instance, op: Op): Option<string>
    requires |s.phases| == |s.template.phases|
  {
    if s.idx >= |s.phases| then None
    else if op.StartPhase? && s.phases[s.idx].status == Pending then op.artifacts(s.template.phases[s.idx])
    else if op.Advance? && s.phases[s.idx].status == Completed && s.idx + 1 < |s.phases|
            && AllPass(s.template.phases[s.idx].exitGate, op.ev, s.phases[s.idx].phaseId)
    then op.artifacts(s.template.phases[s.idx+1])
    else None
  }

  /** A call records its time unless it is refused, and a missing artifact if that is why. */
  lemma RefusalsAreRecorded(s: Instance, op: Op, now: int)
    requires Mirrors(s)
    ensures var (r, outcome) := Apply(s, op, now);
            && r.updatedAt == (if outcome.Refused? then s.updatedAt else now)
            && r.blockedOn == (if MissedArtifact(s, op).Some? then MissedArtifact(s, op) else s.blockedOn)
            && (MissedArtifact(s, op).Some? ==> outcome.Refused? && outcome.error.GateFailed?)
  {
    hide AllPass, ToolCeilingReason, RequestCeilingReason, SaturatingInc;
  }

  /** The answer of a counting call says whether the ceiling was reached. */
  lemma CeilingIsReported(s: Instance, op: Op, now: int)
    requires Mirrors(s) && HasCurrent(s) && (op.RecordToolFailure? || op.RecordRequest?)
    ensures Apply(s, op, now).1 ==
              if s.phases[s.idx].status == Active then Ceiling(Fails(s, op)) else Refused(StateError)
  {
    hide AllPass, ToolCeilingReason, RequestCeilingReason, SaturatingInc;
  }

  /** Why an advance is refused: first the state, then the last phase, then the gates. */
  lemma RefusedAdvance(s: Instance, op: Op, now: int)
    requires Mirrors(s) && op.Advance?
    ensures var outcome := Apply(s, op, now).1;
            if s.idx >= |s.phases| || s.phases[s.idx].status != Completed then outcome == Refused(StateError)
            else if s.idx + 1 == |s.phases| then outcome == Refused(AlreadyAtFinalPhase)
            else if !AllPass(s.template.phases[s.idx].exitGate, op.ev, s.phases[s.idx].phaseId)
            then outcome == Refused(GateFailed(s.phases[s.idx].phaseId))
            else GatesOpen(s.template, s.idx, op.ev, op.artifacts)
                 || outcome == Refused(GateFailed(s.template.phases[s.idx+1].phaseId))
  {
    hide AllPass, ToolCeilingReason, RequestCeilingReason, SaturatingInc;
  }

  /** A new workflow is pending at its first phase, and nobody works on it. */
  lemma NewIsPristine(t: Template, now: int)
    ensures var s := New(t, now);
            && s.template == t && s.status == WfPending && s.blockedOn == None && s.idx == 0
            && s.transitions == [] && s.updatedAt == now && |s.phases| == |t.phases|
            && forall i :: 0 <= i < |s.phases| ==>
                 && Untouched(s.phases[i]) && s.phases[i].agentId == None && s.phases[i].taskId == None
                 && s.phases[i].phaseId == t.phases[i].phaseId && s.phases[i].role == t.phases[i].role
  {
  }

  /** A phase's own ceilings, or the template's. */
  lemma CeilingsFallBack(t: Template, i: nat)
    requires i < |t.phases|
    ensures var p := t.phases[i];
            && (p.maxToolFailures == None ==> EffectiveToolCeiling(t, i) == t.maxToolFailuresPerPhase)
            && (p.maxToolFailures.Some? ==> EffectiveToolCeiling(t, i) == p.maxToolFailures.value)
            && (p.maxRequests == None ==> EffectiveRequestCeiling(t, i) == t.maxRequestsPerPhase)
            && (p.maxRequests.Some? ==> EffectiveRequestCeiling(t, i) == p.maxRequests.value)
  {
  }
}
