/** The workflow state machine: phases, counters, gates and the transition log. */
module Engine {
  import opened Collections
  import opened Gate

  const U32_MAX: nat := 0xFFFF_FFFF

  datatype WorkflowStatus =
    | WfPending | WfDispatched | WfInProgress | WfBlockedOnGate | WfAwaitingRepair
    | WfAwaitingUserInput | WfUserTerminated | WfCompleted | WfFailed | WfCancelled

  datatype PhaseStatus = Pending | Active | AwaitingUserInput | Completed | Failed | Skipped

  datatype Tier = Haiku | Sonnet | Opus | AnyTier

  datatype Phase = Phase(phaseId: string, role: string, agentTier: Tier, entryGate: seq<string>, exitGate: seq<string>,
                         maxToolFailures: Option<nat>, maxRequests: Option<nat>)

  datatype Template = Template(phases: seq<Phase>, maxToolFailuresPerPhase: nat, maxRequestsPerPhase: nat)

  datatype PhaseState = PhaseState(
    phaseId: string, role: string, status: PhaseStatus, agentId: Option<string>, taskId: Option<string>,
    startedAt: Option<int>, completedAt: Option<int>, failureReason: Option<string>, pendingMessage: Option<string>,
    retryCount: nat, toolFailures: nat, requests: nat)

  datatype Transition = Transition(from: string, to: string, at: int)

  datatype Instance = Instance(
    template: Template, status: WorkflowStatus, blockedOn: Option<string>, idx: nat,
    phases: seq<PhaseState>, transitions: seq<Transition>, updatedAt: int)

  datatype EngineError = StateError | GateFailed(phaseId: string) | AlreadyAtFinalPhase

  /** The missing required artifacts of a phase, when there are any. */
  type Artifacts = Phase -> Option<string>

  /** The engine's mutating methods. */
  datatype Op =
    | StartPhase(artifacts: Artifacts)
    | CompletePhase
    | ReconcileComplete
    | ReconcileFail(reason: string)
    | FailPhase(reason: string)
    | IncrementRetry
    | RecordToolFailure(ceiling: nat)
    | RecordRequest(ceiling: nat)
    | Advance(ev: Evaluator, artifacts: Artifacts)
    | CompleteWorkflow
    | HandoffToUser(message: string, breakout: bool)
    | ResumeFromUserInput

  datatype Outcome = Done | Ceiling(hit: bool) | Moved(transition: Transition) | Refused(error: EngineError)

  type Step = (Instance, Outcome)

  // ------------------------------------------------------------------ the state machine

  function NewPhaseState(p: Phase): PhaseState {
    PhaseState(p.phaseId, p.role, Pending, None, None, None, None, None, None, 0, 0, 0)
  }

  /** A workflow as created from a template. */
  function New(t: Template, now: int): Instance {
    Instance(t, WfPending, None, 0, seq(|t.phases|, i requires 0 <= i < |t.phases| => NewPhaseState(t.phases[i])),
             [], now)
  }

  function Refuse(s: Instance, e: EngineError): Step {
    (s, Refused(e))
  }

  predicate HasCurrent(s: Instance) {
    s.idx < |s.phases|
  }

  function Current(s: Instance): PhaseState
    requires HasCurrent(s)
  {
    s.phases[s.idx]
  }

  function SetCurrent(s: Instance, p: PhaseState, now: int): Instance
    requires HasCurrent(s)
  {
    s.(phases := s.phases[s.idx := p], updatedAt := now)
  }

  function MarkActive(p: PhaseState, now: int): PhaseState {
    p.(status := Active, startedAt := Some(now))
  }

  function MarkCompleted(p: PhaseState, now: int): PhaseState {
    p.(status := Completed, completedAt := Some(now))
  }

  function MarkFailed(p: PhaseState, reason: string, now: int): PhaseState {
    p.(status := Failed, completedAt := Some(now), failureReason := Some(reason))
  }

  function SaturatingInc(n: nat): nat {
    if n < U32_MAX then n + 1 else n
  }

  function Decimal(n: nat): string {
    if n < 10 then ["0123456789"[n]] else Decimal(n / 10) + ["0123456789"[n % 10]]
  }

  function ToolCeilingReason(count: nat, ceiling: nat): string {
    "ExceededFailureCeiling: " + Decimal(count) + " tool failures reached ceiling of " + Decimal(ceiling)
  }

  function RequestCeilingReason(count: nat, ceiling: nat): string {
    "ExceededRequestCeiling: " + Decimal(count) + " requests reached ceiling of " + Decimal(ceiling)
  }

  function ApplyStart(s: Instance, artifacts: Artifacts, now: int): Step
    requires |s.phases| == |s.template.phases|
  {
    if !HasCurrent(s) || Current(s).status != Pending then Refuse(s, StateError)
    else match artifacts(s.template.phases[s.idx])
         case Some(missing) => (s.(blockedOn := Some(missing)), Refused(GateFailed(Current(s).phaseId)))
         case None => (SetCurrent(s, MarkActive(Current(s), now), now).(status := WfInProgress), Done)
  }

  function ApplyReconcileComplete(s: Instance, now: int): Step {
    if !HasCurrent(s) then Refuse(s, StateError)
    else
      var p := Current(s);
      match p.status
      case Pending => (SetCurrent(s, MarkCompleted(MarkActive(p, now), now), now), Done)
      case Active => (SetCurrent(s, MarkCompleted(p, now), now), Done)
      case AwaitingUserInput => (SetCurrent(s, MarkCompleted(p, now), now), Done)
      case Completed => (s.(updatedAt := now), Done)
      case Failed => Refuse(s, StateError)
      case Skipped => Refuse(s, StateError)
  }

  function ApplyReconcileFail(s: Instance, reason: string, now: int): Step {
    if !HasCurrent(s) then Refuse(s, StateError)
    else
      var p := Current(s);
      match p.status
      case Pending => (SetCurrent(s, MarkFailed(MarkActive(p, now), reason, now), now).(status := WfFailed), Done)
      case Active => (SetCurrent(s, MarkFailed(p, reason, now), now).(status := WfFailed), Done)
      case AwaitingUserInput => (SetCurrent(s, MarkFailed(p, reason, now), now).(status := WfFailed), Done)
      case Failed => (s.(status := WfFailed, updatedAt := now), Done)
      case Completed => Refuse(s, StateError)
      case Skipped => Refuse(s, StateError)
  }

  function ApplyToolFailure(s: Instance, ceiling: nat, now: int): Step {
    if !HasCurrent(s) || Current(s).status != Active then Refuse(s, StateError)
    else
      var p := Current(s).(toolFailures := SaturatingInc(Current(s).toolFailures));
      if p.toolFailures >= ceiling
      then (SetCurrent(s, MarkFailed(p, ToolCeilingReason(p.toolFailures, ceiling), now), now).(status := WfFailed),
            Ceiling(true))
      else (SetCurrent(s, p, now), Ceiling(false))
  }

  function ApplyRequest(s: Instance, ceiling: nat, now: int): Step {
    if !HasCurrent(s) || Current(s).status != Active then Refuse(s, StateError)
    else
      var p := Current(s).(requests := SaturatingInc(Current(s).requests));
      if p.requests >= ceiling
      then (SetCurrent(s, MarkFailed(p, RequestCeilingReason(p.requests, ceiling), now), now).(status := WfFailed),
            Ceiling(true))
      else (SetCurrent(s, p, now), Ceiling(false))
  }

  function SaturatingPred(n: nat): nat {
    if n == 0 then 0 else n - 1
  }

  /** Final-phase test before gates, exit gate, artifacts, entry gate: in that order. */
  function ApplyAdvance(s: Instance, ev: Evaluator, artifacts: Artifacts, now: int): Step
    requires |s.phases| == |s.template.phases|
  {
    if !HasCurrent(s) || Current(s).status != Completed then Refuse(s, StateError)
    else if s.idx >= SaturatingPred(|s.template.phases|) then Refuse(s, AlreadyAtFinalPhase)
    else
      var here, next := s.template.phases[s.idx], s.template.phases[s.idx + 1];
      if !AllPass(here.exitGate, ev, Current(s).phaseId) then Refuse(s, GateFailed(Current(s).phaseId))
      else match artifacts(next)
           case Some(missing) => (s.(blockedOn := Some(missing)), Refused(GateFailed(next.phaseId)))
           case None =>
             if !AllPass(next.entryGate, ev, next.phaseId) then Refuse(s, GateFailed(next.phaseId))
             else
               var t := Transition(Current(s).phaseId, s.phases[s.idx + 1].phaseId, now);
               (s.(idx := s.idx + 1, transitions := s.transitions + [t], status := WfDispatched, updatedAt := now),
                Moved(t))
  }

  function ApplyHandoff(s: Instance, message: string, breakout: bool, now: int): Step {
    if !HasCurrent(s) || Current(s).status != Active then Refuse(s, StateError)
    else if breakout then
      (SetCurrent(s, MarkFailed(Current(s), message, now), now).(status := WfUserTerminated), Done)
    else
      (SetCurrent(s, Current(s).(pendingMessage := Some(message), status := AwaitingUserInput), now)
       .(status := WfAwaitingUserInput), Done)
  }

  /** One engine call. */
  function Apply(s: Instance, op: Op, now: int): (r: Step)
    requires |s.phases| == |s.template.phases|
    ensures r.0.template == s.template && |r.0.phases| == |s.phases|
  {
    match op
    case StartPhase(artifacts) => ApplyStart(s, artifacts, now)
    case CompletePhase =>
      if !HasCurrent(s) || Current(s).status != Active then Refuse(s, StateError)
      else (SetCurrent(s, MarkCompleted(Current(s), now), now), Done)
    case ReconcileComplete => ApplyReconcileComplete(s, now)
    case ReconcileFail(reason) => ApplyReconcileFail(s, reason, now)
    case FailPhase(reason) =>
      if !HasCurrent(s) || Current(s).status != Active then Refuse(s, StateError)
      else (SetCurrent(s, MarkFailed(Current(s), reason, now), now).(status := WfFailed), Done)
    case IncrementRetry =>
      if !HasCurrent(s) || Current(s).status != Active then Refuse(s, StateError)
      else (SetCurrent(s, Current(s).(retryCount := SaturatingInc(Current(s).retryCount)), now), Done)
    case RecordToolFailure(ceiling) => ApplyToolFailure(s, ceiling, now)
    case RecordRequest(ceiling) => ApplyRequest(s, ceiling, now)
    case Advance(ev, artifacts) => ApplyAdvance(s, ev, artifacts, now)
    case CompleteWorkflow =>
      if !HasCurrent(s) || Current(s).status != Completed || s.idx != SaturatingPred(|s.template.phases|)
      then Refuse(s, StateError)
      else (s.(status := WfCompleted, updatedAt := now), Done)
    case HandoffToUser(message, breakout) => ApplyHandoff(s, message, breakout, now)
    case ResumeFromUserInput =>
      if s.status != WfAwaitingUserInput || !HasCurrent(s) || Current(s).status != AwaitingUserInput
      then Refuse(s, StateError)
      else (SetCurrent(s, Current(s).(pendingMessage := None, status := Active), now).(status := WfInProgress), Done)
  }

  // ---------------------------------------------------------------------- the invariant

  /** A phase the engine has not touched; dispatch may have given it a task and an agent. */
  predicate Untouched(p: PhaseState) {
    && p.status == Pending && p.startedAt == None && p.completedAt == None && p.failureReason == None
    && p.pendingMessage == None && p.retryCount == 0 && p.toolFailures == 0 && p.requests == 0
  }

  predicate NamesPhase(p: PhaseState, phase: Phase) {
    p.phaseId == phase.phaseId && p.role == phase.role
  }

  /** Phase states mirror the template. */
  ghost predicate Mirrors(s: Instance) {
    && |s.phases| == |s.template.phases|
    && (forall i :: 0 <= i < |s.phases| ==> NamesPhase(s.phases[i], s.template.phases[i]))
    && (s.idx < |s.phases| || (s.idx == 0 && s.phases == []))
  }

  /** The log is the chain of the phases reached so far. */
  ghost predicate LogIsChain(s: Instance)
    requires Mirrors(s)
  {
    && |s.transitions| == s.idx
    && forall k :: 0 <= k < |s.transitions| ==>
         s.transitions[k].from == s.phases[k].phaseId && s.transitions[k].to == s.phases[k+1].phaseId
  }

  /** Workflow status and current phase status agree. */
  predicate StatusesAgree(status: WorkflowStatus, p: PhaseStatus) {
    && p != Skipped
    && (p == Active ==> status == WfInProgress)
    && (p == AwaitingUserInput ==> status == WfAwaitingUserInput)
    && (p == Failed <==> status == WfFailed || status == WfUserTerminated)
    && (status == WfCompleted ==> p == Completed)
  }

  ghost predicate Inv(s: Instance) {
    && Mirrors(s)
    && LogIsChain(s)
    && (forall i :: 0 <= i < s.idx ==> s.phases[i].status == Completed)
    && (forall i :: s.idx < i < |s.phases| ==> Untouched(s.phases[i]))
    && (s.idx < |s.phases| ==> StatusesAgree(s.status, s.phases[s.idx].status))
    && (s.phases == [] ==> s.status != WfFailed && s.status != WfUserTerminated && s.status != WfCompleted)
    && (s.idx < |s.phases| && s.phases[s.idx].status == Pending ==> Untouched(s.phases[s.idx]))
  }

  lemma NewSatisfiesInv(t: Template, now: int)
    ensures Inv(New(t, now))
  {
  }

  /** Only the current phase is written, unless the call moves to the next phase. */
  ghost predicate WritesCurrent(s: Instance, s': Instance) {
    && s'.idx == s.idx && s'.transitions == s.transitions && |s'.phases| == |s.phases|
    && forall i :: 0 <= i < |s.phases| ==>
         s'.phases[i].phaseId == s.phases[i].phaseId && s'.phases[i].role == s.phases[i].role &&
           (i != s.idx ==> s'.phases[i] == s.phases[i])
  }

  ghost predicate MovesOn(s: Instance, s': Instance, t: Transition) {
    && s.idx + 1 < |s.phases| && s.phases[s.idx].status == Completed
    && s'.idx == s.idx + 1 && s'.phases == s.phases && s'.status == WfDispatched
    && s'.transitions == s.transitions + [t]
    && t.from == s.phases[s.idx].phaseId && t.to == s.phases[s.idx+1].phaseId
  }

  lemma ApplyShape(s: Instance, op: Op, now: int)
    requires |s.phases| == |s.template.phases|
    ensures var (s', outcome) := Apply(s, op, now);
            if outcome.Moved? then MovesOn(s, s', outcome.transition) else WritesCurrent(s, s')
  {
    hide AllPass, ToolCeilingReason, RequestCeilingReason, SaturatingInc, NewPhaseState;
  }

  ghost predicate Agrees(status: WorkflowStatus, p: PhaseState) {
    StatusesAgree(status, p.status) && (p.status == Pending ==> Untouched(p))
  }

  lemma ApplyKeepsAgreement(s: Instance, op: Op, now: int)
    requires |s.phases| == |s.template.phases| && HasCurrent(s) && !Apply(s, op, now).1.Moved?
    requires Agrees(s.status, s.phases[s.idx])
    ensures Agrees(Apply(s, op, now).0.status, Apply(s, op, now).0.phases[s.idx])
  {
    hide AllPass, ToolCeilingReason, RequestCeilingReason, SaturatingInc;
  }

  lemma WithoutPhasesNothingHappens(s: Instance, op: Op, now: int)
    requires |s.phases| == |s.template.phases| && !HasCurrent(s)
    ensures Apply(s, op, now).0 == s
  {
  }

  /** Every engine call keeps the invariant. */
  lemma ApplyKeepsInv(s: Instance, op: Op, now: int)
    requires Inv(s)
    ensures Inv(Apply(s, op, now).0)
  {
    hide Apply, StatusesAgree, Untouched;
    ApplyShape(s, op, now);
    if Apply(s, op, now).1.Moved? {
      assert StatusesAgree(WfDispatched, Pending) by {
        DispatchedAgrees();
      }
      assert Untouched(s.phases[s.idx+1]);
      UntouchedIsPending(s.phases[s.idx+1]);
    } else if HasCurrent(s) {
      ApplyKeepsAgreement(s, op, now);
    } else {
      WithoutPhasesNothingHappens(s, op, now);
    }
  }

  lemma DispatchedAgrees()
    ensures StatusesAgree(WfDispatched, Pending)
  {
  }

  lemma UntouchedIsPending(p: PhaseState)
    requires Untouched(p)
    ensures p.status == Pending
  {
  }

  predicate Terminal(p: PhaseStatus) {
    p == Completed || p == Failed || p == Skipped
  }

  /** Completed, failed and skipped phases are never written again. */
  ghost predicate TerminalsKept(s: Instance, s': Instance) {
    && |s'.phases| == |s.phases| && s'.template == s.template
    && forall i :: 0 <= i < |s.phases| && Terminal(s.phases[i].status) ==> s'.phases[i] == s.phases[i]
  }

  lemma ApplyKeepsTerminals(s: Instance, op: Op, now: int)
    requires |s.phases| == |s.template.phases|
    ensures TerminalsKept(s, Apply(s, op, now).0)
  {
  }

  /** A refused call leaves the instance as it was, but for the record of missing artifacts. */
  lemma RefusalChangesNothing(s: Instance, op: Op, now: int)
    requires |s.phases| == |s.template.phases|
    requires Apply(s, op, now).1.Refused?
    ensures Apply(s, op, now).0 == s.(blockedOn := Apply(s, op, now).0.blockedOn)
    ensures Apply(s, op, now).0.blockedOn != s.blockedOn ==> op.StartPhase? || op.Advance?
  {
  }

  // ------------------------------------------------------------------------- counters

  function EffectiveToolCeiling(t: Template, i: nat): nat
    requires i < |t.phases|
  {
    match t.phases[i].maxToolFailures
    case Some(n) => n
    case None => t.maxToolFailuresPerPhase
  }

  function EffectiveRequestCeiling(t: Template, i: nat): nat
    requires i < |t.phases|
  {
    match t.phases[i].maxRequests
    case Some(n) => n
    case None => t.maxRequestsPerPhase
  }

  /** Counters are recorded against the phase's effective ceiling. */
  predicate UsesEffectiveCeilings(s: Instance, op: Op)
    requires |s.phases| == |s.template.phases|
  {
    HasCurrent(s) ==>
      match op
      case RecordToolFailure(c) => c == EffectiveToolCeiling(s.template, s.idx)
      case RecordRequest(c) => c == EffectiveRequestCeiling(s.template, s.idx)
      case _ => true
  }

  /** A phase that is not over yet is strictly below its positive ceilings. */
  ghost predicate Below(t: Template, i: nat, p: PhaseState)
    requires i < |t.phases|
  {
    !Terminal(p.status) ==>
      && (EffectiveToolCeiling(t, i) > 0 ==> p.toolFailures < EffectiveToolCeiling(t, i))
      && (EffectiveRequestCeiling(t, i) > 0 ==> p.requests < EffectiveRequestCeiling(t, i))
  }

  ghost predicate BelowCeilings(s: Instance)
    requires |s.phases| == |s.template.phases|
  {
    forall i :: 0 <= i < |s.phases| ==> Below(s.template, i, s.phases[i])
  }

  lemma ApplyKeepsBelowCeilings(s: Instance, op: Op, now: int)
    requires Inv(s) && BelowCeilings(s) && UsesEffectiveCeilings(s, op)
    ensures |Apply(s, op, now).0.phases| == |s.template.phases| && Apply(s, op, now).0.template == s.template
    ensures BelowCeilings(Apply(s, op, now).0)
  {
    ApplyShape(s, op, now);
    if HasCurrent(s) {
    } else {
      WithoutPhasesNothingHappens(s, op, now);
    }
    hide Apply, LogIsChain, StatusesAgree, Below;
  }

  // ------------------------------------------------------------------------ whole runs

  /** A run of engine calls, each at its time. */
  function Run(s: Instance, ops: seq<(Op, int)>): (r: Instance)
    requires |s.phases| == |s.template.phases|
    ensures |r.phases| == |r.template.phases| && r.template == s.template
  {
    if ops == [] then s
    else
      var before := Run(s, ops[..|ops|-1]);
      Apply(before, ops[|ops|-1].0, ops[|ops|-1].1).0
  }

  lemma {:induction false} RunKeepsInv(s: Instance, ops: seq<(Op, int)>)
    requires Inv(s)
    ensures Inv(Run(s, ops))
  {
    if ops != [] {
      RunKeepsInv(s, ops[..|ops|-1]);
      ApplyKeepsInv(Run(s, ops[..|ops|-1]), ops[|ops|-1].0, ops[|ops|-1].1);
    }
  }

  /** Every run from a new workflow satisfies the invariant. */
  lemma EveryRunSatisfiesInv(t: Template, now: int, ops: seq<(Op, int)>)
    ensures Inv(Run(New(t, now), ops))
  {
    NewSatisfiesInv(t, now);
    RunKeepsInv(New(t, now), ops);
  }

  /** Once a phase is over, the rest of the run does not touch it. */
  lemma {:induction false} TerminalPhasesAreAbsorbing(s: Instance, ops: seq<(Op, int)>, i: nat)
    requires |s.phases| == |s.template.phases|
    requires i < |s.phases| && Terminal(s.phases[i].status)
    ensures i < |Run(s, ops).phases| && Run(s, ops).phases[i] == s.phases[i]
  {
    if ops != [] {
      TerminalPhasesAreAbsorbing(s, ops[..|ops|-1], i);
      ApplyKeepsTerminals(Run(s, ops[..|ops|-1]), ops[|ops|-1].0, ops[|ops|-1].1);
    }
  }

  /** Every counter call of the run is made against the effective ceiling of its moment. */
  ghost predicate RunUsesEffectiveCeilings(s: Instance, ops: seq<(Op, int)>)
    requires |s.phases| == |s.template.phases|
  {
    forall k :: 0 <= k < |ops| ==> UsesEffectiveCeilings(Run(s, ops[..k]), ops[k].0)
  }

  lemma {:induction false} EveryRunStaysBelowCeilings(t: Template, now: int, ops: seq<(Op, int)>)
    requires RunUsesEffectiveCeilings(New(t, now), ops)
    ensures BelowCeilings(Run(New(t, now), ops))
  {
    var s := New(t, now);
    if ops != [] {
      hide Apply, UsesEffectiveCeilings, BelowCeilings, Inv;
      var front := ops[..|ops|-1];
      forall k | 0 <= k < |front|
        ensures UsesEffectiveCeilings(Run(s, front[..k]), front[k].0)
      {
        assert front[..k] == ops[..k];
        assert UsesEffectiveCeilings(Run(s, ops[..k]), ops[k].0);
      }
      EveryRunStaysBelowCeilings(t, now, front);
      EveryRunSatisfiesInv(t, now, front);
      assert UsesEffectiveCeilings(Run(s, ops[..|front|]), ops[|front|].0);
      ApplyKeepsBelowCeilings(Run(s, front), ops[|front|].0, ops[|front|].1);
    }
  }

  /** What an advance from phase `i` to the next has to pass. */
  predicate GatesOpen(t: Template, i: nat, ev: Evaluator, artifacts: Artifacts)
    requires i + 1 < |t.phases|
  {
    && AllPass(t.phases[i].exitGate, ev, t.phases[i].phaseId)
    && artifacts(t.phases[i+1]) == None
    && AllPass(t.phases[i+1].entryGate, ev, t.phases[i+1].phaseId)
  }

  /** The index moves in one case only: a completed phase before the last, and open gates. */
  lemma MovesIffGatesOpen(s: Instance, op: Op, now: int)
    requires Inv(s)
    ensures Apply(s, op, now).1.Moved? <==>
              op.Advance? && HasCurrent(s) && Current(s).status == Completed && s.idx + 1 < |s.phases|
              && GatesOpen(s.template, s.idx, op.ev, op.artifacts)
    ensures Apply(s, op, now).1.Moved? ==> Apply(s, op, now).1.transition.at == now
  {
    hide Untouched, StatusesAgree, LogIsChain, AllPass;
  }

  /** An advance of phase `k`, completed and with open gates, at time `now`. */
  predicate Earns(s: Instance, op: Op, k: nat)
    requires |s.phases| == |s.template.phases|
  {
    && op.Advance? && s.idx == k && k + 1 < |s.phases| && s.phases[k].status == Completed
    && GatesOpen(s.template, k, op.ev, op.artifacts)
  }

  lemma LogGrowsWhenEarned(s: Instance, op: Op, now: int)
    requires Inv(s)
    ensures var s' := Apply(s, op, now).0;
            var t := s.template;
            if Apply(s, op, now).1.Moved? then
              && Earns(s, op, |s.transitions|) && |s.transitions| + 1 < |t.phases|
              && var k := |s.transitions|;
                 s'.transitions == s.transitions + [Transition(t.phases[k].phaseId, t.phases[k+1].phaseId, now)]
            else s'.transitions == s.transitions
  {
    ApplyShape(s, op, now);
    MovesIffGatesOpen(s, op, now);
    hide Apply, GatesOpen, Untouched, StatusesAgree;
  }

  /** The log entry that an advance of phase `k` makes. */
  function Entry(t: Template, k: nat, at: int): Transition
    requires k + 1 < |t.phases|
  {
    Transition(t.phases[k].phaseId, t.phases[k+1].phaseId, at)
  }

  /** The call, made in state `before`, is what entry `k` of the log records. */
  predicate Earned(before: Instance, call: (Op, int), k: nat, entry: Transition) {
    && |before.phases| == |before.template.phases| && Earns(before, call.0, k)
    && entry == Entry(before.template, k, call.1)
  }

  lemma LastCallEarns(s: Instance, call: (Op, int), k: nat)
    requires Inv(s) && k < |Apply(s, call.0, call.1).0.transitions|
    ensures if k < |s.transitions| then Apply(s, call.0, call.1).0.transitions[k] == s.transitions[k]
            else Earned(s, call, k, Apply(s, call.0, call.1).0.transitions[k])
  {
    LogGrowsWhenEarned(s, call.0, call.1);
    assert |s.phases| == |s.template.phases|;
    hide Apply, Inv, Earns;
  }

  lemma {:induction false} NewEntriesAreEarned(s: Instance, ops: seq<(Op, int)>, k: nat) returns (i: nat)
    requires Inv(s) && |s.transitions| <= k < |Run(s, ops).transitions|
    ensures i < |ops| && Earned(Run(s, ops[..i]), ops[i], k, Run(s, ops).transitions[k])
    decreases |ops|
  {
    var n := |ops| - 1;
    var before := Run(s, ops[..n]);
    RunKeepsInv(s, ops[..n]);
    LastCallEarns(before, ops[n], k);
    assert Run(s, ops) == Apply(before, ops[n].0, ops[n].1).0;
    hide Apply, Inv, Earned, Run;
    if k < |before.transitions| {
      i := NewEntriesAreEarned(s, ops[..n], k);
      assert ops[..n][..i] == ops[..i];
    } else {
      i := n;
    }
  }

  /** Every entry of the log was earned: the advance that made it found the phase completed and its gates open. */
  lemma EveryTransitionWasEarned(t: Template, now: int, ops: seq<(Op, int)>, k: nat) returns (i: nat)
    requires k < |Run(New(t, now), ops).transitions|
    ensures i < |ops| && Earned(Run(New(t, now), ops[..i]), ops[i], k, Run(New(t, now), ops).transitions[k])
  {
    NewSatisfiesInv(t, now);
    i := NewEntriesAreEarned(New(t, now), ops, k);
  }

  predicate Live(p: PhaseStatus) {
    p == Pending || p == Active || p == AwaitingUserInput
  }

  /** The table of status changes: which call takes phase `k` to which status, and when. */
  predicate Causes(s: Instance, op: Op, k: nat, status: PhaseStatus)
    requires |s.phases| == |s.template.phases|
  {
    && k == s.idx < |s.phases|
    && var p := s.phases[k];
       match status
       case Pending => false
       case Skipped => false
       case Active =>
         || (op.StartPhase? && p.status == Pending && op.artifacts(s.template.phases[k]) == None)
         || (op.ResumeFromUserInput? && p.status == AwaitingUserInput && s.status == WfAwaitingUserInput)
       case AwaitingUserInput => op.HandoffToUser? && !op.breakout && p.status == Active
       case Completed =>
         || (op.CompletePhase? && p.status == Active)
         || (op.ReconcileComplete? && Live(p.status))
       case Failed =>
         || (op.ReconcileFail? && Live(p.status))
         || (p.status == Active &&
             (|| op.FailPhase?
              || (op.RecordToolFailure? && SaturatingInc(p.toolFailures) >= op.ceiling)
              || (op.RecordRequest? && SaturatingInc(p.requests) >= op.ceiling)
              || (op.HandoffToUser? && op.breakout)))
  }

  /** The table is complete and exact for every call. */
  lemma StatusChangesIffCaused(s: Instance, op: Op, now: int, k: nat, status: PhaseStatus)
    requires |s.phases| == |s.template.phases| && k < |s.phases|
    ensures Causes(s, op, k, status) <==>
              Apply(s, op, now).0.phases[k].status == status && s.phases[k].status != status
  {
    hide AllPass, ToolCeilingReason, RequestCeilingReason, SaturatingInc;
  }

  /** In every run, a phase that is no longer pending owes its status to a call that the table allows. */
  lemma {:induction false} EveryStatusWasCaused(t: Template, now: int, ops: seq<(Op, int)>, k: nat) returns (i: nat)
    requires k < |t.phases| && Run(New(t, now), ops).phases[k].status != Pending
    ensures i < |ops|
    ensures Causes(Run(New(t, now), ops[..i]), ops[i].0, k, Run(New(t, now), ops).phases[k].status)
    decreases |ops|
  {
    if ops == [] {
      assert false;
    } else {
      var n := |ops| - 1;
      var before := Run(New(t, now), ops[..n]);
      var status := Run(New(t, now), ops).phases[k].status;
      StatusChangesIffCaused(before, ops[n].0, ops[n].1, k, status);
      hide Apply, Causes;
      if before.phases[k].status == status {
        i := EveryStatusWasCaused(t, now, ops[..n], k);
        assert ops[..n][..i] == ops[..i];
      } else {
        i := n;
      }
    }
  }
}
