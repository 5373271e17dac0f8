/** Progress signals, recovery decisions and the bound on attempts. */
module Retry {
  import opened Collections
  import opened Engine
  import opened Reconcile
  import opened ReconcileTheorems
  import opened WorkflowObject

  datatype StallReason = HeartbeatTimeout | NoCodeDiff | NoPasteMarkerProgress | StatusChatterOnly

  datatype ProgressSignal = Healthy | Stalled(reason: StallReason) | PhaseComplete | GateSatisfied | PhaseFailed

  datatype RetryPolicy = RetryPolicy(maxRetries: nat, narrowScopeOnRetry: bool, escalateTierOnRetry: bool)

  datatype RecoveryAction = RetryPhase(narrowed: bool, newTier: Option<Tier>) | Escalate | Cancel

  function NextTier(t: Tier): Tier {
    match t
    case Haiku => Sonnet
    case AnyTier => Sonnet
    case Sonnet => Opus
    case Opus => Opus
  }

  function DecideProgressive(retryCount: nat, policy: RetryPolicy, tier: Tier): RecoveryAction {
    if retryCount >= policy.maxRetries then Escalate
    else if retryCount == 0 then RetryPhase(false, None)
    else RetryPhase(policy.narrowScopeOnRetry, if policy.escalateTierOnRetry then Some(NextTier(tier)) else None)
  }

  function DecideRecovery(signal: ProgressSignal, retryCount: nat, policy: RetryPolicy, tier: Tier): RecoveryAction {
    match signal
    case Healthy => Cancel
    case PhaseComplete => Cancel
    case GateSatisfied => Cancel
    case Stalled(HeartbeatTimeout) => if retryCount >= policy.maxRetries then Escalate else RetryPhase(false, None)
    case Stalled(StatusChatterOnly) =>
      if retryCount >= policy.maxRetries then Escalate else RetryPhase(policy.narrowScopeOnRetry, None)
    case Stalled(NoCodeDiff) => DecideProgressive(retryCount, policy, tier)
    case Stalled(NoPasteMarkerProgress) => DecideProgressive(retryCount, policy, tier)
    case PhaseFailed => if retryCount >= policy.maxRetries then Escalate else RetryPhase(false, None)
  }

  predicate NeedsRecovery(signal: ProgressSignal) {
    signal.Stalled? || signal.PhaseFailed?
  }

  /** A stall or failure is retried exactly while the retry budget lasts, and escalated afterwards. */
  lemma RetriedWithinBudgetOnly(signal: ProgressSignal, retryCount: nat, policy: RetryPolicy, tier: Tier)
    requires NeedsRecovery(signal)
    ensures DecideRecovery(signal, retryCount, policy, tier).RetryPhase? <==> retryCount < policy.maxRetries
    ensures DecideRecovery(signal, retryCount, policy, tier) == Escalate <==> retryCount >= policy.maxRetries
  {
  }

  function CurrentRetries(s: Instance): nat {
    if HasCurrent(s) then Current(s).retryCount else 0
  }

  function CurrentTier(s: Instance): Tier {
    if s.idx < |s.template.phases| then s.template.phases[s.idx].agentTier else Sonnet
  }

  datatype MonitorError = EngineRefused(error: EngineError) | NotPersisted

  /** What handling a signal answers. */
  type Answer = Result<RecoveryAction, MonitorError>

  /**
   * Handling one signal: the new instance and the action, or an error when the engine refuses or the
   * store does not take the raised counter.
   */
  function Handle(s: Instance, signal: ProgressSignal, policy: RetryPolicy, stored: bool, now: int): (Instance, Answer)
    requires |s.phases| == |s.template.phases|
  {
    if signal.PhaseComplete? then
      var (s', o) := Apply(s, Op.CompletePhase, now);
      (s', match o case Refused(e) => Err(EngineRefused(e)) case _ => Ok(Cancel))
    else if NeedsRecovery(signal) then
      var action := DecideRecovery(signal, CurrentRetries(s), policy, CurrentTier(s));
      if action.RetryPhase? then
        var (s', o) := Apply(s, Op.IncrementRetry, now);
        (s', match o
             case Refused(e) => Err(EngineRefused(e))
             case _ => if stored then Ok(action) else Err(NotPersisted))
      else (s, Ok(action))
    else (s, Ok(Cancel))
  }

  /** `stored` says whether the store takes the raised counter. */
  method HandleSignal(workflow: WorkflowInstance, signal: ProgressSignal, policy: RetryPolicy, stored: bool, now: int)
    returns (r: Answer)
    requires workflow.Valid()
    modifies workflow
    ensures workflow.Valid() && (workflow.State(), r) == Handle(old(workflow.State()), signal, policy, stored, now)
  {
    match signal {
      case PhaseComplete =>
        var completed := workflow.CompletePhase(now);
        if completed.Refused? {
          return Err(EngineRefused(completed.error));
        }
        return Ok(Cancel);
      case GateSatisfied | Healthy =>
        return Ok(Cancel);
      case Stalled(_) | PhaseFailed =>
        var currentRetryCount := if workflow.currentPhaseIdx < |workflow.phaseStates|
                                 then workflow.phaseStates[workflow.currentPhaseIdx].retryCount else 0;
        var currentTier := if workflow.currentPhaseIdx < |workflow.template.phases|
                           then workflow.template.phases[workflow.currentPhaseIdx].agentTier else Sonnet;
        var action := DecideRecovery(signal, currentRetryCount, policy, currentTier);
        if action.RetryPhase? {
          var incremented := workflow.IncrementRetryCount(now);
          if incremented.Refused? {
            return Err(EngineRefused(incremented.error));
          }
          if !stored {
            return Err(NotPersisted);
          }
        }
        return Ok(action);
    }
  }

  // ---------------------------------------------------------------------------- runs

  /** A progress signal, or any other event of the workflow's history. */
  datatype Monitored = Signalled(signal: ProgressSignal, stored: bool, at: int) | Otherwise(event: Event)

  /** Retries are granted by signals only. */
  predicate GrantsNoRetry(m: Monitored) {
    m.Otherwise? ==> !(m.event.Call? && m.event.op.IncrementRetry?)
  }

  function Observe(s: Instance, m: Monitored, policy: RetryPolicy): (r: Instance)
    requires |s.phases| == |s.template.phases|
    ensures |r.phases| == |r.template.phases|
  {
    match m
    case Signalled(signal, stored, at) => Handle(s, signal, policy, stored, at).0
    case Otherwise(e) => Happen(s, e)
  }

  function Watch(s: Instance, ms: seq<Monitored>, policy: RetryPolicy): (r: Instance)
    requires |s.phases| == |s.template.phases|
    ensures |r.phases| == |r.template.phases|
  {
    if ms == [] then s else Observe(Watch(s, ms[..|ms|-1], policy), ms[|ms|-1], policy)
  }

  predicate IsRetry(answer: Answer) {
    answer.Ok? && answer.value.RetryPhase?
  }

  /** How many answers about phase `i` are retries, or with `lost` how many raised counters were not stored. */
  function Answers(s: Instance, ms: seq<Monitored>, policy: RetryPolicy, i: nat, lost: bool): nat
    requires |s.phases| == |s.template.phases|
  {
    if ms == [] then 0
    else
      var before, m := Watch(s, ms[..|ms|-1], policy), ms[|ms|-1];
      Answers(s, ms[..|ms|-1], policy, i, lost) +
      if m.Signalled? && before.idx == i &&
         var answer := Handle(before, m.signal, policy, m.stored, m.at).1;
         if lost then answer == Err(NotPersisted) else IsRetry(answer)
      then 1 else 0
  }

  /** How many retries the handler returned for phase `i`. */
  function RetriesOf(s: Instance, ms: seq<Monitored>, policy: RetryPolicy, i: nat): nat
    requires |s.phases| == |s.template.phases|
  {
    Answers(s, ms, policy, i, false)
  }

  /** How many raised counters of phase `i` the store did not take. */
  function LostOf(s: Instance, ms: seq<Monitored>, policy: RetryPolicy, i: nat): nat
    requires |s.phases| == |s.template.phases|
  {
    Answers(s, ms, policy, i, true)
  }

  ghost predicate SameRetries(s: Instance, s': Instance) {
    |s'.phases| == |s.phases| && forall i :: 0 <= i < |s.phases| ==> s'.phases[i].retryCount == s.phases[i].retryCount
  }

  lemma OtherCallsKeepRetries(s: Instance, op: Op, now: int)
    requires |s.phases| == |s.template.phases| && !op.IncrementRetry?
    ensures SameRetries(s, Apply(s, op, now).0)
  {
    hide ToolCeilingReason, RequestCeilingReason, SaturatingInc;
  }

  lemma ReconcilingKeepsRetries(s: Instance, w: World, forceAdvance: bool)
    requires |s.phases| == |s.template.phases|
    ensures SameRetries(s, Reconcile.After(s, w, forceAdvance))
  {
    hide Apply;
    if Awaits(s) && w.canopy(Current(s).taskId.value).Some? {
      var taskId := Current(s).taskId.value;
      var d := w.canopy(taskId).value;
      var s1 := Apply(s, ReconcileComplete, w.now).0;
      OtherCallsKeepRetries(s, ReconcileComplete, w.now);
      OtherCallsKeepRetries(s1, Advance(EvaluatorFor(d, forceAdvance), w.artifacts), w.now);
      OtherCallsKeepRetries(s, ReconcileFail(FailReason(taskId, d.status)), w.now);
    }
  }

  lemma HandlingCountsRetries(s: Instance, signal: ProgressSignal, policy: RetryPolicy, stored: bool, now: int, i: nat)
    requires |s.phases| == |s.template.phases| && i < |s.phases| && policy.maxRetries <= U32_MAX
    ensures var (s', r) := Handle(s, signal, policy, stored, now);
            |s'.phases| == |s.phases| &&
            s'.phases[i].retryCount ==
            s.phases[i].retryCount + if s.idx == i && (IsRetry(r) || r == Err(NotPersisted)) then 1 else 0
    ensures s.phases[i].retryCount <= policy.maxRetries ==>
              Handle(s, signal, policy, stored, now).0.phases[i].retryCount <= policy.maxRetries
  {
    OtherCallsKeepRetries(s, Op.CompletePhase, now);
  }

  /**
   * Over every history the counter of a phase is the number of retries returned for it and of those
   * lost to the store, and never exceeds the policy's limit.
   */
  lemma {:induction false} CounterIsRetriesReturned(s: Instance, ms: seq<Monitored>, policy: RetryPolicy, i: nat)
    requires |s.phases| == |s.template.phases| && i < |s.phases| && policy.maxRetries <= U32_MAX
    requires s.phases[i].retryCount == 0
    requires forall k :: 0 <= k < |ms| ==> GrantsNoRetry(ms[k])
    ensures |Watch(s, ms, policy).phases| == |s.phases|
    ensures Watch(s, ms, policy).phases[i].retryCount ==
              RetriesOf(s, ms, policy, i) + LostOf(s, ms, policy, i) <= policy.maxRetries
  {
    if ms != [] {
      hide Apply, Handle, Reconcile.After, DecideRecovery;
      var front, m := ms[..|ms|-1], ms[|ms|-1];
      var before := Watch(s, front, policy);
      CounterIsRetriesReturned(s, front, policy, i);
      match m {
        case Signalled(signal, stored, at) => HandlingCountsRetries(before, signal, policy, stored, at, i);
        case Otherwise(Call(op, at)) => OtherCallsKeepRetries(before, op, at);
        case Otherwise(Reconciled(w, forceAdvance)) => ReconcilingKeepsRetries(before, w, forceAdvance);
      }
    }
  }

  /**
   * The guard of the branch that loses a retry: the store does not take the counter of an active phase
   * that stalls or fails with budget left.
   */
  predicate Loses(before: Instance, m: Monitored, policy: RetryPolicy, i: nat) {
    && m.Signalled? && !m.stored && NeedsRecovery(m.signal)
    && before.idx == i && i < |before.phases|
    && before.phases[i].status == Active && before.phases[i].retryCount < policy.maxRetries
  }

  lemma LosesIffNotPersisted(before: Instance, m: Monitored, policy: RetryPolicy, i: nat)
    requires |before.phases| == |before.template.phases| && m.Signalled?
    ensures before.idx == i && Handle(before, m.signal, policy, m.stored, m.at).1 == Err(NotPersisted) <==>
              Loses(before, m, policy, i)
  {
    if NeedsRecovery(m.signal) {
      RetriedWithinBudgetOnly(m.signal, CurrentRetries(before), policy, CurrentTier(before));
    }
    hide DecideRecovery;
  }

  /** Event `k` of the history loses a retry of phase `i`. */
  ghost predicate LosesAt(s: Instance, ms: seq<Monitored>, policy: RetryPolicy, i: nat, k: nat)
    requires |s.phases| == |s.template.phases| && k < |ms|
  {
    Loses(Watch(s, ms[..k], policy), ms[k], policy, i)
  }

  ghost predicate SomeLoses(s: Instance, ms: seq<Monitored>, policy: RetryPolicy, i: nat)
    requires |s.phases| == |s.template.phases|
  {
    exists k: nat :: k < |ms| && LosesAt(s, ms, policy, i, k)
  }

  lemma LosesAtFront(s: Instance, ms: seq<Monitored>, policy: RetryPolicy, i: nat, k: nat)
    requires |s.phases| == |s.template.phases| && k < |ms| - 1
    ensures LosesAt(s, ms[..|ms|-1], policy, i, k) <==> LosesAt(s, ms, policy, i, k)
  {
    hide Watch, Loses;
    assert ms[..|ms|-1][..k] == ms[..k];
  }

  lemma SomeLosesSnoc(s: Instance, ms: seq<Monitored>, policy: RetryPolicy, i: nat)
    requires |s.phases| == |s.template.phases| && ms != []
    ensures SomeLoses(s, ms, policy, i) <==>
              SomeLoses(s, ms[..|ms|-1], policy, i) || LosesAt(s, ms, policy, i, |ms| - 1)
  {
    var front := ms[..|ms|-1];
    hide LosesAt;
    if SomeLoses(s, ms, policy, i) {
      var k: nat :| k < |ms| && LosesAt(s, ms, policy, i, k);
      if k < |front| {
        LosesAtFront(s, ms, policy, i, k);
      }
    }
    if SomeLoses(s, front, policy, i) {
      var k: nat :| k < |front| && LosesAt(s, front, policy, i, k);
      LosesAtFront(s, ms, policy, i, k);
    }
  }

  lemma {:induction false} LostIffSomeLoses(s: Instance, ms: seq<Monitored>, policy: RetryPolicy, i: nat)
    requires |s.phases| == |s.template.phases|
    ensures LostOf(s, ms, policy, i) == 0 <==> !SomeLoses(s, ms, policy, i)
  {
    if ms != [] {
      var front, m := ms[..|ms|-1], ms[|ms|-1];
      LostIffSomeLoses(s, front, policy, i);
      SomeLosesSnoc(s, ms, policy, i);
      if m.Signalled? {
        LosesIffNotPersisted(Watch(s, front, policy), m, policy, i);
      }
      hide Watch, Handle, SomeLoses;
    }
  }

  /** The counter is exactly the retries returned when, and only when, no event of the history loses a retry. */
  lemma CounterIsExactIff(s: Instance, ms: seq<Monitored>, policy: RetryPolicy, i: nat)
    requires |s.phases| == |s.template.phases| && i < |s.phases| && policy.maxRetries <= U32_MAX
    requires s.phases[i].retryCount == 0
    requires forall k :: 0 <= k < |ms| ==> GrantsNoRetry(ms[k])
    ensures |Watch(s, ms, policy).phases| == |s.phases|
    ensures Watch(s, ms, policy).phases[i].retryCount == RetriesOf(s, ms, policy, i) <==> !SomeLoses(s, ms, policy, i)
  {
    CounterIsRetriesReturned(s, ms, policy, i);
    LostIffSomeLoses(s, ms, policy, i);
  }

  /** A workflow of one phase, as dispatched and started. */
  function Started(): Instance {
    var t := Template([Phase("build", "worker", Sonnet, [], [], None, None)], 0, 0);
    Apply(Dispatched(t, ["t1"], "agent", 0), StartPhase((p: Phase) => None), 1).0
  }

  /** A heartbeat stall whose raised counter the store does not take. */
  function LostStall(): Monitored {
    Signalled(Stalled(HeartbeatTimeout), false, 2)
  }

  /** The started workflow after that signal: the counter is raised, and no retry was returned. */
  lemma StallIsLost()
    ensures var s, ms, policy := Started(), [LostStall()], RetryPolicy(2, true, true);
            && Inv(s) && SomeLoses(s, ms, policy, 0)
            && Handle(s, LostStall().signal, policy, false, 2).1 == Err(NotPersisted)
            && |Watch(s, ms, policy).phases| == 1 && Watch(s, ms, policy).phases[0].retryCount == 1
            && RetriesOf(s, ms, policy, 0) == 0
  {
    var s, ms, policy := Started(), [LostStall()], RetryPolicy(2, true, true);
    var d := Dispatched(s.template, ["t1"], "agent", 0);
    DispatchedSatisfiesInv(s.template, ["t1"], "agent", 0);
    ApplyKeepsInv(d, StartPhase((p: Phase) => None), 1);
    assert ms[..0] == [] && Watch(s, [], policy) == s;
    assert LosesAt(s, ms, policy, 0, 0);
  }

  /** Total dispatches as the outcome record counts them. */
  function AttemptSum(phases: seq<PhaseState>): nat {
    if phases == [] then 0 else AttemptSum(phases[..|phases|-1]) + phases[|phases|-1].retryCount + 1
  }

  /** The attempts of the outcome record; `None` when the 32-bit sum overflows. */
  function AttemptCount(s: Instance): Option<nat> {
    var sum := AttemptSum(s.phases);
    if sum > U32_MAX then None else Some(if sum < 1 then 1 else sum)
  }

  lemma {:induction false} AttemptSumBound(phases: seq<PhaseState>, limit: nat)
    requires forall i :: 0 <= i < |phases| ==> phases[i].retryCount <= limit
    ensures AttemptSum(phases) <= |phases| * (limit + 1)
  {
    if phases != [] {
      AttemptSumBound(phases[..|phases|-1], limit);
      assert |phases| * (limit + 1) == (|phases| - 1) * (limit + 1) + (limit + 1);
    }
  }

  /** So an outcome never reports more attempts than phases times the retry budget plus one. */
  lemma AttemptsAreBounded(s: Instance, ms: seq<Monitored>, policy: RetryPolicy)
    requires |s.phases| == |s.template.phases| && policy.maxRetries <= U32_MAX
    requires forall i :: 0 <= i < |s.phases| ==> s.phases[i].retryCount == 0
    requires forall k :: 0 <= k < |ms| ==> GrantsNoRetry(ms[k])
    ensures var n := |s.phases| * (policy.maxRetries + 1);
            match AttemptCount(Watch(s, ms, policy))
            case Some(count) => count <= if n < 1 then 1 else n
            case None => n > U32_MAX
  {
    hide Watch;
    var r := Watch(s, ms, policy);
    if s.phases == [] {
      CountWithoutPhases(s, ms, policy);
    } else {
      forall i | 0 <= i < |s.phases|
        ensures |r.phases| == |s.phases| && r.phases[i].retryCount <= policy.maxRetries
      {
        CounterIsRetriesReturned(s, ms, policy, i);
      }
      assert |r.phases| == |s.phases| by {
        CounterIsRetriesReturned(s, ms, policy, 0);
      }
    }
    AttemptSumBound(r.phases, policy.maxRetries);
  }

  lemma {:induction false} CountWithoutPhases(s: Instance, ms: seq<Monitored>, policy: RetryPolicy)
    requires |s.phases| == |s.template.phases| && s.phases == []
    ensures Watch(s, ms, policy).phases == []
  {
    if ms != [] {
      CountWithoutPhases(s, ms[..|ms|-1], policy);
      var before := Watch(s, ms[..|ms|-1], policy);
      match ms[|ms|-1] {
        case Signalled(signal, stored, at) =>
        case Otherwise(Call(op, at)) =>
        case Otherwise(Reconciled(w, forceAdvance)) => CallEndsOrDoesNothing(before, w, forceAdvance);
      }
    }
  }

  // ------------------------------------------------------------------- the exact count

  /** The event raised a counter: a retry was returned, or lost to the store. */
  predicate Raises(before: Instance, m: Monitored, policy: RetryPolicy)
    requires |before.phases| == |before.template.phases|
  {
    m.Signalled? &&
    var answer := Handle(before, m.signal, policy, m.stored, m.at).1;
    IsRetry(answer) || answer == Err(NotPersisted)
  }

  /** How many events of the history raised a counter. */
  function Raised(s: Instance, ms: seq<Monitored>, policy: RetryPolicy): nat
    requires |s.phases| == |s.template.phases|
  {
    if ms == [] then 0
    else
      Raised(s, ms[..|ms|-1], policy) + if Raises(Watch(s, ms[..|ms|-1], policy), ms[|ms|-1], policy) then 1 else 0
  }

  lemma {:induction false} SumShifts(a: seq<PhaseState>, b: seq<PhaseState>, i: nat, d: nat)
    requires |a| == |b|
    requires forall j :: 0 <= j < |a| ==> b[j].retryCount == a[j].retryCount + if j == i then d else 0
    ensures AttemptSum(b) == AttemptSum(a) + if i < |a| then d else 0
  {
    if a != [] {
      SumShifts(a[..|a|-1], b[..|b|-1], i, d);
    }
  }

  lemma {:induction false} FreshSum(phases: seq<PhaseState>)
    requires forall i :: 0 <= i < |phases| ==> phases[i].retryCount == 0
    ensures AttemptSum(phases) == |phases|
  {
    if phases != [] {
      FreshSum(phases[..|phases|-1]);
    }
  }

  /** A counter is raised only where there is a phase to raise it for. */
  lemma RaisedHasCurrent(s: Instance, signal: ProgressSignal, policy: RetryPolicy, stored: bool, now: int)
    requires |s.phases| == |s.template.phases|
    ensures var r := Handle(s, signal, policy, stored, now).1;
            IsRetry(r) || r == Err(NotPersisted) ==> s.idx < |s.phases|
  {
  }

  lemma SignalShiftsSum(s: Instance, signal: ProgressSignal, policy: RetryPolicy, stored: bool, now: int)
    requires |s.phases| == |s.template.phases| && policy.maxRetries <= U32_MAX
    ensures var (s', r) := Handle(s, signal, policy, stored, now);
            AttemptSum(s'.phases) == AttemptSum(s.phases) + if IsRetry(r) || r == Err(NotPersisted) then 1 else 0
  {
    var (s', r) := Handle(s, signal, policy, stored, now);
    RaisedHasCurrent(s, signal, policy, stored, now);
    HandleKeepsLength(s, signal, policy, stored, now);
    forall j: nat | j < |s.phases|
      ensures s'.phases[j].retryCount ==
                s.phases[j].retryCount + if s.idx == j && (IsRetry(r) || r == Err(NotPersisted)) then 1 else 0
    {
      HandlingCountsRetries(s, signal, policy, stored, now, j);
    }
    SumShifts(s.phases, s'.phases, s.idx, if IsRetry(r) || r == Err(NotPersisted) then 1 else 0);
  }

  lemma HandleKeepsLength(s: Instance, signal: ProgressSignal, policy: RetryPolicy, stored: bool, now: int)
    requires |s.phases| == |s.template.phases|
    ensures |Handle(s, signal, policy, stored, now).0.phases| == |s.phases|
  {
  }

  lemma EventShiftsSum(before: Instance, m: Monitored, policy: RetryPolicy)
    requires |before.phases| == |before.template.phases| && policy.maxRetries <= U32_MAX && GrantsNoRetry(m)
    ensures AttemptSum(Observe(before, m, policy).phases) ==
              AttemptSum(before.phases) + if Raises(before, m, policy) then 1 else 0
  {
    hide Apply, Handle, Reconcile.After;
    match m {
      case Signalled(signal, stored, at) => SignalShiftsSum(before, signal, policy, stored, at);
      case Otherwise(Call(op, at)) =>
        OtherCallsKeepRetries(before, op, at);
        SumShifts(before.phases, Apply(before, op, at).0.phases, 0, 0);
      case Otherwise(Reconciled(w, forceAdvance)) =>
        ReconcilingKeepsRetries(before, w, forceAdvance);
        SumShifts(before.phases, Reconcile.After(before, w, forceAdvance).phases, 0, 0);
    }
  }

  lemma {:induction false} RaisesAddUp(s: Instance, ms: seq<Monitored>, policy: RetryPolicy)
    requires |s.phases| == |s.template.phases| && policy.maxRetries <= U32_MAX
    requires forall k :: 0 <= k < |ms| ==> GrantsNoRetry(ms[k])
    ensures AttemptSum(Watch(s, ms, policy).phases) == AttemptSum(s.phases) + Raised(s, ms, policy)
  {
    if ms != [] {
      hide Observe, Raises, AttemptSum, GrantsNoRetry;
      RaisesAddUp(s, ms[..|ms|-1], policy);
      EventShiftsSum(Watch(s, ms[..|ms|-1], policy), ms[|ms|-1], policy);
    }
  }

  /** The attempts of an outcome are exactly one per phase and one per counter raised over its history. */
  lemma AttemptsAreExact(s: Instance, ms: seq<Monitored>, policy: RetryPolicy)
    requires |s.phases| == |s.template.phases| && policy.maxRetries <= U32_MAX
    requires forall i :: 0 <= i < |s.phases| ==> s.phases[i].retryCount == 0
    requires forall k :: 0 <= k < |ms| ==> GrantsNoRetry(ms[k])
    ensures var n := |s.phases| + Raised(s, ms, policy);
            AttemptCount(Watch(s, ms, policy)) == if n > 0xFFFF_FFFF then None else Some(if n < 1 then 1 else n)
  {
    FreshSum(s.phases);
    RaisesAddUp(s, ms, policy);
    hide Watch, Raised, AttemptSum;
  }

  // -------------------------------------------------------------------- the decisions

  /** What a retry changes: the scope after chatter, scope and tier from the second lack of progress on. */
  lemma RetriesNarrowAndClimb(signal: ProgressSignal, retryCount: nat, policy: RetryPolicy, tier: Tier)
    requires NeedsRecovery(signal) && retryCount < policy.maxRetries
    ensures var action := DecideRecovery(signal, retryCount, policy, tier);
            var progress := signal == Stalled(NoCodeDiff) || signal == Stalled(NoPasteMarkerProgress);
            && action.RetryPhase?
            && (action.narrowed <==>
                  policy.narrowScopeOnRetry && (signal == Stalled(StatusChatterOnly) || (progress && retryCount > 0)))
            && (action.newTier.Some? <==> policy.escalateTierOnRetry && progress && retryCount > 0)
            && (action.newTier.Some? ==>
                  action.newTier.value == if tier == Haiku || tier == AnyTier then Sonnet else Opus)
  {
  }

  /** What the handler does with the signals that ask for no recovery. */
  lemma QuietSignals(s: Instance, policy: RetryPolicy, stored: bool, now: int)
    requires |s.phases| == |s.template.phases|
    ensures Handle(s, Healthy, policy, stored, now) == (s, Ok(Cancel))
    ensures Handle(s, GateSatisfied, policy, stored, now) == (s, Ok(Cancel))
    ensures var (r, answer) := Handle(s, PhaseComplete, policy, stored, now);
            if HasCurrent(s) && Current(s).status == Active
            then answer == Ok(Cancel) && HasCurrent(r) && Current(r).status == Completed && r.idx == s.idx
            else r == s && answer == Err(EngineRefused(StateError))
  {
  }

  /** What it does with a stall or a failure: retry an active phase while the budget lasts, escalate afterwards. */
  lemma LoudSignals(s: Instance, signal: ProgressSignal, policy: RetryPolicy, stored: bool, now: int)
    requires |s.phases| == |s.template.phases| && NeedsRecovery(signal)
    ensures var (r, answer) := Handle(s, signal, policy, stored, now);
            var count := if s.idx < |s.phases| then s.phases[s.idx].retryCount else 0;
            var tier := if s.idx < |s.phases| then s.template.phases[s.idx].agentTier else Sonnet;
            if count >= policy.maxRetries then (r, answer) == (s, Ok(Escalate))
            else if s.idx >= |s.phases| || s.phases[s.idx].status != Active
            then (r, answer) == (s, Err(EngineRefused(StateError)))
            else answer == if stored then Ok(DecideRecovery(signal, count, policy, tier)) else Err(NotPersisted)
  {
    RetriedWithinBudgetOnly(signal, CurrentRetries(s), policy, CurrentTier(s));
    hide DecideRecovery;
  }
}
