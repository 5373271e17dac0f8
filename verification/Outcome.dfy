/** The outcome record of a workflow: terminal status, attempts and the route taken. */
module Outcome {
  import opened Engine
  import opened ReconcileTheorems

  datatype TerminalStatus = EndedCompleted | EndedCancelled | EndedFailed

  datatype RouteStepStatus = RouteCompleted | RouteSkipped | RouteFailed

  datatype RouteStep = RouteStep(phaseId: string, role: string, status: RouteStepStatus)

  function TerminalOf(s: WorkflowStatus): TerminalStatus {
    match s
    case WfCompleted => EndedCompleted
    case WfCancelled => EndedCancelled
    case _ => EndedFailed
  }

  function StepOf(p: PhaseState): RouteStep {
    RouteStep(p.phaseId, p.role,
              match p.status
              case Completed => RouteCompleted
              case Skipped => RouteSkipped
              case _ => RouteFailed)
  }

  /** The phases that left pending, in order. */
  function RouteTaken(phases: seq<PhaseState>): seq<RouteStep> {
    if phases == [] then []
    else
      RouteTaken(phases[..|phases|-1]) +
      if phases[|phases|-1].status != Pending then [StepOf(phases[|phases|-1])] else []
  }

  function CompletedStep(p: Phase): RouteStep {
    RouteStep(p.phaseId, p.role, RouteCompleted)
  }

  /** The current phase, if it was begun. */
  function CurrentRoute(s: Instance): seq<RouteStep> {
    if HasCurrent(s) && Current(s).status != Pending then [StepOf(Current(s))] else []
  }

  /** The first `n` phases of the template, all completed. */
  function CompletedRoute(t: Template, n: nat): seq<RouteStep>
    requires n <= |t.phases|
  {
    seq(n, i requires 0 <= i < n => CompletedStep(t.phases[i]))
  }

  lemma {:induction false} PendingTailAddsNothing(phases: seq<PhaseState>, n: nat)
    requires n <= |phases| && forall i :: n <= i < |phases| ==> phases[i].status == Pending
    ensures RouteTaken(phases) == RouteTaken(phases[..n])
    decreases |phases|
  {
    if n < |phases| {
      PendingTailAddsNothing(phases[..|phases|-1], n);
      assert phases[..|phases|-1][..n] == phases[..n];
    } else {
      assert phases[..n] == phases;
    }
  }

  lemma {:induction false} CompletedPrefixIsListed(t: Template, phases: seq<PhaseState>, n: nat)
    requires n <= |phases| && n <= |t.phases|
    requires forall i :: 0 <= i < n ==> phases[i].status == Completed && NamesPhase(phases[i], t.phases[i])
    ensures RouteTaken(phases[..n]) == CompletedRoute(t, n)
  {
    if n > 0 {
      CompletedPrefixIsListed(t, phases, n - 1);
      assert phases[..n][..n-1] == phases[..n-1];
      assert CompletedRoute(t, n) == CompletedRoute(t, n - 1) + [CompletedStep(t.phases[n-1])];
    }
  }

  /** The route is the passed phases, completed, and then the current phase if it was begun. */
  lemma RouteIsPassedPhases(s: Instance)
    requires Inv(s)
    ensures RouteTaken(s.phases) ==
              CompletedRoute(s.template, s.idx) + CurrentRoute(s)
  {
    if HasCurrent(s) {
      assert forall i :: s.idx < i < |s.phases| ==> Untouched(s.phases[i]);
      PendingTailAddsNothing(s.phases, s.idx + 1);
      assert s.phases[..s.idx+1][..s.idx] == s.phases[..s.idx];
    } else {
      assert s.phases[..0] == s.phases;
    }
    CompletedPrefixIsListed(s.template, s.phases, s.idx);
  }

  /** A completed workflow's route is completed throughout. */
  lemma CompletedWorkflowRoute(s: Instance)
    requires Inv(s) && TerminalOf(s.status) == EndedCompleted
    ensures HasCurrent(s) && s.idx < |s.template.phases|
    ensures RouteTaken(s.phases) == CompletedRoute(s.template, s.idx + 1)
  {
    RouteIsPassedPhases(s);
    assert HasCurrent(s) && StepOf(Current(s)) == CompletedStep(s.template.phases[s.idx]);
    hide RouteTaken, Inv;
    assert CompletedRoute(s.template, s.idx + 1) ==
           CompletedRoute(s.template, s.idx) + [CompletedStep(s.template.phases[s.idx])];
  }

  /** The route of a state that satisfies the invariant, whatever led to it. */
  ghost predicate RouteIsRight(s: Instance) {
    && s.idx <= |s.template.phases|
    && RouteTaken(s.phases) ==
         CompletedRoute(s.template, s.idx) + CurrentRoute(s)
    && (TerminalOf(s.status) == EndedCompleted ==>
          s.idx < |s.template.phases| && RouteTaken(s.phases) == CompletedRoute(s.template, s.idx + 1))
  }

  lemma InvGivesRoute(s: Instance)
    requires Inv(s)
    ensures RouteIsRight(s)
  {
    RouteIsPassedPhases(s);
    if TerminalOf(s.status) == EndedCompleted {
      CompletedWorkflowRoute(s);
    }
  }

  /** In every history the route says where the workflow stopped, and agrees with its terminal status. */
  lemma EveryHistoryHasItsRoute(s: Instance, events: seq<Event>)
    requires Inv(s)
    ensures RouteIsRight(History(s, events))
  {
    EveryHistorySatisfiesInv(s, events);
    hide Inv, RouteIsRight, History;
    InvGivesRoute(History(s, events));
  }

  /** Completed and cancelled workflows end so, any other is recorded as failed. */
  lemma TerminalByStatus(s: WorkflowStatus)
    ensures TerminalOf(s) == EndedCompleted <==> s == WfCompleted
    ensures TerminalOf(s) == EndedCancelled <==> s == WfCancelled
    ensures TerminalOf(s) == EndedFailed <==> s != WfCompleted && s != WfCancelled
  {
  }

  /** The last step of a route is completed, skipped or failed as its phase is; a phase still open counts as failed. */
  lemma StepByStatus(p: PhaseState)
    ensures StepOf(p).phaseId == p.phaseId && StepOf(p).role == p.role
    ensures StepOf(p).status == RouteCompleted <==> p.status == Completed
    ensures StepOf(p).status == RouteSkipped <==> p.status == Skipped
    ensures StepOf(p).status == RouteFailed <==> p.status != Completed && p.status != Skipped
  {
  }
}
