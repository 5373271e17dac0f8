/** Gate conditions and their evaluators. */
module Gate {
  import opened Collections

  datatype GateCondition = CodeDiffExists | VerificationPassed | AuditClean | FindingsResolved | Custom(name: string)

  function ParseGateCondition(s: string): GateCondition {
    if s == "code_diff_exists" then CodeDiffExists
    else if s == "verification_passed" then VerificationPassed
    else if s == "audit_clean" then AuditClean
    else if s == "findings_resolved" then FindingsResolved
    else Custom(s)
  }

  /** What evaluating one condition can say; an evaluator may also break down. */
  datatype Verdict = Passed | Blocked | Broken

  /** Conditions are evaluated for a phase. */
  type Evaluator = (GateCondition, string) -> Verdict

  /** The evidence a task record carries. */
  datatype Evidence = Evidence(hasCodeDiff: bool, hasVerificationPassed: bool)

  function Permissive(): Evaluator {
    (c: GateCondition, phaseId: string) => Passed
  }

  /** Only the two evidence flags can pass; audit, findings and custom conditions are closed. */
  function ByEvidence(e: Evidence): Evaluator {
    (c: GateCondition, phaseId: string) =>
      match c
      case CodeDiffExists => if e.hasCodeDiff then Passed else Blocked
      case VerificationPassed => if e.hasVerificationPassed then Passed else Blocked
      case AuditClean => Blocked
      case FindingsResolved => Blocked
      case Custom(_) => Blocked
  }

  predicate AllPass(requires_: seq<string>, ev: Evaluator, phaseId: string) {
    forall i :: 0 <= i < |requires_| ==> ev(ParseGateCondition(requires_[i]), phaseId) == Passed
  }

  /** Evaluate the conditions in turn; the first breakdown ends the evaluation. */
  method EvaluateAll(requires_: seq<string>, ev: Evaluator, phaseId: string) returns (r: Result<bool, ()>)
    ensures r == Ok(true) <==> AllPass(requires_, ev, phaseId)
    ensures r.Err? <==> exists i :: 0 <= i < |requires_| && ev(ParseGateCondition(requires_[i]), phaseId) == Broken
  {
    var evals: seq<bool> := [];
    for k := 0 to |requires_|
      invariant |evals| == k
      invariant forall i :: 0 <= i < k ==>
                  ev(ParseGateCondition(requires_[i]), phaseId) == (if evals[i] then Passed else Blocked)
    {
      match ev(ParseGateCondition(requires_[k]), phaseId) {
        case Broken => return Err(());
        case Passed => evals := evals + [true];
        case Blocked => evals := evals + [false];
      }
    }
    r := Ok(forall i :: 0 <= i < |evals| ==> evals[i]);
  }

  /** A condition no evidence can pass. */
  predicate NeedsVerdict(s: string) {
    var c := ParseGateCondition(s);
    c.AuditClean? || c.FindingsResolved? || c.Custom?
  }

  /** A gate with such a condition stays closed to every evidence evaluator. */
  lemma ClosedToEvidence(requires_: seq<string>, e: Evidence, phaseId: string, i: nat)
    requires i < |requires_| && NeedsVerdict(requires_[i])
    ensures !AllPass(requires_, ByEvidence(e), phaseId)
  {
    assert ByEvidence(e)(ParseGateCondition(requires_[i]), phaseId) == Blocked;
  }

  /** Exactly which gates a task record opens: those that ask for nothing but what it shows. */
  lemma EvidenceOpensExactly(requires_: seq<string>, e: Evidence, phaseId: string)
    ensures AllPass(requires_, ByEvidence(e), phaseId) <==>
              forall c :: c in requires_ ==>
                || (c == "code_diff_exists" && e.hasCodeDiff)
                || (c == "verification_passed" && e.hasVerificationPassed)
    ensures AllPass(requires_, Permissive(), phaseId)
  {
    CodeDiffIsNotVerification();
    forall i | 0 <= i < |requires_|
      ensures ByEvidence(e)(ParseGateCondition(requires_[i]), phaseId) == Passed <==>
                || (requires_[i] == "code_diff_exists" && e.hasCodeDiff)
                || (requires_[i] == "verification_passed" && e.hasVerificationPassed)
      ensures requires_[i] in requires_
    {
    }
  }

  lemma CodeDiffIsNotVerification()
    ensures "code_diff_exists" != "verification_passed"
  {
    assert "code_diff_exists"[0] != "verification_passed"[0];
  }

  /** The texts of the four known conditions; any other text is a condition of its own. */
  lemma ParsesFourTexts(s: string)
    ensures s == "code_diff_exists" <==> ParseGateCondition(s) == CodeDiffExists
    ensures s == "verification_passed" <==> ParseGateCondition(s) == VerificationPassed
    ensures s == "audit_clean" <==> ParseGateCondition(s) == AuditClean
    ensures s == "findings_resolved" <==> ParseGateCondition(s) == FindingsResolved
    ensures ParseGateCondition(s).Custom? ==> ParseGateCondition(s).name == s
  {
    assert "code_diff_exists"[0] == 'c' && "verification_passed"[0] == 'v';
    assert "audit_clean"[0] == 'a' && "findings_resolved"[0] == 'f';
  }
}
