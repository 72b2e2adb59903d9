/** The verification decision of `packages/identity/src/likeness.ts`. */
module Likeness {
  import opened Core

  datatype Band = Unusable | Insufficient | Borderline | Sufficient

  /** A provider's number: not every double is a finite one. */
  datatype Score = Finite(value: real) | NotFinite

  datatype Confidence = Confidence(value: real, band: Band)

  const VERIFIED_FLOOR := 0.9
  const AUTO_FAIL_FLOOR := 0.55

  predicate Bounded(s: Score) {
    s.Finite? && 0.0 <= s.value <= 1.0
  }

  function ClassifyConfidence(s: Score): Band {
    if !Bounded(s) then Unusable
    else if s.value < AUTO_FAIL_FLOOR then Insufficient
    else if s.value < VERIFIED_FLOOR then Borderline
    else Sufficient
  }

  datatype Check = DocumentAuthenticity | Liveness | LikenessCheck | DocumentToSelfieMatch | AgeConsistency

  const REQUIRED_CHECKS := [DocumentAuthenticity, Liveness, LikenessCheck]

  datatype CheckOutcome = CheckPassed | CheckFailed | Inconclusive | NotPerformed

  datatype CheckResult = CheckResult(check: Check, outcome: CheckOutcome)

  datatype Severity = Informational | Review | Blocking

  datatype Finding = Finding(code: string, severity: Severity)

  function Rank(s: Severity): int {
    match s
    case Informational => 0
    case Review => 1
    case Blocking => 2
  }

  /** The `reduce` that keeps the first finding of the highest severity. */
  function WorstFinding(findings: seq<Finding>): (r: Option<Finding>)
    ensures r.None? <==> findings == []
    ensures r.Some? ==> r.value in findings
    ensures r.Some? ==> forall i :: 0 <= i < |findings| ==> Rank(findings[i].severity) <= Rank(r.value.severity)
    ensures r.Some? ==> exists i :: 0 <= i < |findings| && findings[i] == r.value
                                    && forall j :: 0 <= j < i ==> Rank(findings[j].severity) < Rank(r.value.severity)
  {
    if findings == [] then None else
      var last, rest := findings[|findings| - 1], WorstFinding(findings[..|findings| - 1]);
      if rest == None || Rank(last.severity) > Rank(rest.value.severity) then Some(last) else rest
  }

  datatype Decision = PassDecision | FailDecision | ManualReview

  datatype DecisionRecord = DecisionRecord(decision: Decision, confidence: Confidence, missingChecks: seq<Check>)

  predicate Reported(checks: seq<CheckResult>, check: Check) {
    exists i :: 0 <= i < |checks| && checks[i].check == check
  }

  /** The first result for a check, which is the one asked whether it was conclusive. */
  function FirstResult(checks: seq<CheckResult>, check: Check): Option<CheckResult> {
    Find(checks, (c: CheckResult) => c.check == check)
  }

  predicate Unresolved(checks: seq<CheckResult>, check: Check) {
    var r := FirstResult(checks, check);
    r.None? || r.value.outcome == Inconclusive || r.value.outcome == NotPerformed
  }

  predicate AnyFailed(checks: seq<CheckResult>, check: Check) {
    exists i :: 0 <= i < |checks| && checks[i].check == check && checks[i].outcome == CheckFailed
  }

  function DecideVerificationOutcome(score: Score, checks: seq<CheckResult>, anomalies: seq<Finding>): DecisionRecord {
    var missing := Filter(REQUIRED_CHECKS, (c: Check) => !Reported(checks, c));
    var unresolved := Filter(REQUIRED_CHECKS, (c: Check) => Unresolved(checks, c));
    var failed := Filter(REQUIRED_CHECKS, (c: Check) => AnyFailed(checks, c));
    var worst := WorstFinding(anomalies);
    var actionable := worst.Some? && Rank(worst.value.severity) >= Rank(Review);
    if !Bounded(score) then DecisionRecord(ManualReview, Confidence(0.0, Unusable), missing)
    else
      var confidence := Confidence(score.value, ClassifyConfidence(score));
      if actionable && worst.value.severity == Blocking then DecisionRecord(ManualReview, confidence, missing)
      else if |unresolved| > 0 then DecisionRecord(ManualReview, confidence, missing)
      else if |failed| > 0 then
        DecisionRecord(if confidence.band == Sufficient then ManualReview else FailDecision, confidence, missing)
      else if confidence.band == Insufficient then DecisionRecord(FailDecision, confidence, missing)
      else if confidence.band == Borderline then DecisionRecord(ManualReview, confidence, missing)
      else if actionable then DecisionRecord(ManualReview, confidence, missing)
      else DecisionRecord(PassDecision, confidence, missing)
  }

  // ------------------------------------------------------------- properties --

  /** Some finding is at least this severe. */
  predicate Found(anomalies: seq<Finding>, severity: Severity) {
    exists i :: 0 <= i < |anomalies| && Rank(anomalies[i].severity) >= Rank(severity)
  }

  lemma {:induction false} WorstReaches(anomalies: seq<Finding>, severity: Severity)
    ensures Found(anomalies, severity)
       <==> WorstFinding(anomalies).Some? && Rank(WorstFinding(anomalies).value.severity) >= Rank(severity)
  {
    if WorstFinding(anomalies).Some? && Rank(WorstFinding(anomalies).value.severity) >= Rank(severity) {
      var i :| 0 <= i < |anomalies| && anomalies[i] == WorstFinding(anomalies).value;
    }
  }

  lemma SomeRequired(keep: Check -> bool)
    ensures |Filter(REQUIRED_CHECKS, keep)| > 0 <==> exists c :: c in REQUIRED_CHECKS && keep(c)
  {
    var kept := Filter(REQUIRED_CHECKS, keep);
    if |kept| > 0 { assert kept[0] in kept; }
    if c :| c in REQUIRED_CHECKS && keep(c) { assert c in kept; }
  }

  /**
   * Exactly what passes: a confident bounded score, every required check reported
   * conclusively first and failed nowhere, and nothing a human must see.
   */
  lemma PassIff(score: Score, checks: seq<CheckResult>, anomalies: seq<Finding>)
    ensures DecideVerificationOutcome(score, checks, anomalies).decision == PassDecision
       <==> Bounded(score) && score.value >= 0.9 && !Found(anomalies, Review)
            && forall c :: c in REQUIRED_CHECKS ==> !Unresolved(checks, c) && !AnyFailed(checks, c)
  {
    SomeRequired((c: Check) => Unresolved(checks, c));
    SomeRequired((c: Check) => AnyFailed(checks, c));
    WorstReaches(anomalies, Review);
  }

  /** A pass always carries a confidence the identity machine's own threshold accepts. */
  lemma PassConfidence(score: Score, checks: seq<CheckResult>, anomalies: seq<Finding>)
    ensures var d := DecideVerificationOutcome(score, checks, anomalies);
            d.decision == PassDecision ==> d.confidence.band == Sufficient && d.confidence.value >= 0.9
  {
  }

  /** Exactly what fails: no blocking finding, every required check conclusive, and a failed check or a hopeless score. */
  lemma FailIff(score: Score, checks: seq<CheckResult>, anomalies: seq<Finding>)
    ensures DecideVerificationOutcome(score, checks, anomalies).decision == FailDecision
       <==> Bounded(score) && !Found(anomalies, Blocking)
            && (forall c :: c in REQUIRED_CHECKS ==> !Unresolved(checks, c))
            && score.value < 0.9
            && ((exists c :: c in REQUIRED_CHECKS && AnyFailed(checks, c)) || score.value < 0.55)
  {
    SomeRequired((c: Check) => Unresolved(checks, c));
    SomeRequired((c: Check) => AnyFailed(checks, c));
    WorstReaches(anomalies, Blocking);
  }

  lemma UnreportedIsUnresolved(checks: seq<CheckResult>, check: Check)
    requires !Reported(checks, check)
    ensures Unresolved(checks, check)
  {
  }

  /** Whoever passes or fails had every required check reported. */
  lemma VerdictsMissNothing(score: Score, checks: seq<CheckResult>, anomalies: seq<Finding>)
    requires DecideVerificationOutcome(score, checks, anomalies).decision != ManualReview
    ensures DecideVerificationOutcome(score, checks, anomalies).missingChecks == []
  {
    SomeRequired((c: Check) => Unresolved(checks, c));
    var missing := Filter(REQUIRED_CHECKS, (c: Check) => !Reported(checks, c));
    if missing != [] {
      UnreportedIsUnresolved(checks, missing[0]);
      assert false;
    }
  }

  lemma FoundInMore(some: seq<Finding>, more: seq<Finding>, severity: Severity)
    requires forall f :: f in some ==> f in more
    ensures Found(some, severity) ==> Found(more, severity)
  {
    if i :| 0 <= i < |some| && Rank(some[i].severity) >= Rank(severity) { assert some[i] in more; }
  }

  /** More findings can only leave the answer or turn it into a review; they can never pass or fail anyone. */
  lemma FindingsOnlySlowDown(score: Score, checks: seq<CheckResult>, some: seq<Finding>, more: seq<Finding>)
    requires forall f :: f in some ==> f in more
    ensures var before, after := DecideVerificationOutcome(score, checks, some), DecideVerificationOutcome(score, checks, more);
            after == before || (after == before.(decision := ManualReview))
  {
    FoundInMore(some, more, Review);
    FoundInMore(some, more, Blocking);
    WorstReaches(some, Review);
    WorstReaches(some, Blocking);
    WorstReaches(more, Review);
    WorstReaches(more, Blocking);
  }

  lemma ReportedIs(checks: seq<CheckResult>, c: Check)
    ensures Reported(checks, c) <==> exists r :: r in checks && r.check == c
  {
    if i :| 0 <= i < |checks| && checks[i].check == c { assert checks[i] in checks; }
  }

  lemma MissingAre(score: Score, checks: seq<CheckResult>, anomalies: seq<Finding>, c: Check)
    ensures c in DecideVerificationOutcome(score, checks, anomalies).missingChecks
       <==> c in REQUIRED_CHECKS && !Reported(checks, c)
  {
  }

  /** What is recorded besides the verdict: the score with its band, or none. */
  lemma RecordIs(score: Score, checks: seq<CheckResult>, anomalies: seq<Finding>)
    ensures DecideVerificationOutcome(score, checks, anomalies).confidence
         == if score.Finite? && 0.0 <= score.value <= 1.0
            then Confidence(score.value,
                            if score.value < 0.55 then Insufficient else if score.value < 0.9 then Borderline else Sufficient)
            else Confidence(0.0, Unusable)
  {
  }

  /** The required checks nobody reported are named. */
  lemma MissingChecksAre(score: Score, checks: seq<CheckResult>, anomalies: seq<Finding>)
    ensures forall c :: c in DecideVerificationOutcome(score, checks, anomalies).missingChecks <==>
              c in {DocumentAuthenticity, Liveness, LikenessCheck} && forall r :: r in checks ==> r.check != c
  {
    assert REQUIRED_CHECKS[0] == DocumentAuthenticity && REQUIRED_CHECKS[1] == Liveness && REQUIRED_CHECKS[2] == LikenessCheck;
    forall c ensures c in DecideVerificationOutcome(score, checks, anomalies).missingChecks <==>
                       c in {DocumentAuthenticity, Liveness, LikenessCheck} && forall r :: r in checks ==> r.check != c {
      MissingAre(score, checks, anomalies, c);
      ReportedIs(checks, c);
    }
  }

  /** A check failed when some result of it says so, whichever came first. */
  lemma AnyFailedIff(checks: seq<CheckResult>, check: Check)
    ensures AnyFailed(checks, check) <==> exists r :: r in checks && r.check == check && r.outcome == CheckFailed
  {
    if i :| 0 <= i < |checks| && checks[i].check == check && checks[i].outcome == CheckFailed { assert checks[i] in checks; }
  }

  /** What is left open about a required check: not reported, or first reported as inconclusive or not performed. */
  lemma UnresolvedIff(checks: seq<CheckResult>, check: Check)
    ensures Unresolved(checks, check)
       <==> (forall i :: 0 <= i < |checks| ==> checks[i].check != check)
            || exists i :: 0 <= i < |checks| && checks[i].check == check && checks[i].outcome in {Inconclusive, NotPerformed}
                           && forall j :: 0 <= j < i ==> checks[j].check != check
  {
    var named := (c: CheckResult) => c.check == check;
    if Find(checks, named).Some? { FindIsFirst(checks, named); }
    if i :| 0 <= i < |checks| && checks[i].check == check && forall j :: 0 <= j < i ==> checks[j].check != check {
      FirstIsFound(checks, named, i);
    }
  }
}
