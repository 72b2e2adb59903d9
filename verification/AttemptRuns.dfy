/** What every reachable attempt satisfies, and what every history of attempts satisfies. */
module AttemptRuns {
  import opened Core
  import opened Transition
  import opened Identity
  import opened Likeness
  import opened Window
  import opened Attempt

  // --------------------------------------------------------- one attempt's runs --

  datatype Command =
    | DoBegin(at: int)
    | DoCapture(capture: CaptureInput, at: int)
    | DoSubmit(at: int)
    | DoComplete(identity: IdentityState, result: ProviderResult, anomalies: seq<Finding>, at: int)
    | DoResolve(cleared: bool, reviewerId: string, at: int)
    | DoExpire(at: int)

  function Perform(a: VerificationAttempt, command: Command): Result<VerificationAttempt, Code> {
    match command
    case DoBegin(at) => ApplyEvent(a, BeginCapture, NO_CONTEXT, at)
    case DoCapture(capture, at) => RecordCaptureOf(a, capture, at)
    case DoSubmit(at) => Submit(a, at)
    case DoComplete(identity, result, anomalies, at) =>
      var r := CompleteFromProvider(a, identity, result, anomalies, at);
      if r.Ok? then Ok(r.value.attempt) else Err(r.error)
    case DoResolve(cleared, reviewerId, at) => ResolveReview(a, cleared, reviewerId, at)
    case DoExpire(at) => ExpireIfDue(a, at)
  }

  function RunAttempt(a: VerificationAttempt, commands: seq<Command>): VerificationAttempt
    decreases |commands|
  {
    if commands == [] then a
    else
      var r := Perform(a, commands[0]);
      RunAttempt(if r.Ok? then r.value else a, commands[1..])
  }

  predicate OnePerKind(evidence: seq<Evidence>) {
    forall i, j :: 0 <= i < j < |evidence| ==> evidence[i].kind != evidence[j].kind
  }

  predicate NamedReviewer(a: VerificationAttempt) {
    a.reviewerId.Some? && !Blank(a.reviewerId.value)
  }

  /** The stored decision grants `verdict`, or a named reviewer took it over a stored review. */
  predicate Justified(a: VerificationAttempt, verdict: Decision) {
    a.decision.Some?
    && (a.decision.value.decision == verdict || (a.decision.value.decision == ManualReview && NamedReviewer(a)))
  }

  ghost predicate AttemptInv(a: VerificationAttempt) {
    OnePerKind(a.evidence)
    && (a.state in [AwaitingProvider, InReview, AttemptPassed, AttemptFailed] ==>
          AllRequiredCaptured(a.completedChecks) && a.submittedAt.Some?)
    && (a.decision.Some? <==> a.state in [AttemptPassed, AttemptFailed, InReview])
    && NoDup(a.completedChecks)
    && (a.confidence.Some? <==> a.decision.Some?)
    && (a.state == AttemptPassed ==> Justified(a, PassDecision))
    && (a.state == AttemptFailed ==> Justified(a, FailDecision))
    && (a.state == InReview ==> a.decision.value.decision == ManualReview)
    && (a.reviewerId.Some? ==> a.state in [AttemptPassed, AttemptFailed] && NamedReviewer(a))
  }

  lemma {:induction false} FilterKinds(evidence: seq<Evidence>, kind: EvidenceKind)
    requires OnePerKind(evidence)
    ensures OnePerKind(Filter(evidence, (e: Evidence) => e.kind != kind))
  {
    if evidence != [] {
      var rest := Filter(evidence[1..], (e: Evidence) => e.kind != kind);
      FilterKinds(evidence[1..], kind);
      forall i | 0 <= i < |rest| ensures rest[i].kind != evidence[0].kind {
        assert rest[i] in evidence[1..];
      }
    }
  }

  /**
   * A capture is taken exactly while capturing and not within fifteen minutes of the
   * last one of its kind; it replaces that kind's artefact and no other, and adds its check.
   */
  lemma CaptureReplacesItsKind(a: VerificationAttempt, capture: CaptureInput, now: int)
    requires OnePerKind(a.evidence)
    ensures RecordCaptureOf(a, capture, now).Ok?
       <==> a.state == Capturing
            && forall e :: e in a.evidence && e.kind == capture.kind ==> now >= e.capturedAt + 15 * MINUTE_MS
    ensures RecordCaptureOf(a, capture, now).Ok? ==>
              forall e :: e in RecordCaptureOf(a, capture, now).value.evidence
                     <==> (e in a.evidence && e.kind != capture.kind) || e == Captured(a, capture, now)
    ensures RecordCaptureOf(a, capture, now).Ok? ==>
              forall c :: c in RecordCaptureOf(a, capture, now).value.completedChecks <==> c in a.completedChecks || c == capture.check
  {
    DistinctIs(a.completedChecks + [capture.check]);
    var previous := Find(a.evidence, (e: Evidence) => e.kind == capture.kind);
    if previous.Some? {
      var i :| 0 <= i < |a.evidence| && a.evidence[i] == previous.value;
      forall e | e in a.evidence && e.kind == capture.kind ensures e == previous.value {
        var j :| 0 <= j < |a.evidence| && a.evidence[j] == e;
        assert i == j;
      }
    }
  }

  function Captured(a: VerificationAttempt, capture: CaptureInput, now: int): Evidence {
    Evidence(capture.kind, a.verificationId, now, capture.storageRef, capture.digest, EvidenceExpiry(capture.kind, now))
  }

  lemma CaptureKeeps(a: VerificationAttempt, capture: CaptureInput, at: int)
    requires AttemptInv(a) && RecordCaptureOf(a, capture, at).Ok?
    ensures AttemptInv(RecordCaptureOf(a, capture, at).value)
  {
    DistinctIs(a.completedChecks + [capture.check]);
    var kept := Filter(a.evidence, (e: Evidence) => e.kind != capture.kind);
    FilterKinds(a.evidence, capture.kind);
    forall i | 0 <= i < |kept| ensures kept[i].kind != capture.kind { assert kept[i] in kept; }
  }

  /** The attempt's half of a provider result, with the decision its guard reads as a parameter. */
  function Moved(a: VerificationAttempt, d: Decision, now: int): Result<VerificationAttempt, Code> {
    var next := AttemptMove(a.state, EventFor(d), AllRequiredCaptured(a.completedChecks), Some(d), false);
    if next.Err? then Err(next.error) else Ok(a.(state := next.value, updatedAt := now))
  }

  /** The decision the guards re-derive is the one stored. */
  lemma CompletesWith(a: VerificationAttempt, identity: IdentityState, result: ProviderResult, anomalies: seq<Finding>, now: int)
    ensures var d := DecideVerificationOutcome(result.score, result.checks, anomalies);
            CompleteFromProvider(a, identity, result, anomalies, now) == CompleteWith(identity, d, Moved(a, d.decision, now))
  {
    var d := DecideVerificationOutcome(result.score, result.checks, anomalies);
    assert DecisionFrom(AttemptContext(a.completedChecks, Some(result), anomalies, false)) == Some(d.decision);
  }

  lemma CompleteWithKeeps(a: VerificationAttempt, identity: IdentityState, d: DecisionRecord, at: int)
    requires AttemptInv(a) && CompleteWith(identity, d, Moved(a, d.decision, at)).Ok?
    ensures AttemptInv(CompleteWith(identity, d, Moved(a, d.decision, at)).value.attempt)
  {
  }

  lemma CompleteKeeps(a: VerificationAttempt, identity: IdentityState, result: ProviderResult, anomalies: seq<Finding>, at: int)
    requires AttemptInv(a) && CompleteFromProvider(a, identity, result, anomalies, at).Ok?
    ensures AttemptInv(CompleteFromProvider(a, identity, result, anomalies, at).value.attempt)
  {
    CompletesWith(a, identity, result, anomalies, at);
    CompleteWithKeeps(a, identity, DecideVerificationOutcome(result.score, result.checks, anomalies), at);
  }

  lemma ResolveKeeps(a: VerificationAttempt, cleared: bool, reviewerId: string, at: int)
    requires AttemptInv(a) && ResolveReview(a, cleared, reviewerId, at).Ok?
    ensures AttemptInv(ResolveReview(a, cleared, reviewerId, at).value)
  {
  }

  lemma ExpireKeeps(a: VerificationAttempt, at: int)
    requires AttemptInv(a) && ExpireIfDue(a, at).Ok?
    ensures AttemptInv(ExpireIfDue(a, at).value)
  {
  }

  lemma PerformKeeps(a: VerificationAttempt, command: Command)
    requires AttemptInv(a) && Perform(a, command).Ok?
    ensures AttemptInv(Perform(a, command).value)
  {
    match command
    case DoBegin(at) =>
    case DoCapture(capture, at) => CaptureKeeps(a, capture, at);
    case DoSubmit(at) =>
    case DoComplete(identity, result, anomalies, at) => CompleteKeeps(a, identity, result, anomalies, at);
    case DoResolve(cleared, reviewerId, at) => ResolveKeeps(a, cleared, reviewerId, at);
    case DoExpire(at) => ExpireKeeps(a, at);
  }

  /** Every attempt reachable from a start satisfies the invariant, whatever was asked of it. */
  lemma {:induction false} RunKeepsAttempt(a: VerificationAttempt, commands: seq<Command>)
    requires AttemptInv(a)
    ensures AttemptInv(RunAttempt(a, commands))
    decreases |commands|
  {
    if commands != [] {
      var r := Perform(a, commands[0]);
      if r.Ok? { PerformKeeps(a, commands[0]); }
      RunKeepsAttempt(if r.Ok? then r.value else a, commands[1..]);
    }
  }

  lemma StartedIsSound(
    verificationId: string, subjectId: string, identityState: IdentityState, now: int, reVerification: bool,
    existing: seq<VerificationAttempt>)
    requires PlanStart(verificationId, subjectId, identityState, now, reVerification, existing).Ok?
    ensures AttemptInv(PlanStart(verificationId, subjectId, identityState, now, reVerification, existing).value.attempt)
    ensures PlanStart(verificationId, subjectId, identityState, now, reVerification, existing).value.identity == Pending
    ensures var a := PlanStart(verificationId, subjectId, identityState, now, reVerification, existing).value.attempt;
            a.startedAt == now && a.expiresAt == now + DAY_MS && a.state == Initiated && a.subjectId == subjectId
  {
  }

  /** An open attempt among a subject's others. */
  predicate OtherOpen(existing: seq<VerificationAttempt>) {
    exists i :: 0 <= i < |existing| && existing[i].state in {Initiated, Capturing, AwaitingProvider, InReview}
  }

  function StartedLately(existing: seq<VerificationAttempt>, now: int): set<int> {
    set i | 0 <= i < |existing| && existing[i].startedAt > now - 86_400_000
  }

  /**
   * Exactly when an attempt starts: none open, fewer than five in the last day, and an
   * identity that a first verification, or a repeated one, may leave. And what it is then.
   */
  lemma StartedIff(
    verificationId: string, subjectId: string, identityState: IdentityState, now: int, reVerification: bool,
    existing: seq<VerificationAttempt>)
    ensures
      var r := PlanStart(verificationId, subjectId, identityState, now, reVerification, existing);
      (r == Err(AlreadyInFlight) <==> OtherOpen(existing))
      && (r.Err? && r.error.TooManyToday? <==> !OtherOpen(existing) && |StartedLately(existing, now)| >= 5)
      && (r.Ok? <==>
            !OtherOpen(existing) && |StartedLately(existing, now)| < 5
            && identityState in (if reVerification then {Verified, Expired} else {Unverified, Expired, VerificationFailed}))
      && (r.Ok? ==>
            r.value == Started(VerificationAttempt(verificationId, subjectId, Initiated, reVerification, now, now, now + 86_400_000,
                                                   None, [], [], None, None, None),
                               Pending))
  {
    var times := StartTimes(existing);
    CountAfterIs(times, now - DAY_MS);
    assert (set i | 0 <= i < |times| && now - DAY_MS < times[i]) == StartedLately(existing, now);
    if i :| 0 <= i < |existing| && IsOpen(existing[i].state) {
      assert existing[i].state in {Initiated, Capturing, AwaitingProvider, InReview};
    }
  }

  /** Capturing begins exactly once, on an attempt just started. */
  lemma BeginsIff(a: VerificationAttempt, now: int)
    ensures var r := Perform(a, DoBegin(now));
            (r.Ok? <==> a.state == Initiated) && (r.Ok? ==> r.value == a.(state := Capturing, updatedAt := now))
  {
  }

  /** An attempt is submitted exactly while capturing, with the three required checks on it. */
  lemma SubmitsIff(a: VerificationAttempt, now: int)
    ensures var r := Perform(a, DoSubmit(now));
            (r.Ok? <==> a.state == Capturing && DocumentAuthenticity in a.completedChecks && Liveness in a.completedChecks
                        && LikenessCheck in a.completedChecks)
            && (r.Ok? ==> r.value == a.(state := AwaitingProvider, updatedAt := now, submittedAt := Some(now)))
  {
    assert REQUIRED_CHECKS[0] == DocumentAuthenticity && REQUIRED_CHECKS[1] == Liveness && REQUIRED_CHECKS[2] == LikenessCheck;
  }

  /** Why a capture is refused: too soon after the last one of its kind, or out of turn. */
  lemma CaptureRefusalIs(a: VerificationAttempt, capture: CaptureInput, now: int)
    requires OnePerKind(a.evidence) && RecordCaptureOf(a, capture, now).Err?
    ensures RecordCaptureOf(a, capture, now).error
         == if exists e :: e in a.evidence && e.kind == capture.kind && now < e.capturedAt + 15 * MINUTE_MS then RateLimited
            else InvalidTransition
  {
    CaptureReplacesItsKind(a, capture, now);
    var previous := Find(a.evidence, (e: Evidence) => e.kind == capture.kind);
    if e :| e in a.evidence && e.kind == capture.kind && now < e.capturedAt + 15 * MINUTE_MS {
      var i, j :| 0 <= i < |a.evidence| && a.evidence[i] == e && 0 <= j < |a.evidence| && a.evidence[j] == previous.value;
      assert i == j;
    }
  }

  /** A capture changes nothing but the artefact, the checks and the time, and names the right attempt and expiry. */
  lemma CaptureIs(a: VerificationAttempt, capture: CaptureInput, now: int)
    requires RecordCaptureOf(a, capture, now).Ok?
    ensures
      var r := RecordCaptureOf(a, capture, now).value;
      var days := if capture.kind in {GovernmentId, Selfie, LivenessVideo} then 30 else 180;
      r == a.(evidence := r.evidence, completedChecks := r.completedChecks, updatedAt := now)
      && r.evidence != []
      && r.evidence[|r.evidence| - 1]
         == Evidence(capture.kind, a.verificationId, now, capture.storageRef, capture.digest, now + days * 86_400_000)
  {
  }

  /** A person's verdict: taken exactly on an attempt in review and under a name, and it says which way it went. */
  lemma ReviewVerdict(a: VerificationAttempt, cleared: bool, reviewerId: string, now: int)
    ensures var r := Perform(a, DoResolve(cleared, reviewerId, now));
            var verdict := if cleared then AttemptPassed else AttemptFailed;
            (r.Ok? <==> a.state == InReview && !Blank(reviewerId))
            && (r == Err(ValidationFailed) <==> Blank(reviewerId))
            && (r.Ok? ==> r.value == a.(state := verdict, updatedAt := now, reviewerId := Some(reviewerId)))
  {
  }

  /** An attempt expires exactly while it is live and its day is over. */
  lemma ExpiresIff(a: VerificationAttempt, now: int)
    ensures Perform(a, DoExpire(now))
         == if now < a.expiresAt then Err(Conflict)
            else if a.state in {Initiated, Capturing, AwaitingProvider} then Ok(a.(state := AttemptExpired, updatedAt := now))
            else Err(InvalidTransition)
  {
  }

  /** No row of the machine leaves a closed state. */
  lemma ClosedStatesRest(state: AttemptState, event: AttemptEvent, captured: bool, decided: Option<Decision>, reviewer: bool)
    requires !IsOpen(state)
    ensures AttemptMove(state, event, captured, decided, reviewer) == Err(InvalidTransition)
  {
  }

  lemma ClosedEventsRest(a: VerificationAttempt, event: AttemptEvent, context: AttemptContext, now: int)
    requires !IsOpen(a.state)
    ensures ApplyEvent(a, event, context, now) == Err(InvalidTransition)
  {
    ClosedStatesRest(a.state, event, AllRequiredCaptured(context.completedChecks), DecisionFrom(context), context.reviewerGiven);
  }

  lemma ClosedCaptureRests(a: VerificationAttempt, capture: CaptureInput, at: int)
    requires !IsOpen(a.state)
    ensures RecordCaptureOf(a, capture, at).Err?
  {
  }

  lemma ClosedMoveRests(a: VerificationAttempt, identity: IdentityState, d: DecisionRecord, at: int)
    requires !IsOpen(a.state)
    ensures CompleteWith(identity, d, Moved(a, d.decision, at)).Err?
  {
  }

  lemma ClosedResultRests(a: VerificationAttempt, identity: IdentityState, result: ProviderResult, anomalies: seq<Finding>, at: int)
    requires !IsOpen(a.state)
    ensures CompleteFromProvider(a, identity, result, anomalies, at).Err?
  {
    CompletesWith(a, identity, result, anomalies, at);
    ClosedMoveRests(a, identity, DecideVerificationOutcome(result.score, result.checks, anomalies), at);
  }

  /** A closed attempt never moves again. */
  lemma ClosedAttemptsRest(a: VerificationAttempt, command: Command)
    requires !IsOpen(a.state)
    ensures Perform(a, command).Err?
  {
    match command
    case DoBegin(at) => ClosedEventsRest(a, BeginCapture, NO_CONTEXT, at);
    case DoCapture(capture, at) => ClosedCaptureRests(a, capture, at);
    case DoSubmit(at) => ClosedEventsRest(a, SubmitToProvider, NO_CONTEXT.(completedChecks := a.completedChecks), at);
    case DoComplete(identity, result, anomalies, at) => ClosedResultRests(a, identity, result, anomalies, at);
    case DoResolve(cleared, reviewerId, at) =>
      ClosedEventsRest(a, if cleared then ReviewClears else ReviewConfirmsFraud, NO_CONTEXT.(reviewerGiven := true), at);
    case DoExpire(at) => ClosedEventsRest(a, ExpireAttempt, NO_CONTEXT, at);
  }

  /** The identity states from which a decision can be carried through. */
  predicate IdentityReady(identity: IdentityState, d: Decision) {
    identity == Pending || (d == ManualReview && (identity == Verified || identity == VerificationFailed))
  }

  function AttemptLanding(d: Decision): AttemptState {
    match d
    case PassDecision => AttemptPassed
    case FailDecision => AttemptFailed
    case ManualReview => InReview
  }

  function IdentityLanding(d: Decision): IdentityState {
    match d
    case PassDecision => Verified
    case FailDecision => VerificationFailed
    case ManualReview => ReviewRequired
  }

  lemma CompleteWithMoves(a: VerificationAttempt, identity: IdentityState, d: DecisionRecord, now: int)
    requires d.decision == PassDecision ==> d.confidence.band != Unusable && d.confidence.value >= 0.9
    ensures var r := CompleteWith(identity, d, Moved(a, d.decision, now));
            (r.Ok? <==> a.state == AwaitingProvider && IdentityReady(identity, d.decision))
            && (r.Ok? ==>
                  r.value == Completed(a.(state := AttemptLanding(d.decision), updatedAt := now, confidence := Some(d.confidence),
                                          decision := Some(d)),
                                       d, IdentityLanding(d.decision)))
  {
  }

  /**
   * The attempt and the identity move together: a provider result is applied exactly
   * when the attempt awaits one and the identity can take the matching move, and then
   * the two land in matching states. The guards that re-derive the decision never
   * disagree with the one stored.
   */
  lemma ResultMovesBothMachines(a: VerificationAttempt, identity: IdentityState, result: ProviderResult, anomalies: seq<Finding>, now: int)
    ensures var d := DecideVerificationOutcome(result.score, result.checks, anomalies);
            var r := CompleteFromProvider(a, identity, result, anomalies, now);
            (r.Ok? <==> a.state == AwaitingProvider && IdentityReady(identity, d.decision))
            && (r.Ok? ==>
                  r.value == Completed(a.(state := AttemptLanding(d.decision), updatedAt := now, confidence := Some(d.confidence),
                                          decision := Some(d)),
                                       d, IdentityLanding(d.decision)))
  {
    var d := DecideVerificationOutcome(result.score, result.checks, anomalies);
    CompletesWith(a, identity, result, anomalies, now);
    PassConfidence(result.score, result.checks, anomalies);
    CompleteWithMoves(a, identity, d, now);
  }

  // ------------------------------------------------------- checks and artefacts --

  /** The captures a run accepted, in order. */
  function AcceptedCaptures(a: VerificationAttempt, commands: seq<Command>): seq<CaptureInput>
    decreases |commands|
  {
    if commands == [] then []
    else
      var r := Perform(a, commands[0]);
      var rest := AcceptedCaptures(if r.Ok? then r.value else a, commands[1..]);
      if r.Ok? && commands[0].DoCapture? then [commands[0].capture] + rest else rest
  }

  function KindsOf(evidence: seq<Evidence>): set<EvidenceKind> {
    set e | e in evidence :: e.kind
  }

  function KindsOnFile(a: VerificationAttempt): set<EvidenceKind> {
    KindsOf(a.evidence)
  }

  function KindsCaptured(captures: seq<CaptureInput>): set<EvidenceKind> {
    set c | c in captures :: c.kind
  }

  function ChecksCaptured(captures: seq<CaptureInput>): set<Check> {
    set c | c in captures :: c.check
  }

  function ChecksDone(a: VerificationAttempt): set<Check> {
    set c | c in a.completedChecks
  }

  lemma CaptureAddsKindAndCheck(a: VerificationAttempt, capture: CaptureInput, at: int)
    requires OnePerKind(a.evidence) && RecordCaptureOf(a, capture, at).Ok?
    ensures KindsOnFile(RecordCaptureOf(a, capture, at).value) == KindsOnFile(a) + {capture.kind}
    ensures ChecksDone(RecordCaptureOf(a, capture, at).value) == ChecksDone(a) + {capture.check}
  {
    CaptureReplacesItsKind(a, capture, at);
    var after := RecordCaptureOf(a, capture, at).value;
    assert Captured(a, capture, at) in after.evidence;
    forall k | k in KindsOnFile(a) + {capture.kind} ensures k in KindsOnFile(after) {
      if k != capture.kind {
        var e :| e in a.evidence && e.kind == k;
        assert e in after.evidence;
      }
    }
  }

  /** No other command touches the artefacts or the checks. */
  lemma OnlyCapturesCapture(a: VerificationAttempt, command: Command)
    requires Perform(a, command).Ok? && !command.DoCapture?
    ensures Perform(a, command).value.evidence == a.evidence && Perform(a, command).value.completedChecks == a.completedChecks
  {
    if command.DoComplete? {
      CompletesWith(a, command.identity, command.result, command.anomalies, command.at);
      ResultKeepsCaptures(a, command.identity, DecideVerificationOutcome(command.result.score, command.result.checks, command.anomalies), command.at);
    }
  }

  lemma ResultKeepsCaptures(a: VerificationAttempt, identity: IdentityState, d: DecisionRecord, at: int)
    ensures var r := CompleteWith(identity, d, Moved(a, d.decision, at));
            r.Ok? ==> r.value.attempt.evidence == a.evidence && r.value.attempt.completedChecks == a.completedChecks
  {
  }

  /** After any run the kinds on file and the checks done are those the attempt had and those its accepted captures named. */
  lemma {:induction false} RunCaptures(a: VerificationAttempt, commands: seq<Command>)
    requires AttemptInv(a)
    ensures KindsOnFile(RunAttempt(a, commands)) == KindsOnFile(a) + KindsCaptured(AcceptedCaptures(a, commands))
    ensures ChecksDone(RunAttempt(a, commands)) == ChecksDone(a) + ChecksCaptured(AcceptedCaptures(a, commands))
    decreases |commands|
  {
    if commands != [] {
      var command, r := commands[0], Perform(a, commands[0]);
      var next := if r.Ok? then r.value else a;
      var rest := AcceptedCaptures(next, commands[1..]);
      if r.Ok? {
        PerformKeeps(a, command);
        if command.DoCapture? {
          CaptureAddsKindAndCheck(a, command.capture, command.at);
          HeadCaptured(command.capture, rest);
        } else {
          OnlyCapturesCapture(a, command);
        }
      }
      RunCaptures(next, commands[1..]);
    }
  }

  lemma HeadCaptured(c: CaptureInput, rest: seq<CaptureInput>)
    ensures KindsCaptured([c] + rest) == {c.kind} + KindsCaptured(rest)
    ensures ChecksCaptured([c] + rest) == {c.check} + ChecksCaptured(rest)
  {
    assert c in [c] + rest;
  }

  lemma OneArtefactPerKind(evidence: seq<Evidence>)
    requires OnePerKind(evidence)
    ensures |KindsOf(evidence)| == |evidence|
  {
    var kinds := seq(|evidence|, i requires 0 <= i < |evidence| => evidence[i].kind);
    NoDupCardinality(kinds);
    forall k | k in KindsOf(evidence) ensures k in kinds {
      var e :| e in evidence && e.kind == k;
      var i :| 0 <= i < |evidence| && evidence[i] == e;
      assert kinds[i] == k;
    }
    assert KindsOf(evidence) == ToSet(kinds);
  }

  predicate JustStarted(a: VerificationAttempt) {
    a.state == Initiated && a.evidence == [] && a.completedChecks == [] && a.decision.None? && a.confidence.None? && a.reviewerId.None?
  }

  /**
   * Checks are claimed, not tied to artefacts: a submitted attempt has every required
   * check on record, and it holds as many artefacts as required checks exactly when
   * the captures it accepted named that many different kinds.
   */
  lemma {:induction false} SubmittedHoldsEnoughIff(a: VerificationAttempt, commands: seq<Command>)
    requires JustStarted(a)
    ensures var after, captures := RunAttempt(a, commands), AcceptedCaptures(a, commands);
            |after.evidence| == |KindsCaptured(captures)| && ChecksDone(after) == ChecksCaptured(captures)
            && (after.state in [AwaitingProvider, InReview, AttemptPassed, AttemptFailed] ==>
                  (forall c :: c in REQUIRED_CHECKS ==> c in ChecksCaptured(captures))
                  && (|after.evidence| >= |REQUIRED_CHECKS| <==> |KindsCaptured(captures)| >= |REQUIRED_CHECKS|))
  {
    RunKeepsAttempt(a, commands);
    RunCaptures(a, commands);
    OneArtefactPerKind(RunAttempt(a, commands).evidence);
    assert KindsOnFile(a) == {} && ChecksDone(a) == {};
    var after := RunAttempt(a, commands);
    if after.state in [AwaitingProvider, InReview, AttemptPassed, AttemptFailed] {
      forall c | c in REQUIRED_CHECKS ensures c in ChecksDone(after) {}
    }
  }

  lemma PlannedIsStarted(
    verificationId: string, subjectId: string, identityState: IdentityState, now: int, reVerification: bool,
    existing: seq<VerificationAttempt>)
    requires PlanStart(verificationId, subjectId, identityState, now, reVerification, existing).Ok?
    ensures JustStarted(PlanStart(verificationId, subjectId, identityState, now, reVerification, existing).value.attempt)
  {
  }

  function SelfieFor(check: Check, at: int): Command {
    DoCapture(CaptureInput(check, Selfie, "ref", "digest"), at)
  }

  lemma {:induction false} RunStep(a: VerificationAttempt, command: Command, rest: seq<Command>)
    requires Perform(a, command).Ok?
    ensures RunAttempt(a, [command] + rest) == RunAttempt(Perform(a, command).value, rest)
  {
    assert ([command] + rest)[1..] == rest;
  }

  /** Capturing, with these checks done and at most one selfie, taken long enough before `at`. */
  ghost predicate OnlySelfies(a: VerificationAttempt, done: seq<Check>, at: int) {
    a.state == Capturing && a.completedChecks == done && NoDup(done) && |a.evidence| <= 1
    && forall e :: e in a.evidence ==> e.kind == Selfie && e.capturedAt + RETAKE_COOLDOWN_MS <= at
  }

  lemma SelfieAgain(a: VerificationAttempt, done: seq<Check>, check: Check, at: int)
    requires OnlySelfies(a, done, at) && check !in done
    ensures Perform(a, SelfieFor(check, at)).Ok?
    ensures OnlySelfies(Perform(a, SelfieFor(check, at)).value, done + [check], at + RETAKE_COOLDOWN_MS)
    ensures |Perform(a, SelfieFor(check, at)).value.evidence| == 1
  {
    DistinctOfNoDup(done + [check]);
  }

  lemma SelfieRun(a: VerificationAttempt, done: seq<Check>, check: Check, at: int, rest: seq<Command>) returns (next: VerificationAttempt)
    requires OnlySelfies(a, done, at) && check !in done
    ensures OnlySelfies(next, done + [check], at + RETAKE_COOLDOWN_MS) && |next.evidence| == 1
    ensures RunAttempt(a, [SelfieFor(check, at)] + rest) == RunAttempt(next, rest)
  {
    SelfieAgain(a, done, check, at);
    RunStep(a, SelfieFor(check, at), rest);
    next := Perform(a, SelfieFor(check, at)).value;
  }

  /** One selfie after the other, each claiming the next check, a cooldown apart. */
  function Selfies(checks: seq<Check>, at: int): seq<Command> {
    if checks == [] then [] else [SelfieFor(checks[0], at)] + Selfies(checks[1..], at + RETAKE_COOLDOWN_MS)
  }

  lemma {:induction false} SelfiesRun(a: VerificationAttempt, done: seq<Check>, checks: seq<Check>, at: int, rest: seq<Command>)
    returns (next: VerificationAttempt)
    requires OnlySelfies(a, done, at) && NoDup(done + checks)
    ensures RunAttempt(a, Selfies(checks, at) + rest) == RunAttempt(next, rest)
    ensures next.state == Capturing && next.completedChecks == done + checks && |next.evidence| <= 1
    decreases |checks|
  {
    if checks == [] {
      assert Selfies(checks, at) + rest == rest && done + checks == done;
      next := a;
    } else {
      var later := Selfies(checks[1..], at + RETAKE_COOLDOWN_MS) + rest;
      assert Selfies(checks, at) + rest == [SelfieFor(checks[0], at)] + later;
      assert done + checks == (done + [checks[0]]) + checks[1..];
      forall i | 0 <= i < |done| ensures done[i] != checks[0] {
        assert (done + checks)[i] == done[i] && (done + checks)[|done|] == checks[0];
      }
      var one := SelfieRun(a, done, checks[0], at, later);
      next := SelfiesRun(one, done + [checks[0]], checks[1..], at + RETAKE_COOLDOWN_MS, rest);
    }
  }

  lemma {:induction false} SubmitRun(a: VerificationAttempt, at: int)
    requires a.state == Capturing && AllRequiredCaptured(a.completedChecks)
    ensures RunAttempt(a, [DoSubmit(at)]).state == AwaitingProvider && RunAttempt(a, [DoSubmit(at)]).evidence == a.evidence
  {
    assert [DoSubmit(at)] == [DoSubmit(at)] + [];
    RunStep(a, DoSubmit(at), []);
  }

  /** Whatever distinct checks are claimed, the required ones among them, a started attempt can be submitted with one selfie. */
  lemma {:induction false} ChecksNeedNotMatchEvidence(a: VerificationAttempt, checks: seq<Check>, at: int)
    requires JustStarted(a) && NoDup(checks) && AllRequiredCaptured(checks)
    ensures var commands := [DoBegin(0)] + (Selfies(checks, 0) + [DoSubmit(at)]);
            RunAttempt(a, commands).state == AwaitingProvider && |RunAttempt(a, commands).evidence| <= 1
  {
    assert [] + checks == checks;
    RunStep(a, DoBegin(0), Selfies(checks, 0) + [DoSubmit(at)]);
    var captured := SelfiesRun(Perform(a, DoBegin(0)).value, [], checks, 0, [DoSubmit(at)]);
    SubmitRun(captured, at);
  }

  // --------------------------------------------------- one subject's attempts --

  /** A subject's attempts in starting order, and the clock. */
  datatype Subject = Subject(attempts: seq<VerificationAttempt>, clock: int)

  datatype SubjectStep =
    | StartAttempt(verificationId: string, subjectId: string, identity: IdentityState, reVerification: bool, at: int)
    | MoveAttempt(index: nat, command: Command, at: int)

  function StepSubject(s: Subject, step: SubjectStep): Subject {
    match step
    case StartAttempt(verificationId, subjectId, identity, reVerification, at) =>
      var r := PlanStart(verificationId, subjectId, identity, at, reVerification, s.attempts);
      Subject(if r.Ok? then s.attempts + [r.value.attempt] else s.attempts, at)
    case MoveAttempt(index, command, at) =>
      if index < |s.attempts| && Perform(s.attempts[index], command).Ok?
      then Subject(s.attempts[index := Perform(s.attempts[index], command).value], at)
      else s.(clock := at)
  }

  /** A start that is planned is added, and a command an attempt takes replaces it; nothing else changes one. */
  lemma StepTaken(s: Subject, step: SubjectStep)
    ensures
      var after := StepSubject(s, step).attempts;
      match step
      case StartAttempt(verificationId, subjectId, identity, reVerification, at) =>
        if !OtherOpen(s.attempts) && |StartedLately(s.attempts, at)| < 5
           && identity in (if reVerification then {Verified, Expired} else {Unverified, Expired, VerificationFailed})
        then |after| == |s.attempts| + 1 && s.attempts <= after
             && after[|s.attempts|] == VerificationAttempt(verificationId, subjectId, Initiated, reVerification, at, at, at + 86_400_000,
                                                           None, [], [], None, None, None)
        else after == s.attempts
      case MoveAttempt(index, command, _) =>
        |after| == |s.attempts|
        && forall k :: 0 <= k < |after| ==>
             after[k] == if k == index && Perform(s.attempts[k], command).Ok? then Perform(s.attempts[k], command).value else s.attempts[k]
  {
    if step.StartAttempt? {
      StartedIff(step.verificationId, step.subjectId, step.identity, step.at, step.reVerification, s.attempts);
    }
  }

  function RunSubject(s: Subject, steps: seq<SubjectStep>): Subject
    decreases |steps|
  {
    if steps == [] then s else RunSubject(StepSubject(s, steps[0]), steps[1..])
  }

  predicate ClockRuns(s: Subject, steps: seq<SubjectStep>)
    decreases |steps|
  {
    steps == [] || (s.clock <= steps[0].at && ClockRuns(StepSubject(s, steps[0]), steps[1..]))
  }

  predicate OneOpen(attempts: seq<VerificationAttempt>) {
    forall i, j :: 0 <= i < j < |attempts| ==> !(IsOpen(attempts[i].state) && IsOpen(attempts[j].state))
  }

  predicate SubjectInv(s: Subject) {
    OneOpen(s.attempts) && Paced(StartTimes(s.attempts), 5, DAY_MS) && AllAtMost(StartTimes(s.attempts), s.clock)
  }

  lemma PerformKeepsStart(a: VerificationAttempt, command: Command)
    requires Perform(a, command).Ok?
    ensures Perform(a, command).value.startedAt == a.startedAt
    ensures IsOpen(a.state)
  {
    if !IsOpen(a.state) { ClosedAttemptsRest(a, command); }
  }

  lemma {:induction false} StartKeepsSubject(s: Subject, a: VerificationAttempt, at: int)
    requires SubjectInv(s) && s.clock <= at && a.startedAt == at
    requires forall i :: 0 <= i < |s.attempts| ==> !IsOpen(s.attempts[i].state)
    requires CountAfter(StartTimes(s.attempts), at - DAY_MS) < 5
    ensures SubjectInv(Subject(s.attempts + [a], at))
  {
    var times := StartTimes(s.attempts);
    assert StartTimes(s.attempts + [a]) == times + [at];
    CountAfterIsCountIn(times, at - DAY_MS, at);
    PacedExtend(times, at, 5, DAY_MS);
  }

  lemma MoveKeepsSubject(s: Subject, index: nat, a: VerificationAttempt, at: int)
    requires SubjectInv(s) && s.clock <= at && index < |s.attempts|
    requires a.startedAt == s.attempts[index].startedAt && IsOpen(s.attempts[index].state)
    ensures SubjectInv(Subject(s.attempts[index := a], at))
  {
    assert StartTimes(s.attempts[index := a]) == StartTimes(s.attempts);
  }

  lemma StepKeepsSubject(s: Subject, step: SubjectStep)
    requires SubjectInv(s) && s.clock <= step.at
    ensures SubjectInv(StepSubject(s, step))
  {
    match step
    case StartAttempt(verificationId, subjectId, identity, reVerification, at) =>
      var r := PlanStart(verificationId, subjectId, identity, at, reVerification, s.attempts);
      if r.Ok? { StartKeepsSubject(s, r.value.attempt, at); }
    case MoveAttempt(index, command, at) =>
      if index < |s.attempts| && Perform(s.attempts[index], command).Ok? {
        PerformKeepsStart(s.attempts[index], command);
        MoveKeepsSubject(s, index, Perform(s.attempts[index], command).value, at);
      }
  }

  lemma {:induction false} RunKeepsSubject(s: Subject, steps: seq<SubjectStep>)
    requires SubjectInv(s) && ClockRuns(s, steps)
    ensures SubjectInv(RunSubject(s, steps))
    decreases |steps|
  {
    if steps != [] {
      StepKeepsSubject(s, steps[0]);
      RunKeepsSubject(StepSubject(s, steps[0]), steps[1..]);
    }
  }

  /** Over every run of one subject: at most one open attempt, and at most five starts in any 24 hours. */
  lemma StartsAreCapped(clock: int, steps: seq<SubjectStep>, at: int)
    requires ClockRuns(Subject([], clock), steps)
    ensures var s := RunSubject(Subject([], clock), steps);
            OneOpen(s.attempts) && CountIn(StartTimes(s.attempts), at - DAY_MS, at) <= 5
  {
    RunKeepsSubject(Subject([], clock), steps);
    NoWindowOverfull(StartTimes(RunSubject(Subject([], clock), steps).attempts), 5, DAY_MS, at);
  }

  predicate RefusedForToday(
    existing: seq<VerificationAttempt>, verificationId: string, subjectId: string, identity: IdentityState, reVerification: bool, at: int)
  {
    var r := PlanStart(verificationId, subjectId, identity, at, reVerification, existing);
    r.Err? && r.error.TooManyToday?
  }

  lemma {:induction false} RefusedForTodayIff(
    existing: seq<VerificationAttempt>, verificationId: string, subjectId: string, identity: IdentityState, reVerification: bool, at: int)
    ensures RefusedForToday(existing, verificationId, subjectId, identity, reVerification, at)
       <==> (forall i :: 0 <= i < |existing| ==> !IsOpen(existing[i].state)) && CountAfter(StartTimes(existing), at - DAY_MS) >= 5
  {
  }

  /** The promised `retryAt` is exact: the daily cap refuses until it and not from it. */
  lemma RetryAtIsExact(s: Subject, verificationId: string, subjectId: string, identity: IdentityState, reVerification: bool, now: int, retry: int)
    requires SubjectInv(s) && s.clock <= now
    requires RefusedForToday(s.attempts, verificationId, subjectId, identity, reVerification, now)
    requires now <= retry <= PlanStart(verificationId, subjectId, identity, now, reVerification, s.attempts).error.retryAt
    ensures RefusedForToday(s.attempts, verificationId, subjectId, identity, reVerification, retry)
       <==> retry < PlanStart(verificationId, subjectId, identity, now, reVerification, s.attempts).error.retryAt
  {
    RefusedForTodayIff(s.attempts, verificationId, subjectId, identity, reVerification, now);
    RefusedForTodayIff(s.attempts, verificationId, subjectId, identity, reVerification, retry);
    CapLiftsExactly(StartTimes(s.attempts), 5, DAY_MS, now, retry);
  }
}
