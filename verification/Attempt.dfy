/** The verification attempt aggregate (`packages/identity/src/verification-request.ts`). */
module Attempt {
  import opened Core
  import opened Transition
  import opened Identity
  import opened Likeness
  import opened Window

  const MINUTE_MS := 60_000
  const HOUR_MS := 3_600_000
  const DAY_MS := 86_400_000

  // ---------------------------------------------------------------- the machine --

  datatype AttemptState = Initiated | Capturing | AwaitingProvider | AttemptPassed | AttemptFailed | InReview | AttemptExpired

  datatype AttemptEvent =
    | BeginCapture
    | RecordCapture
    | SubmitToProvider
    | ResultPassed
    | ResultFailed
    | ResultInconclusive
    | ReviewClears
    | ReviewConfirmsFraud
    | ExpireAttempt
    | WithdrawAttempt

  datatype ProviderResult = ProviderResult(score: Score, checks: seq<CheckResult>)

  datatype AttemptContext = AttemptContext(
    completedChecks: seq<Check>, providerResult: Option<ProviderResult>, anomalies: seq<Finding>, reviewerGiven: bool)

  const NO_CONTEXT := AttemptContext([], None, [], false)

  function DecisionFrom(c: AttemptContext): Option<Decision> {
    if c.providerResult.None? then None
    else Some(DecideVerificationOutcome(c.providerResult.value.score, c.providerResult.value.checks, c.anomalies).decision)
  }

  predicate AllRequiredCaptured(completed: seq<Check>) {
    forall c :: c in REQUIRED_CHECKS ==> c in completed
  }

  const LIVE_STATES := [Initiated, Capturing, AwaitingProvider]

  const ATTEMPT_TABLE: seq<Row<AttemptState, AttemptEvent, AttemptContext>> := [
    Row(BeginCapture, Some([Initiated]), Capturing, None),
    Row(RecordCapture, Some([Capturing]), Capturing, None),
    Row(SubmitToProvider, Some([Capturing]), AwaitingProvider,
        Some((c: AttemptContext) => AllRequiredCaptured(c.completedChecks))),
    Row(ResultPassed, Some([AwaitingProvider]), AttemptPassed, Some((c: AttemptContext) => DecisionFrom(c) == Some(PassDecision))),
    Row(ResultFailed, Some([AwaitingProvider]), AttemptFailed, Some((c: AttemptContext) => DecisionFrom(c) == Some(FailDecision))),
    Row(ResultInconclusive, Some([AwaitingProvider]), InReview, Some((c: AttemptContext) => DecisionFrom(c) == Some(ManualReview))),
    Row(ReviewClears, Some([InReview]), AttemptPassed, Some((c: AttemptContext) => c.reviewerGiven)),
    Row(ReviewConfirmsFraud, Some([InReview]), AttemptFailed, Some((c: AttemptContext) => c.reviewerGiven)),
    Row(ExpireAttempt, Some(LIVE_STATES), AttemptExpired, None),
    Row(WithdrawAttempt, Some(LIVE_STATES), AttemptExpired, None)
  ]

  predicate IsLive(state: AttemptState) {
    state == Initiated || state == Capturing || state == AwaitingProvider
  }

  /** The move an event makes, given what its guards read. */
  function AttemptMove(state: AttemptState, event: AttemptEvent, captured: bool, decided: Option<Decision>, reviewer: bool): Result<AttemptState, Code> {
    match event
    case BeginCapture => Answer(state == Initiated, true, Capturing)
    case RecordCapture => Answer(state == Capturing, true, Capturing)
    case SubmitToProvider => Answer(state == Capturing, captured, AwaitingProvider)
    case ResultPassed => Answer(state == AwaitingProvider, decided == Some(PassDecision), AttemptPassed)
    case ResultFailed => Answer(state == AwaitingProvider, decided == Some(FailDecision), AttemptFailed)
    case ResultInconclusive => Answer(state == AwaitingProvider, decided == Some(ManualReview), InReview)
    case ReviewClears => Answer(state == InReview, reviewer, AttemptPassed)
    case ReviewConfirmsFraud => Answer(state == InReview, reviewer, AttemptFailed)
    case ExpireAttempt => Answer(IsLive(state), true, AttemptExpired)
    case WithdrawAttempt => Answer(IsLive(state), true, AttemptExpired)
  }

  /** `attemptMachine.next`, event by event; `AttemptTableSays` ties it to the table. */
  function AttemptNext(state: AttemptState, event: AttemptEvent, c: AttemptContext): Result<AttemptState, Code> {
    AttemptMove(state, event, AllRequiredCaptured(c.completedChecks), DecisionFrom(c), c.reviewerGiven)
  }

  function AttemptRow(event: AttemptEvent): (i: nat)
    ensures i < |ATTEMPT_TABLE| && ATTEMPT_TABLE[i].event == event
    ensures forall j :: 0 <= j < |ATTEMPT_TABLE| && j != i ==> ATTEMPT_TABLE[j].event != event
  {
    match event
    case BeginCapture => 0
    case RecordCapture => 1
    case SubmitToProvider => 2
    case ResultPassed => 3
    case ResultFailed => 4
    case ResultInconclusive => 5
    case ReviewClears => 6
    case ReviewConfirmsFraud => 7
    case ExpireAttempt => 8
    case WithdrawAttempt => 9
  }

  lemma AttemptRowAnswers(state: AttemptState, event: AttemptEvent, context: AttemptContext)
    ensures var row := ATTEMPT_TABLE[AttemptRow(event)];
            AttemptNext(state, event, context) == Answer(row.from == None || state in row.from.value, row.Passes(context), row.to)
  {
    match event
    case BeginCapture =>
    case RecordCapture =>
    case SubmitToProvider =>
    case ResultPassed =>
    case ResultFailed =>
    case ResultInconclusive =>
    case ReviewClears =>
    case ReviewConfirmsFraud =>
    case ExpireAttempt =>
    case WithdrawAttempt =>
  }

  /** The event-by-event form is what the kernel reads off the table, for every state, event and context. */
  lemma AttemptTableSays(state: AttemptState, event: AttemptEvent, context: AttemptContext)
    ensures Next(ATTEMPT_TABLE, state, event, context) == AttemptNext(state, event, context)
  {
    AttemptRowAnswers(state, event, context);
    OneRowDecides(ATTEMPT_TABLE, AttemptRow(event), state, event, context);
  }

  // -------------------------------------------------------------- the aggregate --

  datatype EvidenceKind = GovernmentId | Selfie | LivenessVideo | DocumentText | ProviderResponse

  datatype Evidence = Evidence(kind: EvidenceKind, verificationId: string, capturedAt: int, storageRef: string, digest: string, expiresAt: int)

  function EvidenceExpiry(kind: EvidenceKind, capturedAt: int): int {
    capturedAt + (if kind == GovernmentId || kind == Selfie || kind == LivenessVideo then 30 else 180) * DAY_MS
  }

  datatype VerificationAttempt = VerificationAttempt(
    verificationId: string, subjectId: string, state: AttemptState, reVerification: bool,
    startedAt: int, updatedAt: int, expiresAt: int, submittedAt: Option<int>,
    completedChecks: seq<Check>, evidence: seq<Evidence>,
    confidence: Option<Confidence>, decision: Option<DecisionRecord>, reviewerId: Option<string>)

  predicate IsOpen(state: AttemptState) {
    state != AttemptPassed && state != AttemptFailed && state != AttemptExpired
  }

  function ApplyEvent(a: VerificationAttempt, event: AttemptEvent, context: AttemptContext, now: int): Result<VerificationAttempt, Code> {
    var next := AttemptNext(a.state, event, context);
    if next.Err? then Err(next.error) else Ok(a.(state := next.value, updatedAt := now))
  }

  datatype CaptureInput = CaptureInput(check: Check, kind: EvidenceKind, storageRef: string, digest: string)

  const RETAKE_COOLDOWN_MS := 15 * MINUTE_MS

  function RecordCaptureOf(a: VerificationAttempt, capture: CaptureInput, now: int): Result<VerificationAttempt, Code> {
    var previous := Find(a.evidence, (e: Evidence) => e.kind == capture.kind);
    if previous.Some? && now - previous.value.capturedAt < RETAKE_COOLDOWN_MS then Err(RateLimited)
    else
      var kept := Filter(a.evidence, (e: Evidence) => e.kind != capture.kind);
      var completed := Distinct(a.completedChecks + [capture.check]);
      var item := Evidence(capture.kind, a.verificationId, now, capture.storageRef, capture.digest, EvidenceExpiry(capture.kind, now));
      var next := ApplyEvent(a, RecordCapture, NO_CONTEXT.(completedChecks := completed), now);
      if next.Err? then next else Ok(next.value.(evidence := kept + [item], completedChecks := completed))
  }

  function Submit(a: VerificationAttempt, now: int): Result<VerificationAttempt, Code> {
    var next := ApplyEvent(a, SubmitToProvider, NO_CONTEXT.(completedChecks := a.completedChecks), now);
    if next.Err? then next else Ok(next.value.(submittedAt := Some(now)))
  }

  function EventFor(d: Decision): AttemptEvent {
    match d
    case PassDecision => ResultPassed
    case FailDecision => ResultFailed
    case ManualReview => ResultInconclusive
  }

  function IdentityEventFor(d: Decision): IdentityEvent {
    match d
    case PassDecision => ProviderResultReceived
    case FailDecision => Fail
    case ManualReview => FlagForReview
  }

  datatype Completed = Completed(attempt: VerificationAttempt, decision: DecisionRecord, identity: IdentityState)

  function IdentityContextFor(decision: DecisionRecord): IdentityContext {
    IdentityContext(false, if decision.confidence.band == Unusable then None else Some(decision.confidence.value))
  }

  function CompleteWith(
    identityState: IdentityState, decision: DecisionRecord, moved: Result<VerificationAttempt, Code>
  ): Result<Completed, Code> {
    var identity := IdentityNext(identityState, IdentityEventFor(decision.decision), IdentityContextFor(decision));
    if identity.Err? then Err(identity.error)
    else if moved.Err? then Err(moved.error)
    else Ok(Completed(moved.value.(confidence := Some(decision.confidence), decision := Some(decision)), decision, identity.value))
  }

  /** The decision is taken once and stored; the guards take it again from the context. */
  function CompleteFromProvider(
    a: VerificationAttempt, identityState: IdentityState, result: ProviderResult, anomalies: seq<Finding>, now: int
  ): Result<Completed, Code> {
    var decision := DecideVerificationOutcome(result.score, result.checks, anomalies);
    var context := AttemptContext(a.completedChecks, Some(result), anomalies, false);
    CompleteWith(identityState, decision, ApplyEvent(a, EventFor(decision.decision), context, now))
  }

  function ResolveReview(a: VerificationAttempt, cleared: bool, reviewerId: string, now: int): Result<VerificationAttempt, Code> {
    if Blank(reviewerId) then Err(ValidationFailed)
    else
      var next := ApplyEvent(a, if cleared then ReviewClears else ReviewConfirmsFraud, NO_CONTEXT.(reviewerGiven := true), now);
      if next.Err? then next else Ok(next.value.(reviewerId := Some(reviewerId)))
  }

  function ExpireIfDue(a: VerificationAttempt, now: int): Result<VerificationAttempt, Code> {
    if now < a.expiresAt then Err(Conflict) else ApplyEvent(a, ExpireAttempt, NO_CONTEXT, now)
  }

  // ---------------------------------------------------------------- starting one --

  const ATTEMPT_TTL_MS := 24 * HOUR_MS
  const MAX_ATTEMPTS_PER_DAY := 5

  datatype StartRefusal = AlreadyInFlight | TooManyToday(startedToday: nat, retryAt: int) | KernelRefused(code: Code)

  datatype Started = Started(attempt: VerificationAttempt, identity: IdentityState)

  function StartTimes(existing: seq<VerificationAttempt>): seq<int> {
    Map(existing, (a: VerificationAttempt) => a.startedAt)
  }

  function PlanStart(
    verificationId: string, subjectId: string, identityState: IdentityState, now: int, reVerification: bool,
    existing: seq<VerificationAttempt>
  ): Result<Started, StartRefusal> {
    var times := StartTimes(existing);
    if Find(existing, (a: VerificationAttempt) => IsOpen(a.state)).Some? then Err(AlreadyInFlight)
    else if CountAfter(times, now - DAY_MS) >= MAX_ATTEMPTS_PER_DAY then
      Err(TooManyToday(CountAfter(times, now - DAY_MS), EarliestAfter(times, now - DAY_MS).value + DAY_MS))
    else
      var next := IdentityNext(identityState, if reVerification then ReverifyRequested else SubmitVerification, IdentityContext(false, None));
      if next.Err? then Err(KernelRefused(next.error))
      else Ok(Started(
        VerificationAttempt(verificationId, subjectId, Initiated, reVerification, now, now, now + ATTEMPT_TTL_MS,
                            None, [], [], None, None, None),
        next.value))
  }

  // ------------------------------------------------------------ repeated failure --

  const FAILURES_BEFORE_REVIEW := 3

  function TrailingFailures(states: seq<AttemptState>): nat {
    if states == [] || states[|states| - 1] != AttemptFailed then 0 else 1 + TrailingFailures(states[..|states| - 1])
  }

  /** The last `n` attempts failed and the one before them, if any, did not. */
  lemma {:induction false} TrailingFailuresIs(states: seq<AttemptState>)
    ensures var n := TrailingFailures(states);
            n <= |states| && (forall i :: |states| - n <= i < |states| ==> states[i] == AttemptFailed)
            && (n < |states| ==> states[|states| - n - 1] != AttemptFailed)
  {
    if states != [] { TrailingFailuresIs(states[..|states| - 1]); }
  }

  datatype Escalation = Escalation(state: IdentityState, consecutiveFailures: nat)

  /** Counts backwards from the newest attempt; three in a row ask for a person, if the kernel has the edge. */
  method EscalateAfterRepeatedFailure(identityState: IdentityState, attempts: seq<AttemptState>)
    returns (r: Result<Option<Escalation>, Code>)
    ensures r == Ok(None) <==> TrailingFailures(attempts) < 3
    ensures r.Ok? && r.value.Some? ==> r.value.value == Escalation(ReviewRequired, TrailingFailures(attempts))
    ensures r.Ok? && r.value.Some? <==>
              TrailingFailures(attempts) >= 3 && identityState in [Pending, Verified, VerificationFailed]
  {
    var consecutive, index := 0, |attempts|;
    assert attempts[..|attempts|] == attempts;
    while index > 0 && attempts[index - 1] == AttemptFailed
      invariant 0 <= index <= |attempts| && consecutive == |attempts| - index
      invariant TrailingFailures(attempts) == consecutive + TrailingFailures(attempts[..index])
    {
      assert attempts[..index][..index - 1] == attempts[..index - 1];
      index := index - 1;
      consecutive := consecutive + 1;
    }
    if consecutive < FAILURES_BEFORE_REVIEW {
      return Ok(None);
    }
    var next := IdentityNext(identityState, FlagForReview, IdentityContext(false, None));
    return if next.Err? then Err(next.error) else Ok(Some(Escalation(next.value, consecutive)));
  }
}
