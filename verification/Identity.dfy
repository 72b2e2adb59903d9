/** The identity lifecycle of the shared kernel (`packages/core/src/states/identity.ts`). */
module Identity {
  import opened Core
  import opened Transition

  datatype IdentityState = Unverified | Pending | Verified | ReviewRequired | VerificationFailed | Expired

  datatype IdentityEvent =
    | SubmitVerification
    | LivenessPassed
    | LikenessPassed
    | ProviderResultReceived
    | Fail
    | FlagForReview
    | ReviewCleared
    | ReviewConfirmedFraud
    | Expire
    | ReverifyRequested
    | Withdraw

  /** `confidence` is `None` when the context does not carry one; the guard reads it as 0. */
  datatype IdentityContext = IdentityContext(reviewerNamed: bool, confidence: Option<real>)

  const IDENTITY_TABLE: seq<Row<IdentityState, IdentityEvent, IdentityContext>> := [
    Row(SubmitVerification, Some([Unverified, Expired, VerificationFailed]), Pending, None),
    Row(LivenessPassed, Some([Pending]), Pending, None),
    Row(LikenessPassed, Some([Pending]), Pending, None),
    Row(ProviderResultReceived, Some([Pending]), Verified,
        Some((c: IdentityContext) => (if c.confidence.Some? then c.confidence.value else 0.0) >= 0.9)),
    Row(Fail, Some([Pending]), VerificationFailed, None),
    Row(FlagForReview, Some([Pending, Verified, VerificationFailed]), ReviewRequired, None),
    Row(ReviewCleared, Some([ReviewRequired]), Verified, Some((c: IdentityContext) => c.reviewerNamed)),
    Row(ReviewConfirmedFraud, Some([ReviewRequired]), VerificationFailed, Some((c: IdentityContext) => c.reviewerNamed)),
    Row(Expire, Some([Verified]), Expired, None),
    Row(ReverifyRequested, Some([Verified, Expired]), Pending, None),
    Row(Withdraw, Some([Unverified, Pending, Verified, Expired, VerificationFailed]), Unverified, None)
  ]

  /** `identityMachine.next`, event by event; `IdentityTableSays` ties it to the table. */
  function IdentityNext(state: IdentityState, event: IdentityEvent, context: IdentityContext): Result<IdentityState, Code> {
    match event
    case SubmitVerification => Answer(state == Unverified || state == Expired || state == VerificationFailed, true, Pending)
    case LivenessPassed => Answer(state == Pending, true, Pending)
    case LikenessPassed => Answer(state == Pending, true, Pending)
    case ProviderResultReceived => Answer(state == Pending, context.confidence.Some? && context.confidence.value >= 0.9, Verified)
    case Fail => Answer(state == Pending, true, VerificationFailed)
    case FlagForReview => Answer(state == Pending || state == Verified || state == VerificationFailed, true, ReviewRequired)
    case ReviewCleared => Answer(state == ReviewRequired, context.reviewerNamed, Verified)
    case ReviewConfirmedFraud => Answer(state == ReviewRequired, context.reviewerNamed, VerificationFailed)
    case Expire => Answer(state == Verified, true, Expired)
    case ReverifyRequested => Answer(state == Verified || state == Expired, true, Pending)
    case Withdraw => Answer(state != ReviewRequired, true, Unverified)
  }

  function IdentityRow(event: IdentityEvent): (i: nat)
    ensures i < |IDENTITY_TABLE| && IDENTITY_TABLE[i].event == event
    ensures forall j :: 0 <= j < |IDENTITY_TABLE| && j != i ==> IDENTITY_TABLE[j].event != event
  {
    match event
    case SubmitVerification => 0
    case LivenessPassed => 1
    case LikenessPassed => 2
    case ProviderResultReceived => 3
    case Fail => 4
    case FlagForReview => 5
    case ReviewCleared => 6
    case ReviewConfirmedFraud => 7
    case Expire => 8
    case ReverifyRequested => 9
    case Withdraw => 10
  }

  lemma IdentityRowAnswers(state: IdentityState, event: IdentityEvent, context: IdentityContext)
    ensures var row := IDENTITY_TABLE[IdentityRow(event)];
            IdentityNext(state, event, context) == Answer(row.from == None || state in row.from.value, row.Passes(context), row.to)
  {
  }

  /** The event-by-event form is what the kernel reads off the table, for every state, event and context. */
  lemma IdentityTableSays(state: IdentityState, event: IdentityEvent, context: IdentityContext)
    ensures Next(IDENTITY_TABLE, state, event, context) == IdentityNext(state, event, context)
  {
    IdentityRowAnswers(state, event, context);
    OneRowDecides(IDENTITY_TABLE, IdentityRow(event), state, event, context);
  }

  /** `verified` is entered only on sufficient confidence or by a named reviewer. */
  lemma VerifiedOnlyWithAuthority(state: IdentityState, event: IdentityEvent, context: IdentityContext)
    requires IdentityNext(state, event, context) == Ok(Verified)
    ensures (event == ProviderResultReceived && state == Pending && context.confidence.Some? && context.confidence.value >= 0.9)
         || (event == ReviewCleared && state == ReviewRequired && context.reviewerNamed)
  {
  }

  /** A case a human holds is left only through that human: no other event moves it. */
  lemma ReviewLeftOnlyByReviewer(event: IdentityEvent, context: IdentityContext)
    ensures IdentityNext(ReviewRequired, event, context).Ok?
       <==> context.reviewerNamed && (event == ReviewCleared || event == ReviewConfirmedFraud)
  {
  }
}
