/** Decisions, reversals and what they close (`packages/moderation/src/decision.ts`). */
module Decisions {
  import opened Core
  import opened Transition
  import opened Account
  import opened Audit
  import opened Moderation
  import opened CaseWork

  datatype DecisionAction = Warn | RestrictAccount | SuspendAccount | BanAccount | Clear

  function AccountEventFor(a: DecisionAction): Option<AccountEvent> {
    match a
    case Warn => None
    case Clear => None
    case RestrictAccount => Some(Restrict)
    case SuspendAccount => Some(Suspend)
    case BanAccount => Some(Ban)
  }

  function LiftFor(a: DecisionAction): Option<AccountEvent> {
    match a
    case RestrictAccount => Some(LiftRestriction)
    case SuspendAccount => Some(Reinstate)
    case BanAccount => Some(LiftBan)
    case _ => None
  }

  const MIN_RATIONALE_LENGTH := 20

  datatype Decision = Decision(
    decisionId: string, caseId: string, moderatorId: string, subjectId: string, action: DecisionAction,
    removed: seq<Capability>, rationale: string, decidedAt: int, reverses: Option<string>,
    accountEvent: Option<AccountEvent>, resulting: AccountState)

  /** Who decides, on which case, and why; a claim about automation that is not made is `None`. */
  datatype Authority = Authority(caseId: Option<string>, automated: Option<bool>, moderatorId: Option<string>, rationale: string)

  function AuthorityRefusal(a: Authority): Option<Code> {
    if a.caseId.None? then Some(ValidationFailed)
    else if a.automated != Some(false) then Some(PermissionDenied)
    else if a.moderatorId.None? then Some(ValidationFailed)
    else if |Trim(a.rationale)| < MIN_RATIONALE_LENGTH then Some(ValidationFailed)
    else None
  }

  /** What a decision does to the standing: the intake checks on the removals, then the kernel. */
  function Enforced(event: AccountEvent, current: AccountState, removed: seq<Capability>): Result<AccountState, Code> {
    if |Filter(removed, (c: Capability) => Unrestrictable(c))| > 0 then Err(ValidationFailed)
    else if |Filter(removed, (c: Capability) => c !in Granted(current))| > 0 then Err(ValidationFailed)
    else AccountNext(current, event, AccountContext(true, true, removed))
  }

  function ApplyDecision(
    decisionId: string, authority: Authority, subjectId: string, action: DecisionAction, current: AccountState,
    removed: seq<Capability>, reverses: Option<string>, decidedAt: int
  ): Result<Decision, Code> {
    var refused, event := AuthorityRefusal(authority), AccountEventFor(action);
    if refused.Some? then Err(refused.value)
    else
      var resulting := if event.None? then Ok(current) else Enforced(event.value, current, removed);
      if resulting.Err? then Err(resulting.error)
      else Ok(Decision(decisionId, authority.caseId.value, authority.moderatorId.value, subjectId, action,
                       if event.None? then [] else removed, Trim(authority.rationale), decidedAt, reverses, event, resulting.value))
  }

  function ApplyReversal(
    decisionId: string, authority: Authority, subjectId: string, reversed: Decision, current: AccountState, decidedAt: int
  ): Result<Decision, Code> {
    var refused, lift := AuthorityRefusal(authority), LiftFor(reversed.action);
    if refused.Some? then Err(refused.value)
    else if lift.None? then Err(ValidationFailed)
    else
      var next := AccountNext(current, lift.value, AccountContext(true, true, []));
      if next.Err? then Err(next.error)
      else Ok(Decision(decisionId, authority.caseId.value, authority.moderatorId.value, subjectId, Clear, [],
                       Trim(authority.rationale), decidedAt, Some(reversed.decisionId), lift, next.value))
  }

  predicate IsAppealable(d: Decision, history: seq<Decision>) {
    d.action != Clear && !exists i :: 0 <= i < |history| && history[i].reverses == Some(d.decisionId)
  }

  // ------------------------------------------------------------------ what decisions mean --

  predicate Human(a: Authority) {
    a.caseId.Some? && a.automated == Some(false) && a.moderatorId.Some? && |Trim(a.rationale)| >= 20
  }

  /** Every removal is one the account holds and may lose. */
  predicate Removable(current: AccountState, removed: seq<Capability>) {
    forall c :: c in removed ==> c in Granted(current) && !Unrestrictable(c)
  }

  lemma {:induction false} NoneLeft(s: seq<Capability>, bad: Capability -> bool)
    ensures |Filter(s, bad)| == 0 <==> forall c :: c in s ==> !bad(c)
  {
    if |Filter(s, bad)| > 0 { assert Filter(s, bad)[0] in Filter(s, bad); }
    if c :| c in s && bad(c) { assert c in Filter(s, bad); }
  }

  lemma EnforcedIff(event: AccountEvent, current: AccountState, removed: seq<Capability>)
    ensures Enforced(event, current, removed).Ok?
       <==> Removable(current, removed) && AccountNext(current, event, AccountContext(true, true, removed)).Ok?
  {
    NoneLeft(removed, (c: Capability) => Unrestrictable(c));
    NoneLeft(removed, (c: Capability) => c !in Granted(current));
  }

  /** Exactly what is accepted, action by action. */
  lemma DecisionIff(
    decisionId: string, authority: Authority, subjectId: string, action: DecisionAction, current: AccountState,
    removed: seq<Capability>, reverses: Option<string>, decidedAt: int)
    ensures ApplyDecision(decisionId, authority, subjectId, action, current, removed, reverses, decidedAt).Ok?
       <==> Human(authority)
            && (action in [RestrictAccount, SuspendAccount, BanAccount] ==> Removable(current, removed))
            && (action == RestrictAccount ==> current in [Active, Limited] && removed != [])
            && (action == SuspendAccount ==> current in [Active, Limited])
            && (action == BanAccount ==> current != Banned)
  {
    if action == RestrictAccount { EnforcedIff(Restrict, current, removed); }
    if action == SuspendAccount { EnforcedIff(Suspend, current, removed); }
    if action == BanAccount { EnforcedIff(Ban, current, removed); }
  }

  /** Why a decision is refused: no case, a machine, nobody or no reasons, removals it may not make, and then the kernel. */
  lemma DecisionRefusalIs(
    decisionId: string, authority: Authority, subjectId: string, action: DecisionAction, current: AccountState,
    removed: seq<Capability>, reverses: Option<string>, decidedAt: int)
    requires ApplyDecision(decisionId, authority, subjectId, action, current, removed, reverses, decidedAt).Err?
    ensures ApplyDecision(decisionId, authority, subjectId, action, current, removed, reverses, decidedAt).error
         == if authority.caseId.Some? && authority.automated != Some(false) then PermissionDenied
            else if !Human(authority) || !Removable(current, removed) then ValidationFailed
            else if action == RestrictAccount && current in {Active, Limited} then ValidationFailed
            else InvalidTransition
  {
    DecisionIff(decisionId, authority, subjectId, action, current, removed, reverses, decidedAt);
    NoneLeft(removed, (c: Capability) => Unrestrictable(c));
    NoneLeft(removed, (c: Capability) => c !in Granted(current));
  }

  predicate Sanction(a: DecisionAction) {
    a == RestrictAccount || a == SuspendAccount || a == BanAccount
  }

  /**
   * Reversing a sanction at once always succeeds and always lands on `active`, so it
   * restores the standing the sanction found exactly when that standing was `active`:
   * lifting a ban or a suspension also lifts whatever restriction stood before it.
   */
  lemma ReversalRestoresIff(
    decisionId: string, authority: Authority, subjectId: string, action: DecisionAction, current: AccountState,
    removed: seq<Capability>, decidedAt: int, reversalId: string, second: Authority, at: int)
    requires Sanction(action) && Human(second)
    requires ApplyDecision(decisionId, authority, subjectId, action, current, removed, None, decidedAt).Ok?
    ensures var d := ApplyDecision(decisionId, authority, subjectId, action, current, removed, None, decidedAt).value;
            var back := ApplyReversal(reversalId, second, subjectId, d, d.resulting, at);
            back.Ok? && back.value.resulting == Active && back.value.reverses == Some(decisionId)
            && (back.value.resulting == current <==> current == Active)
  {
  }

  /** A suspension taken over a restriction and reversed at once: the restriction is gone too. */
  lemma ReversedSuspensionLosesTheRestriction()
    ensures var r := ApplyDecision("d", ANYBODY, "s", SuspendAccount, Limited, [], None, 0);
            r.Ok? && ApplyReversal("r", ANYBODY, "s", r.value, r.value.resulting, 1).Ok?
            && ApplyReversal("r", ANYBODY, "s", r.value, r.value.resulting, 1).value.resulting == Active
  {
    TwentyLetters();
    DecisionIff("d", ANYBODY, "s", SuspendAccount, Limited, [], None, 0);
    ReversalRestoresIff("d", ANYBODY, "s", SuspendAccount, Limited, [], 0, "r", ANYBODY, 1);
  }

  /** A decision that has been answered is no longer appealable, and neither is the answer. */
  lemma ReversedIsNotAppealable(
    reversalId: string, authority: Authority, subjectId: string, d: Decision, current: AccountState, at: int, history: seq<Decision>)
    requires ApplyReversal(reversalId, authority, subjectId, d, current, at).Ok?
    ensures var back := ApplyReversal(reversalId, authority, subjectId, d, current, at).value;
            !IsAppealable(d, history + [back]) && !IsAppealable(back, history + [back])
  {
    var back := ApplyReversal(reversalId, authority, subjectId, d, current, at).value;
    assert (history + [back])[|history|].reverses == Some(d.decisionId);
  }

  /** No authority and no standing gets this decision reversed. */
  ghost predicate Irreversible(d: Decision) {
    forall id, authority, subject, current, at :: ApplyReversal(id, authority, subject, d, current, at).Err?
  }

  function StandingAfter(a: DecisionAction): AccountState {
    match a
    case RestrictAccount => Limited
    case SuspendAccount => Suspended
    case BanAccount => Banned
    case _ => Active
  }

  lemma NothingToLift(d: Decision)
    requires !Sanction(d.action)
    ensures Irreversible(d)
  {
  }

  /** A human can lift a sanction from the standing it produces. */
  lemma SanctionsLift(d: Decision, id: string, authority: Authority, subject: string, at: int)
    requires Sanction(d.action) && Human(authority)
    ensures ApplyReversal(id, authority, subject, d, StandingAfter(d.action), at).Ok?
  {
  }

  lemma SanctionsAreReversible(d: Decision)
    requires Sanction(d.action)
    ensures !Irreversible(d)
  {
    TwentyLetters();
    SanctionsLift(d, "r", ANYBODY, "s", 0);
  }

  /** What can be appealed but never granted: of the unanswered decisions, exactly the warnings. */
  lemma AppealableButIrreversibleIff(d: Decision, history: seq<Decision>)
    requires IsAppealable(d, history)
    ensures Irreversible(d) <==> d.action == Warn
  {
    if Sanction(d.action) { SanctionsAreReversible(d); } else { NothingToLift(d); }
  }

  const ANYBODY := Authority(Some("c"), Some(false), Some("m"), "xxxxxxxxxxxxxxxxxxxx")

  lemma TwentyLetters()
    ensures |Trim("xxxxxxxxxxxxxxxxxxxx")| == 20 && Human(ANYBODY)
  {
    assert !JsWhitespace('x');
  }

  /**
   * When an accepted decision records removals, and so when the record reads as its
   * text says it does, named for a restriction and empty otherwise: unless a suspension
   * or a ban was given removals.
   */
  lemma RemovalsRecordedIff(
    decisionId: string, authority: Authority, subjectId: string, action: DecisionAction, current: AccountState,
    removed: seq<Capability>, reverses: Option<string>, decidedAt: int)
    requires ApplyDecision(decisionId, authority, subjectId, action, current, removed, reverses, decidedAt).Ok?
    ensures var d := ApplyDecision(decisionId, authority, subjectId, action, current, removed, reverses, decidedAt).value;
            (d.removed != [] <==> Sanction(action) && removed != [])
            && ((d.removed != [] <==> action == RestrictAccount) <==> action in [Warn, Clear, RestrictAccount] || removed == [])
  {
    DecisionIff(decisionId, authority, subjectId, action, current, removed, reverses, decidedAt);
  }

  /** A suspension that names removals and keeps them in its record. */
  lemma SuspensionMayNameRemovals()
    ensures var r := ApplyDecision("d", ANYBODY, "s", SuspendAccount, Active, [SendMessages], None, 0);
            r.Ok? && r.value.removed == [SendMessages]
  {
    TwentyLetters();
    assert Granted(Active)[2] == SendMessages;
    DecisionIff("d", ANYBODY, "s", SuspendAccount, Active, [SendMessages], None, 0);
  }

  // -------------------------------------------------------------------- deciding a case --

  datatype Ruling = Ruling(action: DecisionAction, rationale: string, current: AccountState, removed: seq<Capability>)

  datatype DecisionOutcome = DecisionOutcome(decision: Decision, moderationCase: Case)

  function AuthorityOf(c: Case, actor: Actor, rationale: string): Authority {
    Authority(Some(c.caseId), Some(actor.automated), Some(actor.actorId), rationale)
  }

  function DecideCase(c: Case, actor: Actor, ruling: Ruling, decisionId: string, clock: Clock): Result<DecisionOutcome, Code> {
    if c.state != InReview && c.state != CaseState.CaseEscalated then Err(NotEligible)
    else if CanWork(c, actor).Err? then Err(PermissionDenied)
    else
      var decided := ApplyDecision(decisionId, AuthorityOf(c, actor, ruling.rationale), c.subjectId, ruling.action,
                                   ruling.current, ruling.removed, None, clock(0));
      var next := CaseNext(c.state, Resolve, CaseContext(true, true, ""));
      if decided.Err? then Err(decided.error)
      else if next.Err? then Err(next.error)
      else Ok(DecisionOutcome(decided.value, c.(state := next.value, resolutionDecisionId := Some(decisionId), updatedAt := clock(1))))
  }

  function DecisionEntry(c: Case, actor: Actor, action: Action, d: Decision): NewEntry {
    NewEntry(d.decidedAt, Some(actor.actorId), action, DecisionEntity, d.decisionId, d.subjectId, Some(d.caseId), c.evidenceIds,
             Some(d.decisionId))
  }

  function DecideEntries(c: Case, actor: Actor, ruling: Ruling, decisionId: string, clock: Clock): seq<NewEntry> {
    var r := DecideCase(c, actor, ruling, decisionId, clock);
    if r.Err? then []
    else [DecisionEntry(c, actor, DecisionRecorded, r.value.decision),
          CaseEntry(c, CaseResolved, actor, [], clock(1)).(decisionId := Some(decisionId))]
  }

  method Decide(audit: AuditLog, c: Case, actor: Actor, ruling: Ruling, decisionId: string, clock: Clock)
    returns (r: Result<DecisionOutcome, Code>)
    requires audit.Valid()
    modifies audit
    ensures audit.Valid() && r == DecideCase(c, actor, ruling, decisionId, clock)
    ensures audit.rows == Appended(old(audit.rows), DecideEntries(c, actor, ruling, decisionId, clock))
  {
    if c.state != InReview && c.state != CaseState.CaseEscalated { return Err(NotEligible); }
    if CanWork(c, actor).Err? { return Err(PermissionDenied); }
    var decided := ApplyDecision(decisionId, AuthorityOf(c, actor, ruling.rationale), c.subjectId, ruling.action,
                                 ruling.current, ruling.removed, None, clock(0));
    if decided.Err? { return Err(decided.error); }
    var next := CaseNext(c.state, Resolve, CaseContext(true, true, ""));
    if next.Err? { return Err(next.error); }
    var first := DecisionEntry(c, actor, DecisionRecorded, decided.value);
    var second := CaseEntry(c, CaseResolved, actor, [], clock(1)).(decisionId := Some(decisionId));
    AppendedTwice(old(audit.rows), [first], [second]);
    var _ := audit.Append(first);
    var _ := audit.Append(second);
    return Ok(DecisionOutcome(decided.value, c.(state := next.value, resolutionDecisionId := Some(decisionId), updatedAt := clock(1))));
  }

  /** A person who may work this case: never automation, and a lead once it is escalated. */
  predicate MayWork(c: Case, actor: Actor) {
    !actor.automated && (c.state == CaseState.CaseEscalated ==> actor.isLead)
  }

  /** Exactly which rulings are taken on a case. */
  lemma RulingIff(c: Case, actor: Actor, ruling: Ruling, decisionId: string, clock: Clock)
    ensures
      var r := DecideCase(c, actor, ruling, decisionId, clock);
      var reviewed := c.state in {InReview, CaseState.CaseEscalated};
      (r == Err(NotEligible) <==> !reviewed)
      && (r == Err(PermissionDenied) <==> reviewed && !MayWork(c, actor))
      && (r == Err(InvalidTransition) <==>
            reviewed && MayWork(c, actor) && |Trim(ruling.rationale)| >= 20 && Removable(ruling.current, ruling.removed)
            && (match ruling.action
                case RestrictAccount => ruling.current !in {Active, Limited}
                case SuspendAccount => ruling.current !in {Active, Limited}
                case BanAccount => ruling.current == Banned
                case _ => false))
      && (r.Ok? <==>
            reviewed && MayWork(c, actor) && |Trim(ruling.rationale)| >= 20
            && (Sanction(ruling.action) ==> Removable(ruling.current, ruling.removed))
            && (match ruling.action
                case RestrictAccount => ruling.current in {Active, Limited} && ruling.removed != []
                case SuspendAccount => ruling.current in {Active, Limited}
                case BanAccount => ruling.current != Banned
                case _ => true))
  {
    DecisionIff(decisionId, AuthorityOf(c, actor, ruling.rationale), c.subjectId, ruling.action, ruling.current, ruling.removed, None, clock(0));
    var authority := AuthorityOf(c, actor, ruling.rationale);
    if ApplyDecision(decisionId, authority, c.subjectId, ruling.action, ruling.current, ruling.removed, None, clock(0)).Err? {
      DecisionRefusalIs(decisionId, authority, c.subjectId, ruling.action, ruling.current, ruling.removed, None, clock(0));
    }
  }

  function StandingOf(action: DecisionAction, current: AccountState): AccountState {
    match action
    case RestrictAccount => Limited
    case SuspendAccount => Suspended
    case BanAccount => Banned
    case _ => current
  }

  /**
   * What an accepted ruling records: a decision about the case's own subject, by the person
   * who took it, with the standing its action leads to and reversing nothing; the case
   * resolved by it; and two rows that name that subject.
   */
  lemma RulingIs(c: Case, actor: Actor, ruling: Ruling, decisionId: string, clock: Clock)
    requires DecideCase(c, actor, ruling, decisionId, clock).Ok?
    ensures
      var out := DecideCase(c, actor, ruling, decisionId, clock).value;
      var d := out.decision;
      d.decisionId == decisionId && d.caseId == c.caseId && d.moderatorId == actor.actorId && d.subjectId == c.subjectId
      && d.action == ruling.action && d.removed == (if Sanction(ruling.action) then ruling.removed else [])
      && d.rationale == Trim(ruling.rationale) && d.decidedAt == clock(0) && d.reverses == None
      && d.resulting == StandingOf(ruling.action, ruling.current)
      && d.accountEvent == (match ruling.action
                            case RestrictAccount => Some(Restrict)
                            case SuspendAccount => Some(Suspend)
                            case BanAccount => Some(Ban)
                            case _ => None)
      && out.moderationCase == c.(state := Resolved, resolutionDecisionId := Some(decisionId), updatedAt := clock(1))
      && DecideEntries(c, actor, ruling, decisionId, clock)
         == [NewEntry(clock(0), Some(actor.actorId), DecisionRecorded, DecisionEntity, decisionId, c.subjectId, Some(c.caseId),
                      c.evidenceIds, Some(decisionId)),
             NewEntry(clock(1), Some(actor.actorId), CaseResolved, CaseEntity, c.caseId, c.subjectId, Some(c.caseId),
                      [], Some(decisionId))]
  {
  }

  /** A decision resolves the case it was taken on and leaves the rest of it alone. */
  lemma DecisionKeepsCase(c: Case, actor: Actor, ruling: Ruling, decisionId: string, clock: Clock)
    requires CaseInv(c) && DecideCase(c, actor, ruling, decisionId, clock).Ok?
    ensures var after := DecideCase(c, actor, ruling, decisionId, clock).value.moderationCase;
            CaseInv(after) && Grows(c, after) && after.state == Resolved && after.resolutionDecisionId == Some(decisionId)
  {
  }

  function ReverseOn(
    c: Case, actor: Actor, reversed: Decision, rationale: string, current: AccountState, decisionId: string, now: int
  ): Result<Decision, Code> {
    if CanWork(c, actor).Err? then Err(PermissionDenied)
    else ApplyReversal(decisionId, AuthorityOf(c, actor, rationale), reversed.subjectId, reversed, current, now)
  }

  function ReverseEntries(
    c: Case, actor: Actor, reversed: Decision, rationale: string, current: AccountState, decisionId: string, now: int
  ): seq<NewEntry> {
    var r := ReverseOn(c, actor, reversed, rationale, current, decisionId, now);
    if r.Err? then [] else [DecisionEntry(c, actor, DecisionReversed, r.value)]
  }

  method ReverseDecision(
    audit: AuditLog, c: Case, actor: Actor, reversed: Decision, rationale: string, current: AccountState, decisionId: string, now: int)
    returns (r: Result<Decision, Code>)
    requires audit.Valid()
    modifies audit
    ensures audit.Valid() && r == ReverseOn(c, actor, reversed, rationale, current, decisionId, now)
    ensures audit.rows == Appended(old(audit.rows), ReverseEntries(c, actor, reversed, rationale, current, decisionId, now))
  {
    if CanWork(c, actor).Err? { return Err(PermissionDenied); }
    r := ApplyReversal(decisionId, AuthorityOf(c, actor, rationale), reversed.subjectId, reversed, current, now);
    if r.Ok? {
      var _ := audit.Append(DecisionEntry(c, actor, DecisionReversed, r.value));
    }
  }

  /** Exactly which reversals are taken: a sanction, while the account still stands where it put it. */
  lemma {:induction false} ReversalIff(
    c: Case, actor: Actor, reversed: Decision, rationale: string, current: AccountState, decisionId: string, now: int)
    ensures
      var r := ReverseOn(c, actor, reversed, rationale, current, decisionId, now);
      (r == Err(PermissionDenied) <==> !MayWork(c, actor))
      && (r == Err(ValidationFailed) <==> MayWork(c, actor) && (|Trim(rationale)| < 20 || !Sanction(reversed.action)))
      && (r.Ok? <==>
            MayWork(c, actor) && |Trim(rationale)| >= 20
            && (reversed.action, current) in {(RestrictAccount, Limited), (SuspendAccount, Suspended), (BanAccount, Banned)})
  {
  }

  /** What an accepted reversal records: a clearance of the reversed decision's subject, naming that decision. */
  lemma {:induction false} ReversalIs(
    c: Case, actor: Actor, reversed: Decision, rationale: string, current: AccountState, decisionId: string, now: int)
    requires ReverseOn(c, actor, reversed, rationale, current, decisionId, now).Ok?
    ensures
      var d := ReverseOn(c, actor, reversed, rationale, current, decisionId, now).value;
      d.decisionId == decisionId && d.caseId == c.caseId && d.moderatorId == actor.actorId && d.subjectId == reversed.subjectId
      && d.action == Clear && d.removed == [] && d.rationale == Trim(rationale) && d.decidedAt == now
      && d.reverses == Some(reversed.decisionId) && d.resulting == Active
      && d.accountEvent == Some(match current
                                case Limited => LiftRestriction
                                case Suspended => Reinstate
                                case _ => LiftBan)
      && ReverseEntries(c, actor, reversed, rationale, current, decisionId, now)
         == [NewEntry(now, Some(actor.actorId), DecisionReversed, DecisionEntity, decisionId, reversed.subjectId, Some(c.caseId),
                      c.evidenceIds, Some(decisionId))]
  {
  }

  // --------------------------------------------------------------------- closing reports --

  function ClosingEvent(d: Decision): ReportEvent {
    if d.action == Clear then Dismiss else ActionReport
  }

  predicate Closes(r: Report, d: Decision) {
    ReportNext(r.state, ClosingEvent(d), ReportContext(true, true, true)).Ok?
  }

  /** A report as the decision leaves it. */
  function ClosedReport(r: Report, d: Decision, at: int): Report
    requires Closes(r, d)
  {
    r.(state := ReportNext(r.state, ClosingEvent(d), ReportContext(true, true, true)).value, updatedAt := at)
  }

  function Closed(reports: seq<Report>, d: Decision, clock: Clock): seq<Report> {
    if reports == [] then []
    else
      var before, last := Closed(reports[..|reports| - 1], d, clock), reports[|reports| - 1];
      if Closes(last, d) then before + [ClosedReport(last, d, clock(|before|))] else before
  }

  function ClosingEntry(r: Report, d: Decision): NewEntry {
    NewEntry(r.updatedAt, Some(d.moderatorId), ReportStatusChanged, ReportEntity, r.reportId, r.subjectId, Some(d.caseId), [],
             Some(d.decisionId))
  }

  function ClosingEntries(closed: seq<Report>, d: Decision): seq<NewEntry> {
    seq(|closed|, i requires 0 <= i < |closed| => ClosingEntry(closed[i], d))
  }

  method CloseReportsWithDecision(audit: AuditLog, reports: seq<Report>, d: Decision, clock: Clock) returns (closed: seq<Report>)
    requires audit.Valid()
    modifies audit
    ensures audit.Valid() && closed == Closed(reports, d, clock)
    ensures audit.rows == Appended(old(audit.rows), ClosingEntries(closed, d))
  {
    closed := [];
    for i := 0 to |reports|
      invariant audit.Valid() && closed == Closed(reports[..i], d, clock)
      invariant audit.rows == Appended(old(audit.rows), ClosingEntries(closed, d))
    {
      assert reports[..i + 1][..i] == reports[..i];
      var next := ReportNext(reports[i].state, ClosingEvent(d), ReportContext(true, true, true));
      if next.Err? {
        continue;
      }
      var updated := reports[i].(state := next.value, updatedAt := clock(|closed|));
      AppendedTwice(old(audit.rows), ClosingEntries(closed, d), [ClosingEntry(updated, d)]);
      assert ClosingEntries(closed + [updated], d) == ClosingEntries(closed, d) + [ClosingEntry(updated, d)];
      closed := closed + [updated];
      var _ := audit.Append(ClosingEntry(updated, d));
    }
    assert reports[..|reports|] == reports;
  }

  predicate Closable(r: Report) {
    r.state == Triaged || r.state == ReportEscalated
  }

  /** Dismissed by a clearance, actioned by anything else. */
  function ClosedAs(r: Report, d: Decision, at: int): Report {
    r.(state := if d.action == Clear then Dismissed else Actioned, updatedAt := at)
  }

  lemma ClosesIff(r: Report, d: Decision, at: int)
    ensures Closes(r, d) <==> Closable(r)
    ensures Closes(r, d) ==> ClosedReport(r, d, at) == ClosedAs(r, d, at)
  {
  }

  /**
   * Exactly the triaged and the escalated reports are closed, in order and at the
   * clock's next reading each, dismissed by a clearance and actioned by anything else.
   */
  lemma {:induction false} ClosedIff(reports: seq<Report>, d: Decision, clock: Clock)
    ensures var closable := Filter(reports, Closable);
            |Closed(reports, d, clock)| == |closable|
            && forall i :: 0 <= i < |closable| ==> Closed(reports, d, clock)[i] == ClosedAs(closable[i], d, clock(i))
  {
    if reports != [] {
      var n := |reports| - 1;
      var rest, last := reports[..n], reports[n];
      ClosedIff(rest, d, clock);
      assert reports == rest + [last];
      FilterAppend(rest, last, Closable);
      ClosedStep(reports, d, clock);
    }
  }

  lemma ClosedStep(reports: seq<Report>, d: Decision, clock: Clock)
    requires reports != []
    ensures var before, last := Closed(reports[..|reports| - 1], d, clock), reports[|reports| - 1];
            Closed(reports, d, clock) == before + if Closable(last) then [ClosedAs(last, d, clock(|before|))] else []
  {
    ClosesIff(reports[|reports| - 1], d, clock(|Closed(reports[..|reports| - 1], d, clock)|));
  }

  /** One row for each report closed, about that report and its subject, under the decision's name. */
  lemma ClosingRowsAre(closed: seq<Report>, d: Decision, i: nat)
    requires i < |closed|
    ensures |ClosingEntries(closed, d)| == |closed|
    ensures ClosingEntries(closed, d)[i]
         == NewEntry(closed[i].updatedAt, Some(d.moderatorId), ReportStatusChanged, ReportEntity, closed[i].reportId, closed[i].subjectId,
                     Some(d.caseId), [], Some(d.decisionId))
  {
  }

  /**
   * What the reports' own life cycle does not get: a report folded into a case is
   * `merged`, and no decision on that case ever closes it.
   */
  lemma {:induction false} MergedReportsAreNeverClosed(c: Case, reports: seq<Report>, actor: Actor, clock: Clock, d: Decision, later: Clock)
    requires MergeInto(c, reports, actor, clock).Ok?
    ensures Closed(MergeInto(c, reports, actor, clock).value.mergedReports, d, later) == []
  {
    FoldedAreMerged(c, reports, clock);
    NoMergedCloses(MergeInto(c, reports, actor, clock).value.mergedReports, d, later);
  }

  lemma {:induction false} FoldedAreMerged(c: Case, reports: seq<Report>, clock: Clock)
    requires Fold(c, reports, clock).Ok?
    ensures forall i :: 0 <= i < |Fold(c, reports, clock).value.merged| ==> Fold(c, reports, clock).value.merged[i].state == Merged
  {
    if reports != [] { FoldedAreMerged(c, reports[..|reports| - 1], clock); }
  }

  lemma {:induction false} NoMergedCloses(reports: seq<Report>, d: Decision, clock: Clock)
    requires forall i :: 0 <= i < |reports| ==> reports[i].state == Merged
    ensures Closed(reports, d, clock) == []
  {
    if reports != [] { NoMergedCloses(reports[..|reports| - 1], d, clock); }
  }
}
