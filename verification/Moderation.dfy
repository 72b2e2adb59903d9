/**
 * Reports and cases: the two machines, the queue's priorities and clock, and the
 * records they move (`packages/moderation/src/queue.ts`, `report.ts`, `case.ts`).
 */
module Moderation {
  import opened Core
  import opened Transition

  const HOUR_MS := 3_600_000

  // ------------------------------------------------------------------------- queue --

  datatype Priority = Low | Normal | High | Urgent

  function Rank(p: Priority): int {
    match p
    case Low => 0
    case Normal => 1
    case High => 2
    case Urgent => 3
  }

  function SlaHours(p: Priority): int {
    match p
    case Low => 72
    case Normal => 48
    case High => 24
    case Urgent => 4
  }

  function Highest(a: Priority, b: Priority): Priority {
    if Rank(a) >= Rank(b) then a else b
  }

  function DueFrom(openedAt: int, p: Priority): int {
    openedAt + SlaHours(p) * HOUR_MS
  }

  /** Urgent cases are due in four hours, high ones in a day, normal ones in two and low ones in three. */
  lemma DueIs(openedAt: int, p: Priority)
    ensures DueFrom(openedAt, p)
         == openedAt + (if p == Urgent then 14_400_000 else (if p == High then 1 else if p == Normal then 2 else 3) * 86_400_000)
  {
  }

  /** A stronger priority is due sooner, from the same opening. */
  lemma StrongerIsDueSooner(openedAt: int, p: Priority, q: Priority)
    ensures Rank(p) < Rank(q) <==> DueFrom(openedAt, q) < DueFrom(openedAt, p)
  {
  }

  // ----------------------------------------------------------------------- reports --

  datatype Reason =
    | Harassment | HateOrDiscrimination | ThreatsOrViolence | SexualContent | NonConsensualIntimacy | MinorSafety
    | UnsafeContact | ScamOrSolicitation | Impersonation | FakeOrMisleadingProfile | Spam | OtherReason

  function PriorityFor(reason: Reason): Priority {
    match reason
    case Harassment => Normal
    case HateOrDiscrimination => High
    case ThreatsOrViolence => Urgent
    case SexualContent => Normal
    case NonConsensualIntimacy => Urgent
    case MinorSafety => Urgent
    case UnsafeContact => High
    case ScamOrSolicitation => Normal
    case Impersonation => High
    case FakeOrMisleadingProfile => Low
    case Spam => Low
    case OtherReason => Normal
  }

  /** The `reduce` over reasons, starting from `low`. */
  function Strongest(reasons: seq<Reason>): Priority {
    if reasons == [] then Low else Highest(Strongest(reasons[..|reasons| - 1]), PriorityFor(reasons[|reasons| - 1]))
  }

  /** It is an upper bound of the reasons' priorities, and one of them or `low`. */
  lemma {:induction false} StrongestIsGreatest(reasons: seq<Reason>)
    ensures forall i :: 0 <= i < |reasons| ==> Rank(PriorityFor(reasons[i])) <= Rank(Strongest(reasons))
    ensures Strongest(reasons) == Low || exists i :: 0 <= i < |reasons| && PriorityFor(reasons[i]) == Strongest(reasons)
  {
    if reasons != [] {
      var rest := reasons[..|reasons| - 1];
      StrongestIsGreatest(rest);
      if Strongest(reasons) == Strongest(rest) && Strongest(rest) != Low {
        var i :| 0 <= i < |rest| && PriorityFor(rest[i]) == Strongest(rest);
        assert reasons[i] == rest[i];
      }
      if Strongest(reasons) != Strongest(rest) {
        assert PriorityFor(reasons[|reasons| - 1]) == Strongest(reasons);
      }
    }
  }

  datatype ReportState = Submitted | Triaged | Merged | Actioned | Dismissed | ReportEscalated

  datatype ReportEvent = Triage | Merge | ActionReport | Dismiss | EscalateReport

  datatype ReportContext = ReportContext(caseGiven: bool, moderatorGiven: bool, decisionGiven: bool)

  const REPORT_TABLE: seq<Row<ReportState, ReportEvent, ReportContext>> := [
    Row(Triage, Some([Submitted]), Triaged, None),
    Row(Merge, Some([Triaged]), Merged, Some((c: ReportContext) => c.caseGiven && c.moderatorGiven)),
    Row(ActionReport, Some([Triaged, ReportEscalated]), Actioned, Some((c: ReportContext) => c.caseGiven && c.moderatorGiven && c.decisionGiven)),
    Row(Dismiss, Some([Triaged, ReportEscalated]), Dismissed, Some((c: ReportContext) => c.caseGiven && c.moderatorGiven && c.decisionGiven)),
    Row(EscalateReport, Some([Triaged]), ReportEscalated, Some((c: ReportContext) => c.moderatorGiven))
  ]

  /** `reportMachine.next`, event by event; `ReportTableSays` ties it to the table. */
  function ReportNext(state: ReportState, event: ReportEvent, c: ReportContext): Result<ReportState, Code> {
    match event
    case Triage => Answer(state == Submitted, true, Triaged)
    case Merge => Answer(state == Triaged, c.caseGiven && c.moderatorGiven, Merged)
    case ActionReport => Answer(state == Triaged || state == ReportEscalated, c.caseGiven && c.moderatorGiven && c.decisionGiven, Actioned)
    case Dismiss => Answer(state == Triaged || state == ReportEscalated, c.caseGiven && c.moderatorGiven && c.decisionGiven, Dismissed)
    case EscalateReport => Answer(state == Triaged, c.moderatorGiven, ReportEscalated)
  }

  function ReportRow(event: ReportEvent): (i: nat)
    ensures i < |REPORT_TABLE| && REPORT_TABLE[i].event == event
    ensures forall j :: 0 <= j < |REPORT_TABLE| && j != i ==> REPORT_TABLE[j].event != event
  {
    match event
    case Triage => 0
    case Merge => 1
    case ActionReport => 2
    case Dismiss => 3
    case EscalateReport => 4
  }

  lemma ReportRowAnswers(state: ReportState, event: ReportEvent, context: ReportContext)
    ensures var row := REPORT_TABLE[ReportRow(event)];
            ReportNext(state, event, context) == Answer(row.from == None || state in row.from.value, row.Passes(context), row.to)
  {
  }

  /** The event-by-event form is what the kernel reads off the table, for every state, event and context. */
  lemma ReportTableSays(state: ReportState, event: ReportEvent, context: ReportContext)
    ensures Next(REPORT_TABLE, state, event, context) == ReportNext(state, event, context)
  {
    ReportRowAnswers(state, event, context);
    OneRowDecides(REPORT_TABLE, ReportRow(event), state, event, context);
  }

  /** The parts of a report that a case works with; its captured evidence is named by id. */
  datatype Report = Report(
    reportId: string, subjectId: string, reason: Reason, evidenceIds: seq<string>,
    state: ReportState, mergedCaseId: Option<string>, updatedAt: int)

  // ------------------------------------------------------------------------- cases --

  datatype CaseState = Open | Assigned | InReview | CaseEscalated | Resolved

  datatype CaseEvent = Assign | StartReview | Escalate | Resolve | Reopen

  datatype CaseContext = CaseContext(moderatorGiven: bool, decisionGiven: bool, reason: string)

  const CASE_TABLE: seq<Row<CaseState, CaseEvent, CaseContext>> := [
    Row(Assign, Some([Open, Assigned, CaseEscalated]), Assigned, Some((c: CaseContext) => c.moderatorGiven)),
    Row(StartReview, Some([Assigned]), InReview, Some((c: CaseContext) => c.moderatorGiven)),
    Row(Escalate, Some([Open, Assigned, InReview]), CaseEscalated, Some((c: CaseContext) => c.moderatorGiven && !Blank(c.reason))),
    Row(Resolve, Some([Open, Assigned, InReview, CaseEscalated]), Resolved,
        Some((c: CaseContext) => c.moderatorGiven && c.decisionGiven)),
    Row(Reopen, Some([Resolved]), Open, Some((c: CaseContext) => c.moderatorGiven && !Blank(c.reason)))
  ]

  /** `caseMachine.next`, event by event; `CaseTableSays` ties it to the table. */
  function CaseNext(state: CaseState, event: CaseEvent, c: CaseContext): Result<CaseState, Code> {
    match event
    case Assign => Answer(state == Open || state == Assigned || state == CaseEscalated, c.moderatorGiven, Assigned)
    case StartReview => Answer(state == Assigned, c.moderatorGiven, InReview)
    case Escalate => Answer(state == Open || state == Assigned || state == InReview, c.moderatorGiven && !Blank(c.reason), CaseEscalated)
    case Resolve => Answer(state != Resolved, c.moderatorGiven && c.decisionGiven, Resolved)
    case Reopen => Answer(state == Resolved, c.moderatorGiven && !Blank(c.reason), Open)
  }

  function CaseRow(event: CaseEvent): (i: nat)
    ensures i < |CASE_TABLE| && CASE_TABLE[i].event == event
    ensures forall j :: 0 <= j < |CASE_TABLE| && j != i ==> CASE_TABLE[j].event != event
  {
    match event
    case Assign => 0
    case StartReview => 1
    case Escalate => 2
    case Resolve => 3
    case Reopen => 4
  }

  lemma CaseRowAnswers(state: CaseState, event: CaseEvent, context: CaseContext)
    ensures var row := CASE_TABLE[CaseRow(event)];
            CaseNext(state, event, context) == Answer(row.from == None || state in row.from.value, row.Passes(context), row.to)
  {
  }

  /** The event-by-event form is what the kernel reads off the table, for every state, event and context. */
  lemma CaseTableSays(state: CaseState, event: CaseEvent, context: CaseContext)
    ensures Next(CASE_TABLE, state, event, context) == CaseNext(state, event, context)
  {
    CaseRowAnswers(state, event, context);
    OneRowDecides(CASE_TABLE, CaseRow(event), state, event, context);
  }

  datatype Origin =
    | UserReport(reasons: seq<Reason>)
    | RiskReview(riskAssessmentId: string, riskState: RiskState)
    | IdentityAnomaly(verificationId: string, anomaly: string)
    | ReportCampaign(clusterKey: string, targetId: string, reporters: seq<string>)

  datatype RiskState = RiskNormal | RiskElevated | RiskHigh | RiskCritical

  datatype Queue = Safety | IdentityIntegrity

  datatype Case = Case(
    caseId: string, subjectId: string, origin: Origin, state: CaseState, priority: Priority, queue: Queue,
    openedAt: int, dueAt: int, assignedModeratorId: Option<string>,
    reportIds: seq<string>, evidenceIds: seq<string>, resolutionDecisionId: Option<string>, updatedAt: int)

  datatype Actor = Actor(actorId: string, automated: bool, isLead: bool)

  /** What every reachable case satisfies, whatever it was opened from. */
  predicate CaseInv(c: Case) {
    (c.state == Resolved <==> c.resolutionDecisionId.Some?)
    && c.dueAt == DueFrom(c.openedAt, c.priority)
    && c.evidenceIds != []
    && (c.state == Assigned || c.state == InReview ==> c.assignedModeratorId.Some?)
    && Rank(Strongest(OriginReasons(c.origin))) <= Rank(c.priority)
  }

  function OriginReasons(origin: Origin): seq<Reason> {
    if origin.UserReport? then origin.reasons else []
  }

  /** What no operation on a case undoes. */
  predicate Grows(before: Case, after: Case) {
    after.caseId == before.caseId && after.subjectId == before.subjectId && after.origin == before.origin
    && after.openedAt == before.openedAt && after.queue == before.queue
    && Rank(before.priority) <= Rank(after.priority) && after.dueAt <= before.dueAt
    && before.reportIds <= after.reportIds && before.evidenceIds <= after.evidenceIds
  }

  /** An automated actor works nothing; an escalated case is a lead's. */
  function CanWork(c: Case, actor: Actor): Result<(), Code> {
    if actor.automated then Err(PermissionDenied)
    else if c.state == CaseEscalated && !actor.isLead then Err(PermissionDenied)
    else Ok(())
  }

  lemma CanWorkIff(c: Case, actor: Actor)
    ensures CanWork(c, actor).Ok? <==> !actor.automated && (actor.isLead || c.state != CaseEscalated)
    ensures CanWork(c, actor).Err? ==> CanWork(c, actor).error == PermissionDenied
  {
  }

  // ----------------------------------------------------------------------- opening --

  function RiskPriority(r: RiskState): Priority {
    match r
    case RiskNormal => Low
    case RiskElevated => Normal
    case RiskHigh => High
    case RiskCritical => Urgent
  }

  datatype Intake =
    | FromReport(report: Report)
    | FromRisk(subjectId: string, riskAssessmentId: string, riskState: RiskState)
    | FromAnomaly(subjectId: string, verificationId: string, anomaly: string)
    | FromCampaign(subjectId: string, clusterKey: string, targetId: string, reporters: seq<string>)

  function IntakeRefusal(intake: Intake): Option<Code> {
    match intake
    case FromReport(report) =>
      if report.state == Merged && report.mergedCaseId.Some? then Some(Conflict)
      else if report.state != Triaged then Some(NotEligible)
      else if report.evidenceIds == [] then Some(ValidationFailed)
      else None
    case FromRisk(_, _, riskState) => if riskState == RiskNormal then Some(NotEligible) else None
    case FromAnomaly(_, _, anomaly) => if Blank(anomaly) then Some(ValidationFailed) else None
    case FromCampaign(subjectId, _, targetId, reporters) =>
      if subjectId !in reporters || targetId in reporters || |ToSet(reporters)| != |reporters| then Some(ValidationFailed) else None
  }

  /** `evidenceId` is the id of the snapshot that an intake other than a report captures. */
  function Opened(intake: Intake, caseId: string, evidenceId: string, now: int): Case {
    match intake
    case FromReport(r) =>
      NewCase(caseId, r.subjectId, UserReport([r.reason]), Strongest([r.reason]), Safety, now, [r.reportId], r.evidenceIds)
    case FromRisk(subjectId, id, riskState) =>
      NewCase(caseId, subjectId, RiskReview(id, riskState), RiskPriority(riskState), Safety, now, [], [evidenceId])
    case FromAnomaly(subjectId, id, anomaly) =>
      NewCase(caseId, subjectId, IdentityAnomaly(id, anomaly), High, IdentityIntegrity, now, [], [evidenceId])
    case FromCampaign(subjectId, key, targetId, reporters) =>
      NewCase(caseId, subjectId, ReportCampaign(key, targetId, reporters), High, Safety, now, [], [evidenceId])
  }

  function NewCase(
    caseId: string, subjectId: string, origin: Origin, priority: Priority, queue: Queue, now: int,
    reportIds: seq<string>, evidenceIds: seq<string>
  ): Case {
    Case(caseId, subjectId, origin, Open, priority, queue, now, DueFrom(now, priority), None, reportIds, evidenceIds, None, now)
  }

  function OpenCase(intake: Intake, caseId: string, evidenceId: string, now: int): Result<Case, Code> {
    var refused := IntakeRefusal(intake);
    if refused.Some? then Err(refused.value) else Ok(Opened(intake, caseId, evidenceId, now))
  }

  /** Exactly which intakes open a case. */
  lemma OpensIff(intake: Intake, caseId: string, evidenceId: string, now: int)
    ensures
      var r := OpenCase(intake, caseId, evidenceId, now);
      match intake
      case FromReport(report) =>
        (r.Ok? <==> report.state == Triaged && report.evidenceIds != [])
        && (r == Err(Conflict) <==> report.state == Merged && report.mergedCaseId.Some?)
        && (r == Err(ValidationFailed) <==> report.state == Triaged && report.evidenceIds == [])
        && (r.Err? ==> r.error in {Conflict, ValidationFailed, NotEligible})
      case FromRisk(_, _, riskState) => (r.Ok? <==> riskState != RiskNormal) && (r.Err? ==> r.error == NotEligible)
      case FromAnomaly(_, _, anomaly) =>
        (r.Ok? <==> exists i :: 0 <= i < |anomaly| && !JsWhitespace(anomaly[i])) && (r.Err? ==> r.error == ValidationFailed)
      case FromCampaign(subjectId, _, targetId, reporters) =>
        (r.Ok? <==> subjectId in reporters && targetId !in reporters && NoDup(reporters)) && (r.Err? ==> r.error == ValidationFailed)
  {
    if intake.FromCampaign? { DistinctIffFull(intake.reporters); }
  }

  function SubjectOf(intake: Intake): string {
    if intake.FromReport? then intake.report.subjectId else intake.subjectId
  }

  /** What a case is opened with: whose it is, how urgent, what it lists, and nobody's yet. */
  lemma OpenedIs(intake: Intake, caseId: string, evidenceId: string, now: int)
    requires OpenCase(intake, caseId, evidenceId, now).Ok?
    ensures
      var c := OpenCase(intake, caseId, evidenceId, now).value;
      c.caseId == caseId && c.subjectId == SubjectOf(intake) && c.state == Open && c.openedAt == now && c.updatedAt == now
      && c.assignedModeratorId == None && c.resolutionDecisionId == None
      && c.priority == (match intake
                        case FromReport(report) => PriorityFor(report.reason)
                        case FromRisk(_, _, risk) => if risk == RiskElevated then Normal else if risk == RiskHigh then High else Urgent
                        case _ => High)
      && c.dueAt == now + SlaHours(c.priority) * 3_600_000
      && (c.queue == IdentityIntegrity <==> intake.FromAnomaly?)
      && c.reportIds == (if intake.FromReport? then [intake.report.reportId] else [])
      && c.evidenceIds == (if intake.FromReport? then intake.report.evidenceIds else [evidenceId])
      && c.origin == (match intake
                      case FromReport(report) => UserReport([report.reason])
                      case FromRisk(_, id, risk) => RiskReview(id, risk)
                      case FromAnomaly(_, id, anomaly) => IdentityAnomaly(id, anomaly)
                      case FromCampaign(_, key, target, reporters) => ReportCampaign(key, target, reporters))
  {
    if intake.FromReport? {
      var reasons := [intake.report.reason];
      assert reasons[..0] == [] && Strongest([]) == Low;
    }
  }

  /** Every case opens sound, and names each piece of evidence once exactly when the report it opens from does. */
  lemma OpensSound(intake: Intake, caseId: string, evidenceId: string, now: int)
    requires OpenCase(intake, caseId, evidenceId, now).Ok?
    ensures CaseInv(OpenCase(intake, caseId, evidenceId, now).value)
    ensures NoDup(OpenCase(intake, caseId, evidenceId, now).value.evidenceIds)
       <==> (intake.FromReport? ==> NoDup(intake.report.evidenceIds))
  {
  }

  /** A campaign case is about one of several distinct reporters, never about the account they reported. */
  lemma CampaignNeverTurnsOnItsTarget(intake: Intake, caseId: string, evidenceId: string, now: int)
    requires intake.FromCampaign? && OpenCase(intake, caseId, evidenceId, now).Ok?
    ensures OpenCase(intake, caseId, evidenceId, now).value.subjectId != intake.targetId
    ensures NoDup(intake.reporters)
  {
    DistinctIffFull(intake.reporters);
  }

  lemma LastRepeats(s: seq<string>)
    requires s != []
    ensures s[|s| - 1] in s[..|s| - 1] ==> !NoDup(s)
  {
    if s[|s| - 1] in s[..|s| - 1] {
      var i :| 0 <= i < |s| - 1 && s[..|s| - 1][i] == s[|s| - 1];
      assert s[i] == s[|s| - 1];
    }
  }

  lemma DistinctByLast(s: seq<string>)
    requires s != []
    ensures NoDup(s) <==> NoDup(s[..|s| - 1]) && s[|s| - 1] !in s[..|s| - 1]
  {
    LastRepeats(s);
    var rest := s[..|s| - 1];
    if NoDup(s) {
      forall i, j | 0 <= i < j < |rest| ensures rest[i] != rest[j] { assert rest[i] == s[i] && rest[j] == s[j]; }
    }
    if NoDup(rest) && s[|s| - 1] !in rest {
      forall i, j | 0 <= i < j < |s| ensures s[i] != s[j] { assert s[i] == rest[i]; }
    }
  }

  /** `new Set(list).size === list.length` says exactly that nothing is repeated. */
  lemma {:induction false} DistinctIffFull(s: seq<string>)
    ensures |ToSet(s)| == |s| <==> NoDup(s)
    ensures |ToSet(s)| <= |s|
  {
    if s != [] {
      var last, rest := s[|s| - 1], s[..|s| - 1];
      DistinctIffFull(rest);
      DistinctByLast(s);
      assert s == rest + [last];
      assert ToSet(s) == ToSet(rest) + {last};
      assert last in rest <==> last in ToSet(rest);
    }
  }
}
