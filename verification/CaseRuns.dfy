/** What every run of one case satisfies, and what its audit log says about it. */
module CaseRuns {
  import opened Core
  import opened Account
  import opened Audit
  import opened Moderation
  import opened CaseWork
  import opened CaseMerge
  import opened Decisions

  datatype Desk = Desk(moderationCase: Case, rows: seq<Entry>)

  /** Every step brings the clock it reads. */
  datatype DeskStep =
    | WorkOn(work: Work, actor: Actor, clock: Clock)
    | FoldIn(reports: seq<Report>, actor: Actor, clock: Clock)
    | Rule(ruling: Ruling, decisionId: string, actor: Actor, clock: Clock)
    | Answer(reversed: Decision, rationale: string, current: AccountState, decisionId: string, actor: Actor, clock: Clock)
    | CloseOut(reports: seq<Report>, decision: Decision, actor: Actor, clock: Clock)

  function CaseAfter(c: Case, step: DeskStep): Result<Case, Code> {
    match step
    case WorkOn(work, actor, clock) => Worked(c, work, actor, clock(0))
    case FoldIn(reports, actor, clock) =>
      var r := MergeInto(c, reports, actor, clock);
      if r.Ok? then Ok(r.value.moderationCase) else Err(r.error)
    case Rule(ruling, decisionId, actor, clock) =>
      var r := DecideCase(c, actor, ruling, decisionId, clock);
      if r.Ok? then Ok(r.value.moderationCase) else Err(r.error)
    case Answer(_, _, _, _, _, _) => Ok(c)
    case CloseOut(_, _, _, _) => Ok(c)
  }

  function RowsOf(c: Case, step: DeskStep): seq<NewEntry> {
    match step
    case WorkOn(work, actor, clock) => WorkEntries(c, work, actor, clock(0))
    case FoldIn(reports, actor, clock) => MergeEntries(c, reports, actor, clock)
    case Rule(ruling, decisionId, actor, clock) => DecideEntries(c, actor, ruling, decisionId, clock)
    case Answer(reversed, rationale, current, decisionId, actor, clock) =>
      ReverseEntries(c, actor, reversed, rationale, current, decisionId, clock(0))
    case CloseOut(reports, decision, _, clock) => ClosingEntries(Closed(reports, decision, clock), decision)
  }

  function StepDesk(d: Desk, step: DeskStep): Desk {
    var after := CaseAfter(d.moderationCase, step);
    Desk(if after.Ok? then after.value else d.moderationCase, Appended(d.rows, RowsOf(d.moderationCase, step)))
  }

  function RunDesk(d: Desk, steps: seq<DeskStep>): Desk
    decreases |steps|
  {
    if steps == [] then d else RunDesk(StepDesk(d, steps[0]), steps[1..])
  }

  /** An accepted command is taken in full, case and rows; a refused one leaves everything as it was. */
  lemma StepIsTaken(d: Desk, step: DeskStep)
    ensures
      var c, next := d.moderationCase, StepDesk(d, step);
      match step
      case WorkOn(work, actor, clock) =>
        var r := Worked(c, work, actor, clock(0));
        if r.Ok? then next.moderationCase == r.value && |next.rows| == |d.rows| + 1
                      && next.rows[|d.rows|].entry.occurredAt == r.value.updatedAt
        else next == d
      case FoldIn(reports, actor, clock) =>
        var r := MergeInto(c, reports, actor, clock);
        if r.Ok? then next.moderationCase == r.value.moderationCase && |next.rows| == |d.rows| + |r.value.mergedReports| + 1 else next == d
      case Rule(ruling, decisionId, actor, clock) =>
        if DecideCase(c, actor, ruling, decisionId, clock).Ok?
        then next.moderationCase.state == Resolved && next.moderationCase.resolutionDecisionId == Some(decisionId)
             && |next.rows| == |d.rows| + 2
        else next == d
      case Answer(reversed, rationale, current, decisionId, actor, clock) =>
        var r := ReverseOn(c, actor, reversed, rationale, current, decisionId, clock(0));
        if r.Ok? then next.moderationCase == c && |next.rows| == |d.rows| + 1
                      && next.rows[|d.rows|].entry.occurredAt == r.value.decidedAt
        else next == d
      case CloseOut(reports, decision, _, clock) =>
        next.moderationCase == c && |next.rows| == |d.rows| + |Closed(reports, decision, clock)|
    ensures StepDesk(d, step).rows == Appended(d.rows, RowsOf(d.moderationCase, step))
  {
    assert Appended(d.rows, []) == d.rows;
    if step.FoldIn? && MergeInto(d.moderationCase, step.reports, step.actor, step.clock).Ok? {
      ReportRowsAre(d.moderationCase, MergeInto(d.moderationCase, step.reports, step.actor, step.clock).value.mergedReports, step.actor);
    }
  }

  lemma CaseAfterKeeps(c: Case, step: DeskStep)
    requires CaseInv(c) && CaseAfter(c, step).Ok?
    ensures CaseInv(CaseAfter(c, step).value) && Grows(c, CaseAfter(c, step).value)
    ensures NoDup(CaseAfter(c, step).value.evidenceIds) <==> NoDup(c.evidenceIds)
  {
    match step
    case WorkOn(work, actor, clock) => WorkKeepsCase(c, work, actor, clock(0));
    case FoldIn(reports, actor, clock) => MergeKeepsCase(c, reports, actor, clock);
    case Rule(ruling, decisionId, actor, clock) => DecisionKeepsCase(c, actor, ruling, decisionId, clock);
    case Answer(_, _, _, _, _, _) =>
    case CloseOut(_, _, _, _) =>
  }

  lemma GrowsTransitively(a: Case, b: Case, c: Case)
    requires Grows(a, b) && Grows(b, c)
    ensures Grows(a, c)
  {
  }

  /**
   * Over every run: resolved exactly with a decision on record, due when the current
   * priority says, never a weaker priority or a later due date, no evidence or report
   * lost, evidence named twice only if it was at the start, and an audit log that only
   * grows, numbered by position.
   */
  lemma {:induction false} RunKeepsDesk(d: Desk, steps: seq<DeskStep>)
    requires CaseInv(d.moderationCase) && InOrder(d.rows)
    ensures var after := RunDesk(d, steps);
            CaseInv(after.moderationCase) && Grows(d.moderationCase, after.moderationCase) && InOrder(after.rows) && d.rows <= after.rows
            && (NoDup(after.moderationCase.evidenceIds) <==> NoDup(d.moderationCase.evidenceIds))
    decreases |steps|
  {
    if steps != [] {
      var next := StepDesk(d, steps[0]);
      AppendedInOrder(d.rows, RowsOf(d.moderationCase, steps[0]));
      if CaseAfter(d.moderationCase, steps[0]).Ok? { CaseAfterKeeps(d.moderationCase, steps[0]); }
      RunKeepsDesk(next, steps[1..]);
      GrowsTransitively(d.moderationCase, next.moderationCase, RunDesk(next, steps[1..]).moderationCase);
    }
  }

  /** The same from the opening of any case, which is the first thing its log says. */
  lemma {:induction false} OpenedCasesStaySound(
    intake: Intake, openedBy: Option<string>, caseId: string, evidenceId: string, clock: Clock, rows: seq<Entry>, steps: seq<DeskStep>)
    requires OpenCase(intake, caseId, evidenceId, clock(0)).Ok? && InOrder(rows)
    ensures var first := OpenCase(intake, caseId, evidenceId, clock(0)).value;
            var opened_ := Appended(rows, OpeningEntries(intake, openedBy, caseId, evidenceId, clock));
            var after := RunDesk(Desk(first, opened_), steps);
            CaseInv(after.moderationCase) && Grows(first, after.moderationCase) && after.moderationCase.openedAt == clock(0)
            && (NoDup(after.moderationCase.evidenceIds) <==> (intake.FromReport? ==> NoDup(intake.report.evidenceIds)))
            && InOrder(after.rows) && opened_ <= after.rows
            && exists i :: |rows| <= i < |after.rows| && after.rows[i].entry.action == CaseOpened
                           && after.rows[i].entry.entityId == caseId && after.rows[i].entry.evidenceIds == first.evidenceIds
  {
    var first := OpenCase(intake, caseId, evidenceId, clock(0)).value;
    var entries := OpeningEntries(intake, openedBy, caseId, evidenceId, clock);
    var opened_ := Appended(rows, entries);
    OpensSound(intake, caseId, evidenceId, clock(0));
    AppendedInOrder(rows, entries);
    RunKeepsDesk(Desk(first, opened_), steps);
    assert opened_[|opened_| - 1].entry == entries[|entries| - 1];
  }

  function ActorOf(step: DeskStep): Actor {
    step.actor
  }

  /** A step an automated actor takes on a case changes nothing and, unless it closes reports, writes nothing. */
  lemma AutomationWorksNothing(d: Desk, step: DeskStep)
    requires ActorOf(step).automated
    ensures StepDesk(d, step).moderationCase == d.moderationCase
    ensures !step.CloseOut? ==> StepDesk(d, step) == d
  {
    assert Appended(d.rows, []) == d.rows;
  }

  /** An escalated case is moved only by a lead, and no case is resolved except by a decision taken in review. */
  lemma EscalatedIsALeads(d: Desk, step: DeskStep)
    requires StepDesk(d, step).moderationCase != d.moderationCase
    ensures d.moderationCase.state == CaseState.CaseEscalated ==> ActorOf(step).isLead && !ActorOf(step).automated
    ensures d.moderationCase.state != Resolved && StepDesk(d, step).moderationCase.state == Resolved ==>
              step.Rule? && d.moderationCase.state in [InReview, CaseState.CaseEscalated]
  {
    if step.FoldIn? && MergeInto(d.moderationCase, step.reports, step.actor, step.clock).Ok? {
      MergesIff(d.moderationCase, step.reports, step.actor, step.clock);
    }
  }

  /** A refused step is invisible: the case and the audit log are as they were. */
  lemma RefusalsLeaveNoTrace(d: Desk, step: DeskStep)
    requires CaseAfter(d.moderationCase, step).Err?
    ensures StepDesk(d, step) == d
  {
    assert Appended(d.rows, []) == d.rows;
  }
}
