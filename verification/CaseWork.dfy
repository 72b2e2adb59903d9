/** Working a case and merging reports into it (`packages/moderation/src/case.ts`). */
module CaseWork {
  import opened Core
  import opened Transition
  import opened Moderation
  import opened Audit

  /** The instants a command reads off the clock, in the order it reads them. */
  type Clock = nat -> int

  // ------------------------------------------------------------------------------- opening --

  function OpenerEntry(
    c: Case, openedBy: Option<string>, action: Action, entityType: EntityType, entityId: string, evidenceIds: seq<string>, at: int
  ): NewEntry {
    NewEntry(at, openedBy, action, entityType, entityId, c.subjectId, Some(c.caseId), evidenceIds, None)
  }

  /** What opening writes: the snapshot it captures, unless a report brings its own evidence, and the case. */
  function OpeningEntries(intake: Intake, openedBy: Option<string>, caseId: string, evidenceId: string, clock: Clock): seq<NewEntry> {
    var r := OpenCase(intake, caseId, evidenceId, clock(0));
    if r.Err? then []
    else
      (if intake.FromReport? then []
       else [OpenerEntry(r.value, openedBy, EvidenceCaptured, EvidenceEntity, evidenceId, [evidenceId], clock(1))])
      + [OpenerEntry(r.value, openedBy, CaseOpened, CaseEntity, caseId, r.value.evidenceIds, clock(0))]
  }

  /** The snapshot's summary is never blank, so `captureEvidence` refuses none of these. */
  method OpenAndRecord(audit: AuditLog, intake: Intake, openedBy: Option<string>, caseId: string, evidenceId: string, clock: Clock)
    returns (r: Result<Case, Code>)
    requires audit.Valid()
    modifies audit
    ensures audit.Valid() && r == OpenCase(intake, caseId, evidenceId, clock(0))
    ensures audit.rows == Appended(old(audit.rows), OpeningEntries(intake, openedBy, caseId, evidenceId, clock))
  {
    var openedAt := clock(0);
    var refused := IntakeRefusal(intake);
    if refused.Some? { return Err(refused.value); }
    var c := Opened(intake, caseId, evidenceId, openedAt);
    var last := OpenerEntry(c, openedBy, CaseOpened, CaseEntity, caseId, c.evidenceIds, openedAt);
    if !intake.FromReport? {
      var first := OpenerEntry(c, openedBy, EvidenceCaptured, EvidenceEntity, evidenceId, [evidenceId], clock(1));
      AppendedTwice(old(audit.rows), [first], [last]);
      var _ := audit.Append(first);
    }
    var _ := audit.Append(last);
    return Ok(c);
  }

  /** An opening leaves the row of the snapshot it took, if it took one, and its own, both about the case and its subject. */
  lemma OpeningRowsAre(intake: Intake, openedBy: Option<string>, caseId: string, evidenceId: string, clock: Clock)
    requires OpenCase(intake, caseId, evidenceId, clock(0)).Ok?
    ensures
      var own := NewEntry(clock(0), openedBy, CaseOpened, CaseEntity, caseId, SubjectOf(intake), Some(caseId),
                          if intake.FromReport? then intake.report.evidenceIds else [evidenceId], None);
      var snapshot := NewEntry(clock(1), openedBy, EvidenceCaptured, EvidenceEntity, evidenceId, SubjectOf(intake), Some(caseId),
                               [evidenceId], None);
      OpeningEntries(intake, openedBy, caseId, evidenceId, clock) == if intake.FromReport? then [own] else [snapshot, own]
  {
    OpenedIs(intake, caseId, evidenceId, clock(0));
  }

  // ------------------------------------------------------- assign, review, escalate, reopen --

  datatype Work = AssignToActor | BeginReview | EscalateFor(reason: string) | ReopenFor(reason: string)

  function EventOf(w: Work): CaseEvent {
    match w
    case AssignToActor => Assign
    case BeginReview => StartReview
    case EscalateFor(_) => Escalate
    case ReopenFor(_) => Reopen
  }

  function ContextOf(w: Work): CaseContext {
    CaseContext(true, false, if w.EscalateFor? || w.ReopenFor? then w.reason else "")
  }

  function Worked(c: Case, w: Work, actor: Actor, now: int): Result<Case, Code> {
    var next := CaseNext(c.state, EventOf(w), ContextOf(w));
    if CanWork(c, actor).Err? then Err(PermissionDenied)
    else if next.Err? then Err(next.error)
    else
      Ok(c.(state := next.value, updatedAt := now,
            assignedModeratorId := if w.AssignToActor? then Some(actor.actorId) else c.assignedModeratorId,
            resolutionDecisionId := if w.ReopenFor? then None else c.resolutionDecisionId))
  }

  function CaseEntry(c: Case, action: Action, actor: Actor, evidenceIds: seq<string>, now: int): NewEntry {
    NewEntry(now, Some(actor.actorId), action, CaseEntity, c.caseId, c.subjectId, Some(c.caseId), evidenceIds, None)
  }

  function WorkEntries(c: Case, w: Work, actor: Actor, now: int): seq<NewEntry> {
    if Worked(c, w, actor, now).Err? then []
    else
      match w
      case AssignToActor => [CaseEntry(c, CaseAssigned, actor, [], now)]
      case BeginReview => [CaseEntry(c, CaseReviewStarted, actor, c.evidenceIds, now)]
      case EscalateFor(_) => [CaseEntry(c, Action.CaseEscalated, actor, [], now)]
      case ReopenFor(_) => [CaseEntry(c, CaseReopened, actor, [], now)]
  }

  method AssignCase(audit: AuditLog, c: Case, actor: Actor, now: int) returns (r: Result<Case, Code>)
    requires audit.Valid()
    modifies audit
    ensures audit.Valid() && r == Worked(c, AssignToActor, actor, now)
    ensures audit.rows == Appended(old(audit.rows), WorkEntries(c, AssignToActor, actor, now))
  {
    if CanWork(c, actor).Err? { return Err(PermissionDenied); }
    var next := CaseNext(c.state, Assign, CaseContext(true, false, ""));
    if next.Err? { return Err(next.error); }
    var updated := c.(state := next.value, assignedModeratorId := Some(actor.actorId), updatedAt := now);
    var _ := audit.Append(CaseEntry(updated, CaseAssigned, actor, [], now));
    return Ok(updated);
  }

  method StartCaseReview(audit: AuditLog, c: Case, actor: Actor, now: int) returns (r: Result<Case, Code>)
    requires audit.Valid()
    modifies audit
    ensures audit.Valid() && r == Worked(c, BeginReview, actor, now)
    ensures audit.rows == Appended(old(audit.rows), WorkEntries(c, BeginReview, actor, now))
  {
    if CanWork(c, actor).Err? { return Err(PermissionDenied); }
    var next := CaseNext(c.state, StartReview, CaseContext(true, false, ""));
    if next.Err? { return Err(next.error); }
    var updated := c.(state := next.value, updatedAt := now);
    var _ := audit.Append(CaseEntry(updated, CaseReviewStarted, actor, updated.evidenceIds, now));
    return Ok(updated);
  }

  method EscalateCase(audit: AuditLog, c: Case, actor: Actor, reason: string, now: int) returns (r: Result<Case, Code>)
    requires audit.Valid()
    modifies audit
    ensures audit.Valid() && r == Worked(c, EscalateFor(reason), actor, now)
    ensures audit.rows == Appended(old(audit.rows), WorkEntries(c, EscalateFor(reason), actor, now))
  {
    if CanWork(c, actor).Err? { return Err(PermissionDenied); }
    var next := CaseNext(c.state, Escalate, CaseContext(true, false, reason));
    if next.Err? { return Err(next.error); }
    var updated := c.(state := next.value, updatedAt := now);
    var _ := audit.Append(CaseEntry(updated, Action.CaseEscalated, actor, [], now));
    return Ok(updated);
  }

  method ReopenCase(audit: AuditLog, c: Case, actor: Actor, reason: string, now: int) returns (r: Result<Case, Code>)
    requires audit.Valid()
    modifies audit
    ensures audit.Valid() && r == Worked(c, ReopenFor(reason), actor, now)
    ensures audit.rows == Appended(old(audit.rows), WorkEntries(c, ReopenFor(reason), actor, now))
  {
    if CanWork(c, actor).Err? { return Err(PermissionDenied); }
    var next := CaseNext(c.state, Reopen, CaseContext(true, false, reason));
    if next.Err? { return Err(next.error); }
    var updated := c.(state := next.value, resolutionDecisionId := None, updatedAt := now);
    var _ := audit.Append(CaseEntry(updated, CaseReopened, actor, [], now));
    return Ok(updated);
  }

  /** Work keeps a case sound, and grows nothing and loses nothing but the resolution a reopening clears. */
  lemma WorkKeepsCase(c: Case, w: Work, actor: Actor, now: int)
    requires CaseInv(c) && Worked(c, w, actor, now).Ok?
    ensures CaseInv(Worked(c, w, actor, now).value) && Grows(c, Worked(c, w, actor, now).value)
  {
  }

  /** Where a piece of work may be done and where it leads. */
  predicate MayDo(w: Work, state: CaseState) {
    match w
    case AssignToActor => state in {Open, Assigned, CaseState.CaseEscalated}
    case BeginReview => state == Assigned
    case EscalateFor(reason) => state in {Open, Assigned, InReview} && exists i :: 0 <= i < |reason| && !JsWhitespace(reason[i])
    case ReopenFor(reason) => state == Resolved && exists i :: 0 <= i < |reason| && !JsWhitespace(reason[i])
  }

  function LeadsTo(w: Work): CaseState {
    match w
    case AssignToActor => Assigned
    case BeginReview => InReview
    case EscalateFor(_) => CaseState.CaseEscalated
    case ReopenFor(_) => Open
  }

  function ActionOf(w: Work): Action {
    match w
    case AssignToActor => CaseAssigned
    case BeginReview => CaseReviewStarted
    case EscalateFor(_) => Action.CaseEscalated
    case ReopenFor(_) => CaseReopened
  }

  /**
   * Work is done exactly by a person, a lead on an escalated case, from the states it may
   * be done in; it moves the case, names its assignee or clears its resolution, and leaves
   * one row that names the case, its subject and who did it.
   */
  lemma WorkedIff(c: Case, w: Work, actor: Actor, now: int)
    ensures Worked(c, w, actor, now).Ok?
       <==> !actor.automated && (c.state == CaseState.CaseEscalated ==> actor.isLead) && MayDo(w, c.state)
    ensures Worked(c, w, actor, now) == Err(PermissionDenied)
       <==> actor.automated || (c.state == CaseState.CaseEscalated && !actor.isLead)
    ensures Worked(c, w, actor, now) == Err(ValidationFailed)
       <==> !actor.automated && (c.state == CaseState.CaseEscalated ==> actor.isLead)
            && match w
               case EscalateFor(reason) => c.state in {Open, Assigned, InReview} && Blank(reason)
               case ReopenFor(reason) => c.state == Resolved && Blank(reason)
               case _ => false
    ensures Worked(c, w, actor, now).Err? ==>
              Worked(c, w, actor, now).error in {PermissionDenied, ValidationFailed, InvalidTransition}
    ensures Worked(c, w, actor, now).Ok? ==>
              Worked(c, w, actor, now).value
              == c.(state := LeadsTo(w), updatedAt := now,
                    assignedModeratorId := if w.AssignToActor? then Some(actor.actorId) else c.assignedModeratorId,
                    resolutionDecisionId := if w.ReopenFor? then None else c.resolutionDecisionId)
    ensures WorkEntries(c, w, actor, now)
         == if Worked(c, w, actor, now).Err? then []
            else [NewEntry(now, Some(actor.actorId), ActionOf(w), CaseEntity, c.caseId, c.subjectId, Some(c.caseId),
                           if w.BeginReview? then c.evidenceIds else [], None)]
  {
  }

  // ------------------------------------------------------------------------------- merging --

  /** The inner loop: each id that is not there yet, in order. */
  function AddMissing(ids: seq<string>, more: seq<string>): seq<string> {
    if more == [] then ids
    else
      var before, last := AddMissing(ids, more[..|more| - 1]), more[|more| - 1];
      if last in before then before else before + [last]
  }

  lemma {:induction false} AddMissingIsUnion(ids: seq<string>, more: seq<string>)
    ensures ids <= AddMissing(ids, more)
    ensures ToSet(AddMissing(ids, more)) == ToSet(ids) + ToSet(more)
    ensures NoDup(ids) ==> NoDup(AddMissing(ids, more))
  {
    if more != [] {
      var rest, last := more[..|more| - 1], more[|more| - 1];
      AddMissingIsUnion(ids, rest);
      assert more == rest + [last];
      assert ToSet(more) == ToSet(rest) + {last};
      var before := AddMissing(ids, rest);
      assert last in before <==> last in ToSet(before);
      assert ToSet(AddMissing(ids, more)) == ToSet(before) + {last};
    }
  }

  datatype Folded = Folded(merged: seq<Report>, newIds: seq<string>, evidenceIds: seq<string>, reasons: seq<Reason>)

  function FoldStart(c: Case): Folded {
    Folded([], [], c.evidenceIds, OriginReasons(c.origin))
  }

  function MarkMerged(c: Case, r: Report, now: int): Report {
    r.(state := Merged, mergedCaseId := Some(c.caseId), updatedAt := now)
  }

  /** One report of the loop: skipped when this case has it already, refused when another has, folded in otherwise. */
  function FoldOne(c: Case, f: Folded, r: Report, clock: Clock): Result<Folded, Code> {
    if r.state == Merged then if r.mergedCaseId == Some(c.caseId) then Ok(f) else Err(Conflict)
    else
      var next := ReportNext(r.state, Merge, ReportContext(true, true, false));
      if next.Err? then Err(next.error)
      else Ok(Folded(
        f.merged + [MarkMerged(c, r, clock(|f.merged|))],
        if r.reportId in c.reportIds then f.newIds else f.newIds + [r.reportId],
        AddMissing(f.evidenceIds, r.evidenceIds),
        f.reasons + [r.reason]))
  }

  function Fold(c: Case, reports: seq<Report>, clock: Clock): Result<Folded, Code> {
    if reports == [] then Ok(FoldStart(c))
    else
      var before := Fold(c, reports[..|reports| - 1], clock);
      if before.Err? then before else FoldOne(c, before.value, reports[|reports| - 1], clock)
  }

  datatype MergeOutcome = MergeOutcome(moderationCase: Case, mergedReports: seq<Report>, mergedReportIds: seq<string>)

  function MergeRefusal(c: Case, reports: seq<Report>, actor: Actor): Option<Code> {
    if CanWork(c, actor).Err? then Some(PermissionDenied)
    else if c.state == Resolved then Some(Conflict)
    else if exists i :: 0 <= i < |reports| && reports[i].subjectId != c.subjectId then Some(Conflict)
    else None
  }

  function MergedCase(c: Case, f: Folded, now: int): Case {
    var priority := Highest(c.priority, Strongest(f.reasons));
    c.(priority := priority, dueAt := if Rank(priority) > Rank(c.priority) then DueFrom(c.openedAt, priority) else c.dueAt,
       reportIds := c.reportIds + f.newIds, evidenceIds := f.evidenceIds, updatedAt := now)
  }

  function MergeInto(c: Case, reports: seq<Report>, actor: Actor, clock: Clock): Result<MergeOutcome, Code> {
    var refused, folded := MergeRefusal(c, reports, actor), Fold(c, reports, clock);
    if refused.Some? then Err(refused.value)
    else if folded.Err? then Err(folded.error)
    else Ok(MergeOutcome(MergedCase(c, folded.value, clock(|folded.value.merged|)), folded.value.merged, folded.value.newIds))
  }

  function ReportEntry(c: Case, r: Report, actor: Actor): NewEntry {
    NewEntry(r.updatedAt, Some(actor.actorId), ReportMerged, ReportEntity, r.reportId, r.subjectId, Some(c.caseId), r.evidenceIds, None)
  }

  function ReportEntries(c: Case, reports: seq<Report>, actor: Actor): seq<NewEntry> {
    if reports == [] then []
    else ReportEntries(c, reports[..|reports| - 1], actor) + [ReportEntry(c, reports[|reports| - 1], actor)]
  }

  /** A refused merge writes nothing; an accepted one writes one row a report and one for the case. */
  function MergeEntries(c: Case, reports: seq<Report>, actor: Actor, clock: Clock): seq<NewEntry> {
    var r := MergeInto(c, reports, actor, clock);
    if r.Err? then []
    else
      ReportEntries(c, r.value.mergedReports, actor)
      + [CaseEntry(c, CaseReportsMerged, actor, [], r.value.moderationCase.updatedAt)]
  }

  method AddEvidence(ids: seq<string>, more: seq<string>) returns (r: seq<string>)
    ensures r == AddMissing(ids, more)
  {
    r := ids;
    for i := 0 to |more|
      invariant r == AddMissing(ids, more[..i])
    {
      assert more[..i + 1][..i] == more[..i];
      if more[i] !in r {
        r := r + [more[i]];
      }
    }
    assert more[..|more|] == more;
  }

  method AppendReports(audit: AuditLog, c: Case, reports: seq<Report>, actor: Actor)
    requires audit.Valid()
    modifies audit
    ensures audit.Valid() && audit.rows == Appended(old(audit.rows), ReportEntries(c, reports, actor))
  {
    for i := 0 to |reports|
      invariant audit.Valid() && audit.rows == Appended(old(audit.rows), ReportEntries(c, reports[..i], actor))
    {
      assert reports[..i + 1][..i] == reports[..i];
      AppendedTwice(old(audit.rows), ReportEntries(c, reports[..i], actor), [ReportEntry(c, reports[i], actor)]);
      var _ := audit.Append(ReportEntry(c, reports[i], actor));
    }
    assert reports[..|reports|] == reports;
  }

  method FoldAll(c: Case, reports: seq<Report>, clock: Clock) returns (r: Result<Folded, Code>)
    ensures r == Fold(c, reports, clock)
  {
    var merged, newIds, evidenceIds, reasons := [], [], c.evidenceIds, OriginReasons(c.origin);
    for i := 0 to |reports|
      invariant Fold(c, reports[..i], clock) == Ok(Folded(merged, newIds, evidenceIds, reasons))
    {
      var report := reports[i];
      assert reports[..i + 1][..i] == reports[..i];
      var step := FoldOne(c, Folded(merged, newIds, evidenceIds, reasons), report, clock);
      assert Fold(c, reports[..i + 1], clock) == step;
      if step.Err? { FailedFoldStaysFailed(c, reports, i + 1, clock); }
      if report.state == Merged {
        if report.mergedCaseId == Some(c.caseId) {
          continue;
        }
        return Err(Conflict);
      }
      var next := ReportNext(report.state, Merge, ReportContext(true, true, false));
      if next.Err? {
        return Err(next.error);
      }
      merged := merged + [MarkMerged(c, report, clock(|merged|))];
      if report.reportId !in c.reportIds {
        newIds := newIds + [report.reportId];
      }
      evidenceIds := AddEvidence(evidenceIds, report.evidenceIds);
      reasons := reasons + [report.reason];
    }
    assert reports[..|reports|] == reports;
    return Ok(Folded(merged, newIds, evidenceIds, reasons));
  }

  /** The loop stops at the first report it refuses, whatever follows. */
  lemma {:induction false} FailedFoldStaysFailed(c: Case, reports: seq<Report>, n: nat, clock: Clock)
    requires n <= |reports| && Fold(c, reports[..n], clock).Err?
    ensures Fold(c, reports, clock) == Fold(c, reports[..n], clock)
    decreases |reports|
  {
    if n < |reports| {
      assert reports[..|reports| - 1][..n] == reports[..n];
      FailedFoldStaysFailed(c, reports[..|reports| - 1], n, clock);
    } else {
      assert reports[..n] == reports;
    }
  }

  method MergeReports(audit: AuditLog, c: Case, reports: seq<Report>, actor: Actor, clock: Clock) returns (r: Result<MergeOutcome, Code>)
    requires audit.Valid()
    modifies audit
    ensures audit.Valid() && r == MergeInto(c, reports, actor, clock)
    ensures audit.rows == Appended(old(audit.rows), MergeEntries(c, reports, actor, clock))
  {
    if CanWork(c, actor).Err? { return Err(PermissionDenied); }
    if c.state == Resolved { return Err(Conflict); }
    if exists i :: 0 <= i < |reports| && reports[i].subjectId != c.subjectId { return Err(Conflict); }
    var folded := FoldAll(c, reports, clock);
    if folded.Err? { return Err(folded.error); }
    var f := folded.value;
    var now := clock(|f.merged|);
    AppendReports(audit, c, f.merged, actor);
    AppendedTwice(old(audit.rows), ReportEntries(c, f.merged, actor), [CaseEntry(c, CaseReportsMerged, actor, [], now)]);
    var _ := audit.Append(CaseEntry(c, CaseReportsMerged, actor, [], now));
    return Ok(MergeOutcome(MergedCase(c, f, now), f.merged, f.newIds));
  }
}
