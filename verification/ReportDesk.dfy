/**
 * Several cases over one table of reports. The commands of `case.ts`, `report.ts` and
 * `decision.ts` return new records; here the records they return replace the old ones.
 */
module ReportDesk {
  import opened Core
  import opened Transition
  import opened Moderation
  import opened CaseWork
  import opened CaseMerge
  import opened CaseRuns

  /** Cases in the order they were opened, and the reports by id. */
  datatype Office = Office(cases: seq<Case>, reports: map<string, Report>)

  datatype OfficeStep =
    | SubmitReport(report: Report)
    | MoveReport(reportId: string, event: ReportEvent, context: ReportContext, at: int)
    | OpenFrom(reportId: string, caseId: string, at: int)
    | OpenWithout(intake: Intake, caseId: string, evidenceId: string, at: int)
    | FoldReports(k: nat, reportIds: seq<string>, actor: Actor, clock: Clock)
    | WorkCase(k: nat, step: DeskStep)

  predicate OnRecord(o: Office, ids: seq<string>) {
    forall id :: id in ids ==> id in o.reports
  }

  function Records(o: Office, ids: seq<string>): seq<Report>
    requires OnRecord(o, ids)
  {
    seq(|ids|, i requires 0 <= i < |ids| => o.reports[ids[i]])
  }

  function Stored(table: map<string, Report>, reports: seq<Report>): map<string, Report> {
    if reports == [] then table
    else Stored(table, reports[..|reports| - 1])[reports[|reports| - 1].reportId := reports[|reports| - 1]]
  }

  /** The opening of a case from a report, which returns no report: the one on record stays as it was. */
  function OpeningFrom(o: Office, step: OfficeStep): Result<Case, Code>
    requires step.OpenFrom? && step.reportId in o.reports
  {
    OpenCase(FromReport(o.reports[step.reportId]), step.caseId, "", step.at)
  }

  function MergeOf(o: Office, step: OfficeStep): Result<MergeOutcome, Code>
    requires step.FoldReports? && step.k < |o.cases| && OnRecord(o, step.reportIds)
  {
    MergeInto(o.cases[step.k], Records(o, step.reportIds), step.actor, step.clock)
  }

  /** A refused command, or one about records that do not exist, changes nothing. */
  function Step(o: Office, step: OfficeStep): Office {
    match step
    case SubmitReport(r) =>
      if r.reportId in o.reports || r.state != Submitted then o else o.(reports := o.reports[r.reportId := r])
    case MoveReport(id, event, context, at) =>
      if id !in o.reports || event == Merge || ReportNext(o.reports[id].state, event, context).Err? then o
      else o.(reports := o.reports[id := o.reports[id].(state := ReportNext(o.reports[id].state, event, context).value, updatedAt := at)])
    case OpenFrom(id, _, _) =>
      if id in o.reports && OpeningFrom(o, step).Ok? then o.(cases := o.cases + [OpeningFrom(o, step).value]) else o
    case OpenWithout(intake, caseId, evidenceId, at) =>
      var r := OpenCase(intake, caseId, evidenceId, at);
      if !intake.FromReport? && r.Ok? then o.(cases := o.cases + [r.value]) else o
    case FoldReports(k, ids, _, _) =>
      if k < |o.cases| && OnRecord(o, ids) && MergeOf(o, step).Ok?
      then Office(o.cases[k := MergeOf(o, step).value.moderationCase], Stored(o.reports, MergeOf(o, step).value.mergedReports))
      else o
    case WorkCase(k, work) =>
      if k < |o.cases| && !work.FoldIn? && CaseAfter(o.cases[k], work).Ok?
      then o.(cases := o.cases[k := CaseAfter(o.cases[k], work).value]) else o
  }

  function RunOffice(o: Office, steps: seq<OfficeStep>): Office
    decreases |steps|
  {
    if steps == [] then o else RunOffice(Step(o, steps[0]), steps[1..])
  }

  // ------------------------------------------------- when each report is in one case --

  predicate Lists(c: Case, id: string) {
    id in c.reportIds
  }

  ghost predicate ListedOnce(cases: seq<Case>) {
    forall i, j, id :: 0 <= i < j < |cases| ==> !(Lists(cases[i], id) && Lists(cases[j], id))
  }

  predicate NoneLists(cases: seq<Case>, id: string) {
    forall j :: 0 <= j < |cases| ==> !Lists(cases[j], id)
  }

  predicate NoOtherLists(cases: seq<Case>, k: nat, id: string) {
    forall j :: 0 <= j < |cases| && j != k ==> !Lists(cases[j], id)
  }

  /** What the commands never ask: that no other case lists a report they put into one. */
  predicate Unshared(o: Office, step: OfficeStep) {
    match step
    case OpenFrom(id, _, _) => id in o.reports && OpeningFrom(o, step).Ok? ==> NoneLists(o.cases, id)
    case FoldReports(k, ids, _, _) =>
      k < |o.cases| && OnRecord(o, ids) && MergeOf(o, step).Ok? ==>
        forall i :: 0 <= i < |ids| && o.reports[ids[i]].state != Merged ==> NoOtherLists(o.cases, k, ids[i])
    case _ => true
  }

  predicate UnsharedRun(o: Office, steps: seq<OfficeStep>)
    decreases |steps|
  {
    steps == [] || (Unshared(o, steps[0]) && UnsharedRun(Step(o, steps[0]), steps[1..]))
  }

  /** The table is keyed by report id. */
  predicate Keyed(o: Office) {
    forall id :: id in o.reports ==> o.reports[id].reportId == id
  }

  lemma {:induction false} StoredIs(table: map<string, Report>, reports: seq<Report>, id: string)
    ensures id in Stored(table, reports) <==> id in table || exists i :: 0 <= i < |reports| && reports[i].reportId == id
    ensures id in Stored(table, reports) ==>
              (id in table && Stored(table, reports)[id] == table[id])
              || exists i :: 0 <= i < |reports| && reports[i].reportId == id && Stored(table, reports)[id] == reports[i]
    ensures (forall i :: 0 <= i < |reports| ==> reports[i].reportId != id) && id in table ==> Stored(table, reports)[id] == table[id]
  {
    if reports != [] {
      var n := |reports| - 1;
      StoredIs(table, reports[..n], id);
      assert forall i :: 0 <= i < n ==> reports[..n][i] == reports[i];
    }
  }

  /** What an accepted merge lists: what the case listed, and the reports that were not merged yet. */
  lemma MergeLists(o: Office, step: OfficeStep, id: string)
    requires Keyed(o) && step.FoldReports? && step.k < |o.cases| && OnRecord(o, step.reportIds) && MergeOf(o, step).Ok?
    ensures Lists(MergeOf(o, step).value.moderationCase, id)
       <==> Lists(o.cases[step.k], id) || (id in step.reportIds && o.reports[id].state != Merged)
  {
    var c, reports := o.cases[step.k], Records(o, step.reportIds);
    var f := CaseWork.Fold(c, reports, step.clock).value;
    FoldKeeps(c, reports, step.clock);
    assert id in c.reportIds + f.newIds <==> id in ToSet(c.reportIds) || id in ToSet(f.newIds);
    if id in IdsOf(Fresh(reports)) {
      var r :| r in Fresh(reports) && r.reportId == id;
      FreshIff(reports, r);
    }
    if id in step.reportIds && o.reports[id].state != Merged {
      var i :| 0 <= i < |step.reportIds| && step.reportIds[i] == id;
      assert reports[i] == o.reports[id];
      FreshIff(reports, o.reports[id]);
    }
  }

  /** One case lists more: no report is shared exactly when no other case lists what was added. */
  lemma ListingMoreIff(cases: seq<Case>, k: nat, after: Case, added: set<string>)
    requires k < |cases| && ListedOnce(cases)
    requires forall id :: Lists(after, id) <==> Lists(cases[k], id) || id in added
    ensures ListedOnce(cases[k := after]) <==> forall id :: id in added ==> NoOtherLists(cases, k, id)
  {
    var next := cases[k := after];
    if ListedOnce(next) {
      forall id, j | id in added && 0 <= j < |cases| && j != k ensures !Lists(cases[j], id) {
        assert Lists(next[k], id) && next[j] == cases[j];
      }
    }
  }

  lemma OneMoreCaseIff(cases: seq<Case>, c: Case)
    requires ListedOnce(cases)
    ensures ListedOnce(cases + [c]) <==> forall id :: Lists(c, id) ==> NoneLists(cases, id)
  {
    var next := cases + [c];
    assert next[|cases|] == c && forall i :: 0 <= i < |cases| ==> next[i] == cases[i];
    if ListedOnce(next) {
      forall id, j | Lists(c, id) && 0 <= j < |cases| ensures !Lists(cases[j], id) {
        assert Lists(next[|cases|], id) && next[j] == cases[j];
      }
    }
  }

  lemma MergeSharesIff(o: Office, step: OfficeStep)
    requires Keyed(o) && ListedOnce(o.cases)
    requires step.FoldReports? && step.k < |o.cases| && OnRecord(o, step.reportIds) && MergeOf(o, step).Ok?
    ensures ListedOnce(Step(o, step).cases) <==> Unshared(o, step)
  {
    var ids := step.reportIds;
    var added := set id | id in ids && o.reports[id].state != Merged;
    forall id ensures Lists(MergeOf(o, step).value.moderationCase, id) <==> Lists(o.cases[step.k], id) || id in added {
      MergeLists(o, step, id);
    }
    ListingMoreIff(o.cases, step.k, MergeOf(o, step).value.moderationCase, added);
    assert forall i :: 0 <= i < |ids| ==> ids[i] in ids;
  }

  /** A step leaves each report in at most one case exactly when it puts in none that another case lists. */
  lemma StepListsOnceIff(o: Office, step: OfficeStep)
    requires Keyed(o) && ListedOnce(o.cases)
    ensures ListedOnce(Step(o, step).cases) <==> Unshared(o, step)
  {
    match step
    case OpenFrom(id, _, _) =>
      if id in o.reports && OpeningFrom(o, step).Ok? {
        OneMoreCaseIff(o.cases, OpeningFrom(o, step).value);
        assert Lists(OpeningFrom(o, step).value, id);
      }
    case OpenWithout(intake, caseId, evidenceId, at) =>
      if !intake.FromReport? && OpenCase(intake, caseId, evidenceId, at).Ok? {
        OneMoreCaseIff(o.cases, OpenCase(intake, caseId, evidenceId, at).value);
      }
    case FoldReports(k, ids, _, _) =>
      if k < |o.cases| && OnRecord(o, ids) && MergeOf(o, step).Ok? { MergeSharesIff(o, step); }
    case WorkCase(k, work) =>
      if k < |o.cases| && !work.FoldIn? && CaseAfter(o.cases[k], work).Ok? {
        ListingMoreIff(o.cases, k, CaseAfter(o.cases[k], work).value, {});
      }
    case _ =>
  }

  lemma {:induction false} MergedKeepTheirIds(c: Case, reports: seq<Report>, actor: Actor, clock: Clock)
    requires MergeInto(c, reports, actor, clock).Ok?
    ensures var merged := MergeInto(c, reports, actor, clock).value.mergedReports;
            |merged| == |Fresh(reports)|
            && forall i :: 0 <= i < |merged| ==> merged[i] == MarkMerged(c, Fresh(reports)[i], clock(i))
                                                 && Fresh(reports)[i] in reports && Fresh(reports)[i].state != Merged
  {
    FoldKeeps(c, reports, clock);
    forall i | 0 <= i < |Fresh(reports)| ensures Fresh(reports)[i] in reports && Fresh(reports)[i].state != Merged {
      FreshIff(reports, Fresh(reports)[i]);
    }
  }

  lemma StepKeepsKeyed(o: Office, step: OfficeStep)
    requires Keyed(o)
    ensures Keyed(Step(o, step))
  {
    if step.FoldReports? && step.k < |o.cases| && OnRecord(o, step.reportIds) && MergeOf(o, step).Ok? {
      var merged := MergeOf(o, step).value.mergedReports;
      forall id | id in Stored(o.reports, merged) ensures Stored(o.reports, merged)[id].reportId == id {
        StoredIs(o.reports, merged, id);
      }
    }
  }

  lemma ListsOnlyGrow(o: Office, step: OfficeStep)
    ensures |o.cases| <= |Step(o, step).cases|
    ensures forall k, id :: 0 <= k < |o.cases| && Lists(o.cases[k], id) ==> Lists(Step(o, step).cases[k], id)
    ensures forall k :: 0 <= k < |o.cases| ==> Step(o, step).cases[k].caseId == o.cases[k].caseId
  {
  }

  lemma {:induction false} SharedStaysShared(o: Office, steps: seq<OfficeStep>)
    requires !ListedOnce(o.cases)
    ensures !ListedOnce(RunOffice(o, steps).cases)
    decreases |steps|
  {
    if steps != [] {
      ListsOnlyGrow(o, steps[0]);
      var i, j, id :| 0 <= i < j < |o.cases| && Lists(o.cases[i], id) && Lists(o.cases[j], id);
      assert Lists(Step(o, steps[0]).cases[i], id) && Lists(Step(o, steps[0]).cases[j], id);
      SharedStaysShared(Step(o, steps[0]), steps[1..]);
    }
  }

  /**
   * Over every run each report is listed by at most one case exactly when no opening
   * and no merge ever put in a report that another case listed.
   */
  lemma {:induction false} RunListsOnceIff(o: Office, steps: seq<OfficeStep>)
    requires Keyed(o) && ListedOnce(o.cases)
    ensures ListedOnce(RunOffice(o, steps).cases) <==> UnsharedRun(o, steps)
    decreases |steps|
  {
    if steps != [] {
      StepListsOnceIff(o, steps[0]);
      StepKeepsKeyed(o, steps[0]);
      if Unshared(o, steps[0]) {
        RunListsOnceIff(Step(o, steps[0]), steps[1..]);
      } else {
        SharedStaysShared(Step(o, steps[0]), steps[1..]);
      }
    }
  }

  /** What gets shared: a report that some case lists and that is still `triaged`. */
  lemma SharedReportsAreTriaged(o: Office, step: OfficeStep)
    requires !Unshared(o, step)
    ensures exists k, id :: 0 <= k < |o.cases| && Lists(o.cases[k], id) && id in o.reports && o.reports[id].state == Triaged
  {
    match step
    case OpenFrom(id, _, _) =>
      var j :| 0 <= j < |o.cases| && Lists(o.cases[j], id);
    case FoldReports(k, ids, actor, clock) =>
      MergesIff(o.cases[k], Records(o, ids), actor, clock);
      var i :| 0 <= i < |ids| && o.reports[ids[i]].state != Merged && !NoOtherLists(o.cases, k, ids[i]);
      var j :| 0 <= j < |o.cases| && j != k && Lists(o.cases[j], ids[i]);
      assert Foldable(o.cases[k], Records(o, ids)[i]);
    case _ =>
  }

  /** Opening a case leaves its report triaged, so the same report opens the next one. */
  lemma TriagedReportOpensTwoCases(o: Office, id: string, first: string, second: string, at: int, later: int)
    requires Keyed(o) && id in o.reports && o.reports[id].state == Triaged && o.reports[id].evidenceIds != []
    ensures var twice := Step(Step(o, OpenFrom(id, first, at)), OpenFrom(id, second, later)).cases;
            |twice| == |o.cases| + 2 && twice[|o.cases|].caseId == first && twice[|o.cases| + 1].caseId == second
            && !ListedOnce(twice)
  {
    var twice := Step(Step(o, OpenFrom(id, first, at)), OpenFrom(id, second, later)).cases;
    assert Lists(twice[|o.cases|], id) && Lists(twice[|o.cases| + 1], id);
  }

  /** Or goes into an open case about the same person. */
  lemma OpenedReportMergesElsewhere(o: Office, id: string, caseId: string, at: int, k: nat, actor: Actor, clock: Clock)
    requires Keyed(o) && id in o.reports && o.reports[id].state == Triaged && o.reports[id].evidenceIds != []
    requires k < |o.cases| && o.cases[k].state == CaseState.Open && o.cases[k].subjectId == o.reports[id].subjectId && !actor.automated
    ensures !ListedOnce(Step(Step(o, OpenFrom(id, caseId, at)), FoldReports(k, [id], actor, clock)).cases)
  {
    var once, fold := Step(o, OpenFrom(id, caseId, at)), FoldReports(k, [id], actor, clock);
    assert once.reports == o.reports && once.cases[k] == o.cases[k] && OnRecord(once, [id]);
    MergesIff(once.cases[k], Records(once, [id]), actor, clock);
    MergeLists(once, fold, id);
    assert Lists(once.cases[|o.cases|], id);
    assert Lists(Step(once, fold).cases[k], id) && Lists(Step(once, fold).cases[|o.cases|], id);
  }

  // ---------------------------------------------------------- merged reports stay put --

  predicate ListedBy(cases: seq<Case>, caseId: Option<string>, id: string) {
    exists k :: 0 <= k < |cases| && Some(cases[k].caseId) == caseId && Lists(cases[k], id)
  }

  /** Every merged report names a case that lists it. */
  predicate MergedAreListed(o: Office) {
    forall id :: id in o.reports && o.reports[id].state == Merged ==> ListedBy(o.cases, o.reports[id].mergedCaseId, id)
  }

  lemma ListedByGrows(o: Office, step: OfficeStep, caseId: Option<string>, id: string)
    requires ListedBy(o.cases, caseId, id)
    ensures ListedBy(Step(o, step).cases, caseId, id)
  {
    ListsOnlyGrow(o, step);
    var k :| 0 <= k < |o.cases| && Some(o.cases[k].caseId) == caseId && Lists(o.cases[k], id);
    assert Lists(Step(o, step).cases[k], id);
  }

  /** What a merge writes to the table: its own fresh reports, each marked with its case. */
  lemma MergeWrites(o: Office, step: OfficeStep, id: string)
    requires Keyed(o) && step.FoldReports? && step.k < |o.cases| && OnRecord(o, step.reportIds) && MergeOf(o, step).Ok?
    requires id in o.reports
    ensures var table := Stored(o.reports, MergeOf(o, step).value.mergedReports);
            id in table
            && (table[id] == o.reports[id]
                || (o.reports[id].state != Merged && id in step.reportIds && table[id].mergedCaseId == Some(o.cases[step.k].caseId)))
  {
    var merged, records := MergeOf(o, step).value.mergedReports, Records(o, step.reportIds);
    MergedKeepTheirIds(o.cases[step.k], records, step.actor, step.clock);
    StoredIs(o.reports, merged, id);
    if i :| 0 <= i < |merged| && merged[i].reportId == id {
      var j :| 0 <= j < |records| && records[j] == Fresh(records)[i];
      assert step.reportIds[j] == id && o.reports[id] == Fresh(records)[i];
    }
  }

  lemma MergedIsListed(o: Office, step: OfficeStep, id: string)
    requires Keyed(o) && MergedAreListed(o)
    requires step.FoldReports? && step.k < |o.cases| && OnRecord(o, step.reportIds) && MergeOf(o, step).Ok?
    requires id in o.reports && id in Step(o, step).reports && Step(o, step).reports[id].state == Merged
    ensures ListedBy(Step(o, step).cases, Step(o, step).reports[id].mergedCaseId, id)
  {
    MergeWrites(o, step, id);
    if Step(o, step).reports[id] == o.reports[id] {
      ListedByGrows(o, step, o.reports[id].mergedCaseId, id);
    } else {
      MergeLists(o, step, id);
      ListsOnlyGrow(o, step);
      assert Lists(Step(o, step).cases[step.k], id);
    }
  }

  lemma MergeKeepsTheTable(o: Office, step: OfficeStep)
    requires Keyed(o) && step.FoldReports? && step.k < |o.cases| && OnRecord(o, step.reportIds) && MergeOf(o, step).Ok?
    ensures Step(o, step).reports.Keys == o.reports.Keys
  {
    var merged := MergeOf(o, step).value.mergedReports;
    MergedKeepTheirIds(o.cases[step.k], Records(o, step.reportIds), step.actor, step.clock);
    assert forall i :: 0 <= i < |merged| ==> merged[i].reportId in o.reports;
    StoringKeepsKeys(o.reports, merged);
  }

  lemma StoringKeepsKeys(table: map<string, Report>, reports: seq<Report>)
    requires forall i :: 0 <= i < |reports| ==> reports[i].reportId in table
    ensures Stored(table, reports).Keys == table.Keys
  {
    forall id ensures id in Stored(table, reports) <==> id in table {
      StoredIs(table, reports, id);
    }
  }

  lemma StepKeepsMerged(o: Office, step: OfficeStep)
    requires Keyed(o) && MergedAreListed(o)
    ensures MergedAreListed(Step(o, step))
    ensures forall id :: id in o.reports && o.reports[id].state == Merged ==>
              id in Step(o, step).reports && Step(o, step).reports[id] == o.reports[id]
  {
    var after := Step(o, step);
    forall id | id in after.reports && after.reports[id].state == Merged
      ensures ListedBy(after.cases, after.reports[id].mergedCaseId, id)
    {
      if step.FoldReports? && step.k < |o.cases| && OnRecord(o, step.reportIds) && MergeOf(o, step).Ok? {
        MergeKeepsTheTable(o, step);
        MergedIsListed(o, step, id);
      } else {
        ListedByGrows(o, step, o.reports[id].mergedCaseId, id);
      }
    }
    forall id | id in o.reports && o.reports[id].state == Merged
      ensures id in after.reports && after.reports[id] == o.reports[id]
    {
      if step.FoldReports? && step.k < |o.cases| && OnRecord(o, step.reportIds) && MergeOf(o, step).Ok? {
        MergeWrites(o, step, id);
      }
    }
  }

  /**
   * Over every run, whatever else is shared: a merged report is never touched again, and
   * the case it was merged into goes on listing it.
   */
  lemma {:induction false} MergedStayWhereTheyAre(o: Office, steps: seq<OfficeStep>, id: string)
    requires Keyed(o) && MergedAreListed(o)
    ensures Keyed(RunOffice(o, steps)) && MergedAreListed(RunOffice(o, steps))
    ensures id in o.reports && o.reports[id].state == Merged ==>
              id in RunOffice(o, steps).reports && RunOffice(o, steps).reports[id] == o.reports[id]
    decreases |steps|
  {
    if steps != [] {
      StepKeepsKeyed(o, steps[0]);
      StepKeepsMerged(o, steps[0]);
      MergedStayWhereTheyAre(Step(o, steps[0]), steps[1..], id);
    }
  }
}
