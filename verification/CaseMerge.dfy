/** What a merge does to a case and to the reports folded into it. */
module CaseMerge {
  import opened Core
  import opened Transition
  import opened Audit
  import opened Moderation
  import opened CaseWork

  // ------------------------------------------------------------- when a merge is accepted --

  predicate Foldable(c: Case, r: Report) {
    r.state == Triaged || (r.state == Merged && r.mergedCaseId == Some(c.caseId))
  }

  lemma FoldsOneIff(c: Case, f: Folded, r: Report, clock: Clock)
    ensures FoldOne(c, f, r, clock).Ok? <==> Foldable(c, r)
  {
  }

  lemma {:induction false} FoldsIff(c: Case, reports: seq<Report>, clock: Clock)
    ensures Fold(c, reports, clock).Ok? <==> forall i :: 0 <= i < |reports| ==> Foldable(c, reports[i])
  {
    if reports != [] {
      var n := |reports| - 1;
      FoldsIff(c, reports[..n], clock);
      if Fold(c, reports[..n], clock).Ok? {
        FoldsOneIff(c, Fold(c, reports[..n], clock).value, reports[n], clock);
      } else {
        var i :| 0 <= i < n && !Foldable(c, reports[..n][i]);
        assert !Foldable(c, reports[i]);
      }
    }
  }

  /**
   * Exactly when a merge is accepted: a human who may work this case, an unresolved
   * case, and reports about the same person that are each triaged or already here.
   */
  lemma MergesIff(c: Case, reports: seq<Report>, actor: Actor, clock: Clock)
    ensures MergeInto(c, reports, actor, clock).Ok?
       <==> !actor.automated && (c.state == CaseState.CaseEscalated ==> actor.isLead) && c.state != Resolved
            && forall i :: 0 <= i < |reports| ==> reports[i].subjectId == c.subjectId && Foldable(c, reports[i])
  {
    FoldsIff(c, reports, clock);
  }

  lemma {:induction false} FoldStops(c: Case, reports: seq<Report>, clock: Clock)
    requires Fold(c, reports, clock).Err?
    ensures exists i :: 0 <= i < |reports| && !Foldable(c, reports[i])
                        && Fold(c, reports, clock).error == (if reports[i].state == Merged then Conflict else InvalidTransition)
                        && forall j :: 0 <= j < i ==> Foldable(c, reports[j])
  {
    var n := |reports| - 1;
    var rest := reports[..n];
    if Fold(c, rest, clock).Err? {
      FoldStops(c, rest, clock);
      var i :| 0 <= i < |rest| && !Foldable(c, rest[i])
               && Fold(c, rest, clock).error == (if rest[i].state == Merged then Conflict else InvalidTransition)
               && forall j :: 0 <= j < i ==> Foldable(c, rest[j]);
      assert reports[i] == rest[i];
      assert forall j :: 0 <= j < i ==> reports[j] == rest[j];
    } else {
      FoldsIff(c, rest, clock);
      assert forall j :: 0 <= j < n ==> reports[j] == rest[j];
      assert !Foldable(c, reports[n]);
    }
  }

  /** Why a merge is refused: by whom, into what, and then by the first report that stands elsewhere. */
  lemma MergeRefusalIs(c: Case, reports: seq<Report>, actor: Actor, clock: Clock)
    requires MergeInto(c, reports, actor, clock).Err?
    ensures
      var e := MergeInto(c, reports, actor, clock).error;
      if actor.automated || (c.state == CaseState.CaseEscalated && !actor.isLead) then e == PermissionDenied
      else if c.state == Resolved || exists i :: 0 <= i < |reports| && reports[i].subjectId != c.subjectId then e == Conflict
      else
        exists i :: 0 <= i < |reports| && !Foldable(c, reports[i])
                    && e == (if reports[i].state == Merged then Conflict else InvalidTransition)
                    && forall j :: 0 <= j < i ==> Foldable(c, reports[j])
  {
    if Fold(c, reports, clock).Err? { FoldStops(c, reports, clock); }
  }

  // ---------------------------------------------------------------- what a merge does --

  /** The reports a merge moves: those not already merged. */
  function Fresh(reports: seq<Report>): seq<Report> {
    if reports == [] then []
    else
      var n := |reports| - 1;
      Fresh(reports[..n]) + if reports[n].state == Merged then [] else [reports[n]]
  }

  lemma {:induction false} FreshIff(reports: seq<Report>, r: Report)
    ensures r in Fresh(reports) <==> r in reports && r.state != Merged
  {
    if reports != [] {
      var n := |reports| - 1;
      FreshIff(reports[..n], r);
      assert reports == reports[..n] + [reports[n]];
    }
  }

  function EvidenceOf(reports: seq<Report>): set<string> {
    set r, id | r in reports && id in r.evidenceIds :: id
  }

  function IdsOf(reports: seq<Report>): set<string> {
    set r | r in reports :: r.reportId
  }

  function ReasonsOf(reports: seq<Report>): seq<Reason> {
    seq(|reports|, i requires 0 <= i < |reports| => reports[i].reason)
  }

  function MarkAll(c: Case, reports: seq<Report>, clock: Clock): seq<Report> {
    seq(|reports|, i requires 0 <= i < |reports| => MarkMerged(c, reports[i], clock(i)))
  }

  lemma AppendReport(c: Case, reports: seq<Report>, r: Report, clock: Clock)
    ensures EvidenceOf(reports + [r]) == EvidenceOf(reports) + ToSet(r.evidenceIds)
    ensures IdsOf(reports + [r]) == IdsOf(reports) + {r.reportId}
    ensures ReasonsOf(reports + [r]) == ReasonsOf(reports) + [r.reason]
    ensures MarkAll(c, reports + [r], clock) == MarkAll(c, reports, clock) + [MarkMerged(c, r, clock(|reports|))]
  {
    assert r in reports + [r];
  }

  ghost predicate ListsInv(c: Case, f: Folded, moved: seq<Report>, clock: Clock) {
    f.merged == MarkAll(c, moved, clock) && f.reasons == OriginReasons(c.origin) + ReasonsOf(moved)
    && ToSet(f.newIds) == IdsOf(moved) - ToSet(c.reportIds)
  }

  ghost predicate EvidenceInv(c: Case, f: Folded, moved: seq<Report>) {
    c.evidenceIds <= f.evidenceIds && ToSet(f.evidenceIds) == ToSet(c.evidenceIds) + EvidenceOf(moved)
    && (NoDup(c.evidenceIds) <==> NoDup(f.evidenceIds))
  }

  /** The priority a case needs for its own reasons and those of the reports folded in. */
  ghost predicate StrongestOf(p: Priority, c: Case, reports: seq<Report>) {
    Rank(c.priority) <= Rank(p) && (forall r :: r in reports ==> Rank(PriorityFor(r.reason)) <= Rank(p))
    && (p == c.priority || exists r :: r in reports && PriorityFor(r.reason) == p)
  }

  ghost predicate FoldInv(c: Case, f: Folded, reports: seq<Report>, clock: Clock) {
    ListsInv(c, f, Fresh(reports), clock) && EvidenceInv(c, f, Fresh(reports))
  }

  lemma ListsGrow(c: Case, f: Folded, moved: seq<Report>, r: Report, clock: Clock)
    requires ListsInv(c, f, moved, clock) && r.state != Merged && FoldOne(c, f, r, clock).Ok?
    ensures ListsInv(c, FoldOne(c, f, r, clock).value, moved + [r], clock)
  {
    AppendReport(c, moved, r, clock);
    var next := FoldOne(c, f, r, clock).value;
    assert ToSet(next.newIds) == ToSet(f.newIds) + if r.reportId in c.reportIds then {} else {r.reportId};
    assert r.reportId in c.reportIds <==> r.reportId in ToSet(c.reportIds);
  }

  lemma EvidenceGrows(c: Case, f: Folded, moved: seq<Report>, r: Report, clock: Clock)
    requires EvidenceInv(c, f, moved) && r.state != Merged && FoldOne(c, f, r, clock).Ok?
    ensures EvidenceInv(c, FoldOne(c, f, r, clock).value, moved + [r])
  {
    AppendReport(c, moved, r, clock);
    AddMissingIsUnion(f.evidenceIds, r.evidenceIds);
  }

  lemma FoldOneKeeps(c: Case, f: Folded, reports: seq<Report>, r: Report, clock: Clock)
    requires FoldInv(c, f, reports, clock) && FoldOne(c, f, r, clock).Ok?
    ensures FoldInv(c, FoldOne(c, f, r, clock).value, reports + [r], clock)
  {
    assert (reports + [r])[..|reports|] == reports;
    if r.state == Merged {
      assert Fresh(reports + [r]) == Fresh(reports);
    } else {
      assert Fresh(reports + [r]) == Fresh(reports) + [r];
      ListsGrow(c, f, Fresh(reports), r, clock);
      EvidenceGrows(c, f, Fresh(reports), r, clock);
    }
  }

  lemma {:induction false} FoldKeeps(c: Case, reports: seq<Report>, clock: Clock)
    requires Fold(c, reports, clock).Ok?
    ensures FoldInv(c, Fold(c, reports, clock).value, reports, clock)
  {
    if reports != [] {
      var n := |reports| - 1;
      FoldKeeps(c, reports[..n], clock);
      FoldOneKeeps(c, Fold(c, reports[..n], clock).value, reports[..n], reports[n], clock);
      assert reports == reports[..n] + [reports[n]];
    }
  }

  lemma {:induction false} StrongestConcat(a: seq<Reason>, b: seq<Reason>)
    ensures Strongest(a + b) == Highest(Strongest(a), Strongest(b))
  {
    if b == [] {
      assert a + b == a;
    } else {
      assert (a + b)[..|a + b| - 1] == a + b[..|b| - 1];
      StrongestConcat(a, b[..|b| - 1]);
    }
  }

  lemma StrongestOfReports(reports: seq<Report>)
    ensures forall r :: r in reports ==> Rank(PriorityFor(r.reason)) <= Rank(Strongest(ReasonsOf(reports)))
    ensures var p := Strongest(ReasonsOf(reports)); p == Low || exists r :: r in reports && PriorityFor(r.reason) == p
  {
    var reasons := ReasonsOf(reports);
    StrongestIsGreatest(reasons);
    forall r | r in reports ensures Rank(PriorityFor(r.reason)) <= Rank(Strongest(reasons)) {
      var i :| 0 <= i < |reports| && reports[i] == r;
      assert reasons[i] == r.reason;
    }
    if Strongest(reasons) != Low {
      var i :| 0 <= i < |reasons| && PriorityFor(reasons[i]) == Strongest(reasons);
      assert reports[i] in reports;
    }
  }

  lemma {:induction false} StrongestOfReasons(c: Case, f: Folded, reports: seq<Report>, clock: Clock)
    requires CaseInv(c) && FoldInv(c, f, reports, clock)
    ensures StrongestOf(Highest(c.priority, Strongest(f.reasons)), c, Fresh(reports))
    ensures Rank(Strongest(OriginReasons(c.origin))) <= Rank(Highest(c.priority, Strongest(f.reasons)))
  {
    StrongestConcat(OriginReasons(c.origin), ReasonsOf(Fresh(reports)));
    StrongestOfReports(Fresh(reports));
  }

  /**
   * No report is lost and nothing is read twice: every report not yet merged is now
   * merged into this case and listed by it, at the clock's next reading each, the
   * evidence is the union without a new repetition, and the priority is the strongest
   * of the case's and the reports'.
   */
  lemma {:induction false} MergeCollects(c: Case, reports: seq<Report>, actor: Actor, clock: Clock)
    requires CaseInv(c) && MergeInto(c, reports, actor, clock).Ok?
    ensures var out := MergeInto(c, reports, actor, clock).value;
            out.mergedReports == MarkAll(c, Fresh(reports), clock)
            && ToSet(out.moderationCase.reportIds) == ToSet(c.reportIds) + IdsOf(Fresh(reports))
            && ToSet(out.moderationCase.evidenceIds) == ToSet(c.evidenceIds) + EvidenceOf(Fresh(reports))
            && (NoDup(out.moderationCase.evidenceIds) <==> NoDup(c.evidenceIds))
            && StrongestOf(out.moderationCase.priority, c, Fresh(reports))
            && out.moderationCase == c.(priority := out.moderationCase.priority, dueAt := out.moderationCase.dueAt,
                                        reportIds := out.moderationCase.reportIds, evidenceIds := out.moderationCase.evidenceIds,
                                        updatedAt := clock(|Fresh(reports)|))
  {
    var f := Fold(c, reports, clock).value;
    FoldKeeps(c, reports, clock);
    StrongestOfReasons(c, f, reports, clock);
    assert ToSet(c.reportIds + f.newIds) == ToSet(c.reportIds) + ToSet(f.newIds);
  }

  /** A merge keeps a case sound and only grows it. */
  lemma MergeKeepsCase(c: Case, reports: seq<Report>, actor: Actor, clock: Clock)
    requires CaseInv(c) && MergeInto(c, reports, actor, clock).Ok?
    ensures var out := MergeInto(c, reports, actor, clock).value;
            CaseInv(out.moderationCase) && Grows(c, out.moderationCase) && out.moderationCase.state == c.state
            && (NoDup(out.moderationCase.evidenceIds) <==> NoDup(c.evidenceIds))
  {
    var f := Fold(c, reports, clock).value;
    FoldKeeps(c, reports, clock);
    StrongestOfReasons(c, f, reports, clock);
    StrongerIsDueSooner(c.openedAt, c.priority, MergedCase(c, f, clock(|f.merged|)).priority);
  }

  lemma {:induction false} ReportRowsAre(c: Case, reports: seq<Report>, actor: Actor)
    ensures |ReportEntries(c, reports, actor)| == |reports|
    ensures forall i :: 0 <= i < |reports| ==>
              ReportEntries(c, reports, actor)[i]
              == NewEntry(reports[i].updatedAt, Some(actor.actorId), ReportMerged, ReportEntity, reports[i].reportId, reports[i].subjectId,
                          Some(c.caseId), reports[i].evidenceIds, None)
  {
    if reports != [] { ReportRowsAre(c, reports[..|reports| - 1], actor); }
  }

  /** A merge leaves one row for each report it moved, in order, and one for the case. */
  lemma {:induction false} MergeRowsAre(c: Case, reports: seq<Report>, actor: Actor, clock: Clock)
    requires MergeInto(c, reports, actor, clock).Ok?
    ensures
      var moved, rows := Fresh(reports), MergeEntries(c, reports, actor, clock);
      |rows| == |moved| + 1
      && (forall i :: 0 <= i < |moved| ==>
            rows[i] == NewEntry(clock(i), Some(actor.actorId), ReportMerged, ReportEntity, moved[i].reportId, c.subjectId,
                                Some(c.caseId), moved[i].evidenceIds, None))
      && rows[|moved|] == NewEntry(clock(|moved|), Some(actor.actorId), CaseReportsMerged, CaseEntity, c.caseId, c.subjectId,
                                   Some(c.caseId), [], None)
  {
    var moved := Fresh(reports);
    FoldKeeps(c, reports, clock);
    ReportRowsAre(c, MergeInto(c, reports, actor, clock).value.mergedReports, actor);
    forall i | 0 <= i < |moved| ensures moved[i].subjectId == c.subjectId {
      FreshIff(reports, moved[i]);
    }
  }

  // ------------------------------------------------------------------ retried merges --

  lemma {:induction false} ReplayFoldsNothing(c: Case, reports: seq<Report>, clock: Clock)
    requires forall i :: 0 <= i < |reports| ==> reports[i].state == Merged && reports[i].mergedCaseId == Some(c.caseId)
    ensures Fold(c, reports, clock) == Ok(FoldStart(c))
  {
    if reports != [] { ReplayFoldsNothing(c, reports[..|reports| - 1], clock); }
  }

  /** Merging the same reports again, as they now stand, changes nothing but the time of the last update. */
  lemma ReplayedMergeIsIdempotent(c: Case, reports: seq<Report>, actor: Actor, clock: Clock, later: Clock)
    requires CaseInv(c) && MergeInto(c, reports, actor, clock).Ok?
    ensures var out := MergeInto(c, reports, actor, clock).value;
            MergeInto(out.moderationCase, out.mergedReports, actor, later) == Ok(MergeOutcome(out.moderationCase.(updatedAt := later(0)), [], []))
  {
    var out := MergeInto(c, reports, actor, clock).value;
    MergeKeepsCase(c, reports, actor, clock);
    MergesIff(c, reports, actor, clock);
    FoldKeeps(c, reports, clock);
    forall i | 0 <= i < |out.mergedReports|
      ensures out.mergedReports[i].state == Merged && out.mergedReports[i].mergedCaseId == Some(c.caseId)
      ensures out.mergedReports[i].subjectId == c.subjectId
    {
      FreshIff(reports, Fresh(reports)[i]);
      assert out.mergedReports[i] == MarkMerged(c, Fresh(reports)[i], clock(i));
    }
    ReplayFoldsNothing(out.moderationCase, out.mergedReports, later);
    assert out.moderationCase.reportIds + [] == out.moderationCase.reportIds;
  }

  // ----------------------------------------------------------------- repeated reports --

  /** Two of the reports to be moved carry one id that the case does not list yet. */
  ghost predicate RepeatsNewId(c: Case, moved: seq<Report>) {
    exists i, j :: 0 <= i < j < |moved| && moved[i].reportId == moved[j].reportId && moved[i].reportId !in c.reportIds
  }

  lemma AppendingRepeats(s: seq<string>, x: string)
    ensures x in s ==> !NoDup(s + [x])
  {
    if x in s {
      var i :| 0 <= i < |s| && s[i] == x;
      assert (s + [x])[i] == (s + [x])[|s|];
    }
  }

  lemma NoDupAppend(s: seq<string>, x: string)
    ensures NoDup(s + [x]) <==> NoDup(s) && x !in s
  {
    AppendingRepeats(s, x);
    if NoDup(s + [x]) {
      forall i, j | 0 <= i < j < |s| ensures s[i] != s[j] { assert (s + [x])[i] == s[i] && (s + [x])[j] == s[j]; }
    }
  }

  lemma RepeatsAppend(c: Case, moved: seq<Report>, r: Report)
    ensures RepeatsNewId(c, moved + [r])
       <==> RepeatsNewId(c, moved) || (r.reportId !in c.reportIds && r.reportId in IdsOf(moved))
  {
    var longer := moved + [r];
    if RepeatsNewId(c, moved) {
      var i, j :| 0 <= i < j < |moved| && moved[i].reportId == moved[j].reportId && moved[i].reportId !in c.reportIds;
      assert longer[i] == moved[i] && longer[j] == moved[j];
    }
    if r.reportId !in c.reportIds && r.reportId in IdsOf(moved) {
      var i :| 0 <= i < |moved| && moved[i].reportId == r.reportId;
      assert longer[i].reportId == longer[|moved|].reportId;
    }
    if RepeatsNewId(c, longer) {
      var i, j :| 0 <= i < j < |longer| && longer[i].reportId == longer[j].reportId && longer[i].reportId !in c.reportIds;
      if j < |moved| {
        assert moved[i].reportId == moved[j].reportId;
      } else {
        assert moved[i] in moved;
      }
    }
  }

  lemma NewIdStep(c: Case, newIds: seq<string>, moved: seq<Report>, r: Report)
    requires ToSet(newIds) == IdsOf(moved) - ToSet(c.reportIds)
    requires NoDup(newIds) <==> !RepeatsNewId(c, moved)
    ensures NoDup(if r.reportId in c.reportIds then newIds else newIds + [r.reportId]) <==> !RepeatsNewId(c, moved + [r])
  {
    RepeatsAppend(c, moved, r);
    NoDupAppend(newIds, r.reportId);
    assert r.reportId in newIds <==> r.reportId in ToSet(newIds);
    assert r.reportId in c.reportIds <==> r.reportId in ToSet(c.reportIds);
  }

  lemma {:induction false} NewIdsRepeatIff(c: Case, reports: seq<Report>, clock: Clock)
    requires Fold(c, reports, clock).Ok?
    ensures NoDup(Fold(c, reports, clock).value.newIds) <==> !RepeatsNewId(c, Fresh(reports))
  {
    if reports != [] {
      var n := |reports| - 1;
      var before := Fold(c, reports[..n], clock).value;
      NewIdsRepeatIff(c, reports[..n], clock);
      FoldKeeps(c, reports[..n], clock);
      if reports[n].state == Merged {
        assert Fresh(reports) == Fresh(reports[..n]);
      } else {
        NewIdStep(c, before.newIds, Fresh(reports[..n]), reports[n]);
        assert Fresh(reports) == Fresh(reports[..n]) + [reports[n]];
      }
    }
  }

  /**
   * The loop compares each report with the case it started from, not with the reports
   * before it: a case keeps listing each report once exactly when one call does not
   * bring the same new report twice.
   */
  lemma {:induction false} ReportsListedOnceIff(c: Case, reports: seq<Report>, actor: Actor, clock: Clock)
    requires NoDup(c.reportIds) && MergeInto(c, reports, actor, clock).Ok?
    ensures NoDup(MergeInto(c, reports, actor, clock).value.moderationCase.reportIds) <==> !RepeatsNewId(c, Fresh(reports))
  {
    var newIds := Fold(c, reports, clock).value.newIds;
    FoldKeeps(c, reports, clock);
    NewIdsRepeatIff(c, reports, clock);
    DisjointListsRepeatIff(c.reportIds, newIds);
  }

  /** One call that brings a new report twice lists it twice. */
  lemma RepeatedReportIsListedTwice(c: Case, r: Report, actor: Actor, clock: Clock)
    requires c.state == Open && !actor.automated
    requires r.state == Triaged && r.subjectId == c.subjectId && r.reportId !in c.reportIds
    ensures MergeInto(c, [r, r], actor, clock).Ok?
    ensures MergeInto(c, [r, r], actor, clock).value.moderationCase.reportIds == c.reportIds + [r.reportId, r.reportId]
  {
    assert [r, r][..1] == [r] && [r][..0] == [];
    assert Fold(c, [r], clock) == FoldOne(c, FoldStart(c), r, clock);
    assert Fold(c, [r, r], clock) == FoldOne(c, Fold(c, [r], clock).value, r, clock);
  }

  lemma DisjointListsRepeatIff(a: seq<string>, b: seq<string>)
    requires NoDup(a) && ToSet(a) !! ToSet(b)
    ensures NoDup(a + b) <==> NoDup(b)
  {
    var all := a + b;
    if NoDup(b) {
      forall i, j | 0 <= i < j < |all| ensures all[i] != all[j] {
        if i < |a| <= j {
          assert all[i] in ToSet(a) && all[j] in ToSet(b);
        }
      }
    } else {
      var i, j :| 0 <= i < j < |b| && b[i] == b[j];
      assert all[|a| + i] == all[|a| + j];
    }
  }
}
