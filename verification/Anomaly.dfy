/** Findings about accounts, and about whoever demands to re-verify somebody else (`packages/identity/src/anomaly.ts`). */
module Anomaly {
  import opened Core
  import Identity
  import opened Attempt
  import opened Likeness
  import opened Reverification

  // ------------------------------------------------------------- severity and review --

  /** The highest severity among the findings, kept in one variable by a loop. */
  method MaxSeverity(findings: seq<Finding>) returns (highest: Option<Severity>)
    ensures highest.None? <==> findings == []
    ensures forall severity :: Found(findings, severity) <==> highest.Some? && Rank(highest.value) >= Rank(severity)
  {
    highest := None;
    for i := 0 to |findings|
      invariant highest.None? <==> i == 0
      invariant forall j :: 0 <= j < i ==> Rank(findings[j].severity) <= Rank(highest.value)
      invariant highest.Some? ==> exists j :: 0 <= j < i && findings[j].severity == highest.value
    {
      if highest.None? || Rank(findings[i].severity) > Rank(highest.value) {
        highest := Some(findings[i].severity);
      }
    }
    if findings == [] {
      return;
    }
    var k :| 0 <= k < |findings| && findings[k].severity == highest.value;
    forall severity ensures Found(findings, severity) <==> Rank(highest.value) >= Rank(severity) {
      if Rank(highest.value) >= Rank(severity) { assert Rank(findings[k].severity) >= Rank(severity); }
    }
  }

  predicate Actionable(f: Finding) {
    Rank(f.severity) >= Rank(Review)
  }

  datatype ReviewProposal = ReviewProposal(worst: Finding, findings: seq<Finding>)

  function ProposeReview(findings: seq<Finding>): Option<ReviewProposal> {
    var actionable := Filter(findings, (f: Finding) => Actionable(f));
    var worst := WorstFinding(actionable);
    if worst.None? then None else Some(ReviewProposal(worst.value, actionable))
  }

  lemma ActionableIff(f: Finding)
    ensures Actionable(f) <==> f.severity in {Review, Blocking}
  {
  }

  lemma ActionableKept(findings: seq<Finding>, f: Finding)
    ensures f in Filter(findings, (g: Finding) => Actionable(g)) <==> f in findings && f.severity in {Review, Blocking}
  {
    ActionableIff(f);
  }

  lemma OnlyReviewIsLower(a: Severity, b: Severity)
    requires a in {Review, Blocking} && b in {Review, Blocking} && Rank(a) < Rank(b)
    ensures a == Review && b == Blocking
  {
  }

  lemma FirstOfTheWorst(findings: seq<Finding>) returns (i: int)
    requires findings != [] && forall f :: f in findings ==> f.severity in {Review, Blocking}
    ensures 0 <= i < |findings| && findings[i] == WorstFinding(findings).value
    ensures forall j :: 0 <= j < i ==> findings[j].severity == Review && findings[i].severity == Blocking
  {
    i :| 0 <= i < |findings| && findings[i] == WorstFinding(findings).value
         && forall j :: 0 <= j < i ==> Rank(findings[j].severity) < Rank(findings[i].severity);
    forall j | 0 <= j < i ensures findings[j].severity == Review && findings[i].severity == Blocking {
      assert findings[j] in findings && findings[i] in findings;
      OnlyReviewIsLower(findings[j].severity, findings[i].severity);
    }
  }

  /** What a proposed review is about: the findings that rise to one, and the first of the worst of them. */
  lemma ProposalIs(findings: seq<Finding>)
    requires ProposeReview(findings).Some?
    ensures forall f :: f in ProposeReview(findings).value.findings <==> f in findings && f.severity in {Review, Blocking}
    ensures var r := ProposeReview(findings).value;
            exists i :: 0 <= i < |r.findings| && r.findings[i] == r.worst
                        && forall j :: 0 <= j < i ==> r.findings[j].severity == Review && r.findings[i].severity == Blocking
  {
    var actionable := Filter(findings, (f: Finding) => Actionable(f));
    forall f ensures f in actionable <==> f in findings && f.severity in {Review, Blocking} {
      ActionableKept(findings, f);
    }
    var i := FirstOfTheWorst(actionable);
  }

  /** A review is proposed exactly when something rises to one, and then nobody passes on the same findings. */
  lemma ProposedReviewStopsThePass(findings: seq<Finding>, score: Score, checks: seq<CheckResult>)
    ensures ProposeReview(findings).Some? <==> Found(findings, Review)
    ensures ProposeReview(findings).Some? ==> DecideVerificationOutcome(score, checks, findings).decision != PassDecision
    ensures ProposeReview(findings).Some? ==>
              forall f :: f in findings ==> Rank(f.severity) <= Rank(ProposeReview(findings).value.worst.severity)
  {
    var actionable := Filter(findings, (f: Finding) => Actionable(f));
    if Found(findings, Review) {
      var i :| 0 <= i < |findings| && Actionable(findings[i]);
      assert findings[i] in actionable;
    }
    if actionable != [] {
      var worst := WorstFinding(actionable).value;
      assert actionable[0] in actionable;
      assert worst in findings;
      PassIff(score, checks, findings);
    }
  }

  // ------------------------------------------------------ who demands other people's checks --

  const ABUSE_WINDOW_MS := 30 * DAY_MS
  const ABUSE_THRESHOLD := 1

  datatype AbuseFinding = AbuseFinding(subjectId: string, detectedAt: int, demands: nat, distinctTargets: nat)

  /** A refusal the detector counts: a subject's, for want of permission, in the last 30 days. */
  predicate Counts(r: Refusal, now: int) {
    r.kind == BySubject && r.code == PermissionDenied && now - ABUSE_WINDOW_MS <= r.at <= now
  }

  /** The refusals of one actor that count, oldest first. */
  function CountedOf(refusals: seq<Refusal>, actor: string, now: int): seq<Refusal> {
    if refusals == [] then []
    else
      var last := refusals[|refusals| - 1];
      CountedOf(refusals[..|refusals| - 1], actor, now) + if Counts(last, now) && last.actorId == actor then [last] else []
  }

  /** The actors with a counted refusal, in the order they first appear. */
  function Actors(refusals: seq<Refusal>, now: int): seq<string> {
    if refusals == [] then []
    else
      var before, last := Actors(refusals[..|refusals| - 1], now), refusals[|refusals| - 1];
      if !Counts(last, now) || last.actorId in before then before else before + [last.actorId]
  }

  function Targets(refusals: seq<Refusal>): set<string> {
    set r | r in refusals :: r.intendedSubjectId
  }

  function FindingFor(refusals: seq<Refusal>, actor: string, now: int): AbuseFinding {
    var counted := CountedOf(refusals, actor, now);
    AbuseFinding(actor, now, |counted|, |Targets(counted)|)
  }

  function AbuseFindings(refusals: seq<Refusal>, now: int): seq<AbuseFinding> {
    var actors := Actors(refusals, now);
    seq(|actors|, i requires 0 <= i < |actors| => FindingFor(refusals, actors[i], now))
  }

  datatype Tally = Tally(count: nat, targets: set<string>)

  /** What the grouping loop holds of one actor after `refusals`. */
  predicate Tallied(byActor: map<string, Tally>, refusals: seq<Refusal>, actor: string, now: int) {
    var counted := CountedOf(refusals, actor, now);
    (actor in byActor <==> counted != [])
    && (actor in byActor ==> byActor[actor] == Tally(|counted|, Targets(counted)))
  }

  lemma {:induction false} CountedStep(refusals: seq<Refusal>, r: Refusal, actor: string, now: int)
    ensures CountedOf(refusals + [r], actor, now)
         == CountedOf(refusals, actor, now) + if Counts(r, now) && r.actorId == actor then [r] else []
    ensures Actors(refusals + [r], now)
         == Actors(refusals, now) + if Counts(r, now) && r.actorId !in Actors(refusals, now) then [r.actorId] else []
  {
    assert (refusals + [r])[..|refusals|] == refusals;
  }

  function Add(byActor: map<string, Tally>, r: Refusal): map<string, Tally> {
    if r.actorId in byActor
    then byActor[r.actorId := Tally(byActor[r.actorId].count + 1, byActor[r.actorId].targets + {r.intendedSubjectId})]
    else byActor[r.actorId := Tally(1, {r.intendedSubjectId})]
  }

  lemma TallyStep(byActor: map<string, Tally>, refusals: seq<Refusal>, r: Refusal, actor: string, now: int)
    requires Tallied(byActor, refusals, actor, now)
    ensures Tallied(if Counts(r, now) then Add(byActor, r) else byActor, refusals + [r], actor, now)
  {
    CountedStep(refusals, r, actor, now);
    var counted := CountedOf(refusals, actor, now);
    TargetsAppend(counted, r);
    assert counted + [] == counted;
  }

  lemma TargetsAppend(refusals: seq<Refusal>, r: Refusal)
    ensures Targets(refusals + [r]) == Targets(refusals) + {r.intendedSubjectId}
  {
    assert r in refusals + [r];
  }

  /** The actors are those with a counted refusal, each once. */
  lemma {:induction false} ActorsIff(refusals: seq<Refusal>, now: int, actor: string)
    ensures actor in Actors(refusals, now) <==> CountedOf(refusals, actor, now) != []
    ensures NoDup(Actors(refusals, now))
  {
    if refusals != [] {
      var n := |refusals| - 1;
      ActorsIff(refusals[..n], now, actor);
      assert refusals == refusals[..n] + [refusals[n]];
      CountedStep(refusals[..n], refusals[n], actor, now);
    }
  }

  /** Groups by actor in a map kept in the order of first insertion, then reports every group. */
  method DetectReverificationAbuse(refusals: seq<Refusal>, now: int) returns (findings: seq<AbuseFinding>)
    ensures findings == AbuseFindings(refusals, now)
  {
    var byActor: map<string, Tally>, order := map[], [];
    for i := 0 to |refusals|
      invariant order == Actors(refusals[..i], now)
      invariant forall actor :: Tallied(byActor, refusals[..i], actor, now)
    {
      var r := refusals[i];
      assert refusals[..i + 1] == refusals[..i] + [r];
      CountedStep(refusals[..i], r, r.actorId, now);
      ghost var next, longer := if Counts(r, now) then Add(byActor, r) else byActor, refusals[..i + 1];
      forall actor ensures Tallied(next, longer, actor, now) {
        TallyStep(byActor, refusals[..i], r, actor, now);
      }
      if r.kind != BySubject || r.code != PermissionDenied {
        continue;
      }
      if r.at < now - ABUSE_WINDOW_MS || r.at > now {
        continue;
      }
      ActorsIff(refusals[..i], now, r.actorId);
      assert Tallied(byActor, refusals[..i], r.actorId, now);
      if r.actorId !in byActor {
        order := order + [r.actorId];
      }
      byActor := Add(byActor, r);
    }
    assert refusals[..|refusals|] == refusals;
    findings := ReportGroups(refusals, now, byActor, order);
  }

  method ReportGroups(ghost refusals: seq<Refusal>, now: int, byActor: map<string, Tally>, order: seq<string>)
    returns (findings: seq<AbuseFinding>)
    requires order == Actors(refusals, now) && forall actor :: Tallied(byActor, refusals, actor, now)
    ensures findings == AbuseFindings(refusals, now)
  {
    findings := [];
    for i := 0 to |order|
      invariant findings == AbuseFindings(refusals, now)[..i]
    {
      ActorsIff(refusals, now, order[i]);
      assert Tallied(byActor, refusals, order[i], now);
      var tally := byActor[order[i]];
      assert tally.count >= 1;
      if tally.count < ABUSE_THRESHOLD {
        continue;
      }
      findings := findings + [AbuseFinding(order[i], now, tally.count, |tally.targets|)];
    }
  }

  /** Exactly who is reported: one finding for each actor with a counted refusal, none for anybody else. */
  lemma ReportedIff(refusals: seq<Refusal>, now: int, actor: string)
    ensures (exists f :: f in AbuseFindings(refusals, now) && f.subjectId == actor)
       <==> exists i :: 0 <= i < |refusals| && Counts(refusals[i], now) && refusals[i].actorId == actor
    ensures forall i, j :: 0 <= i < j < |AbuseFindings(refusals, now)| ==>
              AbuseFindings(refusals, now)[i].subjectId != AbuseFindings(refusals, now)[j].subjectId
  {
    var actors, findings := Actors(refusals, now), AbuseFindings(refusals, now);
    ActorsIff(refusals, now, actor);
    CountedHas(refusals, actor, now);
    if actor in actors {
      var i :| 0 <= i < |actors| && actors[i] == actor;
      assert findings[i].subjectId == actor;
      assert findings[i] in findings;
    }
  }

  lemma {:induction false} CountedHas(refusals: seq<Refusal>, actor: string, now: int)
    ensures CountedOf(refusals, actor, now) != []
       <==> exists i :: 0 <= i < |refusals| && Counts(refusals[i], now) && refusals[i].actorId == actor
  {
    if refusals != [] {
      var n := |refusals| - 1;
      CountedHas(refusals[..n], actor, now);
      if CountedOf(refusals[..n], actor, now) != [] {
        var i :| 0 <= i < n && Counts(refusals[..n][i], now) && refusals[..n][i].actorId == actor;
        assert refusals[i] == refusals[..n][i];
      }
      if i :| 0 <= i < |refusals| && Counts(refusals[i], now) && refusals[i].actorId == actor {
        if i < n { assert refusals[..n][i] == refusals[i]; }
      }
    }
  }

  /** The places of an actor's counted refusals. */
  function CountedAt(refusals: seq<Refusal>, actor: string, now: int): set<int> {
    set i | 0 <= i < |refusals| && Counts(refusals[i], now) && refusals[i].actorId == actor
  }

  lemma {:induction false} CountedOfIs(refusals: seq<Refusal>, actor: string, now: int)
    ensures |CountedOf(refusals, actor, now)| == |CountedAt(refusals, actor, now)|
    ensures forall r :: r in CountedOf(refusals, actor, now) <==> r in refusals && Counts(r, now) && r.actorId == actor
  {
    if refusals != [] {
      var n := |refusals| - 1;
      CountedOfIs(refusals[..n], actor, now);
      assert refusals == refusals[..n] + [refusals[n]];
      assert CountedAt(refusals, actor, now)
          == CountedAt(refusals[..n], actor, now) + if Counts(refusals[n], now) && refusals[n].actorId == actor then {n} else {};
    }
  }

  /** What a finding says: how many of the actor's refusals count, and how many people they were about. */
  lemma FindingSays(refusals: seq<Refusal>, now: int, f: AbuseFinding)
    requires f in AbuseFindings(refusals, now)
    ensures f.detectedAt == now && f.demands == |CountedAt(refusals, f.subjectId, now)| && f.demands > 0
    ensures f.distinctTargets
         == |set r | r in refusals && r.kind == BySubject && r.code == PermissionDenied && now - 30 * 86_400_000 <= r.at <= now
                     && r.actorId == f.subjectId :: r.intendedSubjectId|
  {
    CountedOfIs(refusals, f.subjectId, now);
    ActorsIff(refusals, now, f.subjectId);
    var counted := CountedOf(refusals, f.subjectId, now);
    assert Targets(counted)
        == set r | r in refusals && r.kind == BySubject && r.code == PermissionDenied && now - 30 * 86_400_000 <= r.at <= now
                   && r.actorId == f.subjectId :: r.intendedSubjectId;
  }

  // ------------------------------------------------- what the command's log makes of it --

  /**
   * What the two halves make together: the command's refusal of a demand is counted
   * exactly when a subject made it without authority, whoever it was about.
   */
  lemma RefusedDemandCountsIff(d: Demand, identityState: Identity.IdentityState, history: seq<HistoryEntry>, now: int)
    ensures (exists r :: r in RefusalsFor(d, identityState, history) && Counts(r, now))
       <==> d.kind == BySubject && !Authorised(d) && now - ABUSE_WINDOW_MS <= d.now <= now
  {
    var refusals := RefusalsFor(d, identityState, history);
    if d.kind == BySubject && !Authorised(d) && now - ABUSE_WINDOW_MS <= d.now <= now {
      assert refusals[0] in refusals;
    }
  }

  /**
   * A demand about oneself is counted as one against somebody else exactly when it
   * gives a reason that only another requester may give: the log does not say which
   * of the two permission checks refused it.
   */
  lemma OwnDemandCountsIff(d: Demand, identityState: Identity.IdentityState, history: seq<HistoryEntry>)
    requires d.kind == BySubject && d.actorId == d.subjectId
    ensures (exists r :: r in RefusalsFor(d, identityState, history) && Counts(r, d.now))
       <==> d.reason !in [IdentityExpired, UserRequested]
  {
    RefusedDemandCountsIff(d, identityState, history, d.now);
  }
}
