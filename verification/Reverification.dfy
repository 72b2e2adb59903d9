/** The re-verification command of `packages/identity/src/reverification.ts`. */
module Reverification {
  import opened Core
  import opened Identity
  import opened Window
  import opened Attempt

  datatype Reason = IdentityExpired | UserRequested | RiskSignal | CaseLinked | AnomalyFindings

  datatype RequesterKind = BySubject | ByTrustSafety | ByModeration | ByDatingCore

  function Authorities(reason: Reason): seq<RequesterKind> {
    match reason
    case IdentityExpired => [BySubject]
    case UserRequested => [BySubject]
    case RiskSignal => [ByTrustSafety]
    case CaseLinked => [ByModeration]
    case AnomalyFindings => [ByTrustSafety, ByModeration]
  }

  const MAX_PER_30_DAYS := 3
  const COOLDOWN_HOURS := 24
  const WINDOW_MS := 30 * DAY_MS

  datatype Demand = Demand(subjectId: string, reason: Reason, kind: RequesterKind, actorId: string, now: int)

  datatype HistoryEntry = HistoryEntry(verificationId: string, requestedAt: int, reVerification: bool, attemptState: AttemptState)

  datatype Limit = PerSubjectPer30Days | Cooldown

  datatype Refusal = Refusal(at: int, actorId: string, intendedSubjectId: string, kind: RequesterKind, reason: Reason, code: Code)

  datatype LimitSignal = LimitSignal(
    at: int, subjectId: string, actorId: string, kind: RequesterKind, reason: Reason,
    limit: Limit, blockedUntil: int, requested: nat, cap: nat)

  datatype Plan = Plan(subjectId: string, reason: Reason, requestedBy: RequesterKind, nextIdentityState: IdentityState)

  // ---------------------------------------------------------- the specification --

  /** The instants of the re-verifications among a history, in its order. */
  function ReTimes(history: seq<HistoryEntry>): seq<int> {
    if history == [] then []
    else
      var last := history[|history| - 1];
      ReTimes(history[..|history| - 1]) + if last.reVerification then [last.requestedAt] else []
  }

  predicate InFlight(history: seq<HistoryEntry>) {
    exists i :: 0 <= i < |history| && IsOpen(history[i].attemptState)
  }

  /** Less than a day since the newest re-verification of the window. */
  predicate CoolingDown(times: seq<int>, now: int) {
    var last := LatestAfter(times, now - WINDOW_MS);
    last.Some? && now < last.value + COOLDOWN_HOURS * HOUR_MS
  }

  /** The check that stops a demand before the kernel is asked, in the order that is part of the contract. */
  datatype Stop =
    | NotTheirs(code: Code)
    | Busy(code: Code)
    | Limited(limit: Limit, blockedUntil: int, requested: nat)
  {
    function ErrorCode(): Code {
      if Limited? then RateLimited else code
    }
  }

  predicate Authorised(d: Demand) {
    d.kind in Authorities(d.reason) && (d.kind == BySubject ==> d.actorId == d.subjectId)
  }

  /** The two limits, in their order. */
  function LimitAt(times: seq<int>, now: int): Option<Stop> {
    var since := now - WINDOW_MS;
    if CountAfter(times, since) >= MAX_PER_30_DAYS then
      Some(Limited(PerSubjectPer30Days, EarliestAfter(times, since).value + WINDOW_MS, CountAfter(times, since)))
    else if CoolingDown(times, now) then
      Some(Limited(Cooldown, LatestAfter(times, since).value + COOLDOWN_HOURS * HOUR_MS, CountAfter(times, since)))
    else None
  }

  function Stopped(d: Demand, identityState: IdentityState, history: seq<HistoryEntry>): Option<Stop> {
    if !Authorised(d) then Some(NotTheirs(PermissionDenied))
    else if d.kind == BySubject && identityState != Expired then Some(NotTheirs(NotEligible))
    else if identityState == ReviewRequired || InFlight(history) then Some(Busy(Conflict))
    else LimitAt(ReTimes(history), d.now)
  }

  function Decided(d: Demand, identityState: IdentityState, history: seq<HistoryEntry>): Result<Plan, Code> {
    var stop := Stopped(d, identityState, history);
    if stop.Some? then Err(stop.value.ErrorCode())
    else
      var next := IdentityNext(identityState, ReverifyRequested, IdentityContext(false, None));
      if next.Err? then Err(next.error) else Ok(Plan(d.subjectId, d.reason, d.kind, next.value))
  }

  function RefusalsFor(d: Demand, identityState: IdentityState, history: seq<HistoryEntry>): seq<Refusal> {
    var stop := Stopped(d, identityState, history);
    if stop.None? then [] else [Refusal(d.now, d.actorId, d.subjectId, d.kind, d.reason, stop.value.ErrorCode())]
  }

  function SignalsOf(d: Demand, stop: Option<Stop>): seq<LimitSignal> {
    match stop
    case Some(Limited(limit, blockedUntil, requested)) =>
      if d.kind == BySubject || d.kind == ByDatingCore then []
      else [LimitSignal(d.now, d.subjectId, d.actorId, d.kind, d.reason, limit, blockedUntil, requested,
                        if limit == PerSubjectPer30Days then MAX_PER_30_DAYS else COOLDOWN_HOURS)]
    case _ => []
  }

  function SignalsFor(d: Demand, identityState: IdentityState, history: seq<HistoryEntry>): seq<LimitSignal> {
    SignalsOf(d, Stopped(d, identityState, history))
  }

  /** The division into hours asks the same as the milliseconds do. */
  lemma HoursSince(now: int, last: int)
    ensures (now - last) as real / 3_600_000.0 < 24.0 <==> now < last + COOLDOWN_HOURS * HOUR_MS
  {
    var x := (now - last) as real;
    assert x / 3_600_000.0 < 24.0 <==> x < 86_400_000.0;
  }

  // ------------------------------------------------------------------ the command --

  /** The two logs every refusal goes through. */
  class Sinks {
    var refusals: seq<Refusal>
    var signals: seq<LimitSignal>

    constructor ()
      ensures refusals == [] && signals == []
    {
      refusals, signals := [], [];
    }

    method Refuse(d: Demand, code: Code) returns (r: Result<Plan, Code>)
      modifies `refusals
      ensures refusals == old(refusals) + [Refusal(d.now, d.actorId, d.subjectId, d.kind, d.reason, code)]
      ensures r == Err(code)
    {
      refusals := refusals + [Refusal(d.now, d.actorId, d.subjectId, d.kind, d.reason, code)];
      r := Err(code);
    }

    method Raise(d: Demand, limit: Limit, blockedUntil: int, requested: nat)
      modifies `signals
      ensures d.kind == BySubject || d.kind == ByDatingCore ==> signals == old(signals)
      ensures d.kind == ByTrustSafety || d.kind == ByModeration ==>
                signals == old(signals) + [LimitSignal(d.now, d.subjectId, d.actorId, d.kind, d.reason, limit, blockedUntil,
                                                       requested, if limit == PerSubjectPer30Days then 3 else 24)]
    {
      if d.kind == BySubject || d.kind == ByDatingCore {
        return;
      }
      var cap := if limit == PerSubjectPer30Days then MAX_PER_30_DAYS else COOLDOWN_HOURS;
      signals := signals + [LimitSignal(d.now, d.subjectId, d.actorId, d.kind, d.reason, limit, blockedUntil, requested, cap)];
    }

    /** The rolling cap and then the cooldown, each raising its signal before its refusal. */
    method CheckLimits(d: Demand, times: seq<int>) returns (limited: bool)
      modifies this
      ensures limited <==> LimitAt(times, d.now).Some?
      ensures refusals == old(refusals)
                          + if limited then [Refusal(d.now, d.actorId, d.subjectId, d.kind, d.reason, RateLimited)] else []
      ensures signals == old(signals) + SignalsOf(d, LimitAt(times, d.now))
    {
      var requested := CountAfter(times, d.now - WINDOW_MS);
      if requested >= MAX_PER_30_DAYS {
        Raise(d, PerSubjectPer30Days, EarliestAfter(times, d.now - WINDOW_MS).value + WINDOW_MS, requested);
        var _ := Refuse(d, RateLimited);
        return true;
      }
      var last := LatestAfter(times, d.now - WINDOW_MS);
      if last.Some? { HoursSince(d.now, last.value); }
      if last.Some? && (d.now - last.value) as real / 3_600_000.0 < COOLDOWN_HOURS as real {
        Raise(d, Cooldown, last.value + COOLDOWN_HOURS * HOUR_MS, requested);
        var _ := Refuse(d, RateLimited);
        return true;
      }
      return false;
    }

    /** The checks in their order; what each writes to the logs, and nothing else. */
    method RequestReVerification(d: Demand, identityState: IdentityState, history: seq<HistoryEntry>)
      returns (r: Result<Plan, Code>)
      modifies this
      ensures r == Decided(d, identityState, history)
      ensures refusals == old(refusals) + RefusalsFor(d, identityState, history)
      ensures signals == old(signals) + SignalsFor(d, identityState, history)
    {
      if d.kind !in Authorities(d.reason) {
        r := Refuse(d, PermissionDenied);
        return;
      }
      if d.kind == BySubject && d.actorId != d.subjectId {
        r := Refuse(d, PermissionDenied);
        return;
      }
      if d.kind == BySubject && identityState != Expired {
        r := Refuse(d, NotEligible);
        return;
      }
      if identityState == ReviewRequired {
        r := Refuse(d, Conflict);
        return;
      }
      if Find(history, (e: HistoryEntry) => IsOpen(e.attemptState)).Some? {
        r := Refuse(d, Conflict);
        return;
      }
      var limited := CheckLimits(d, ReTimes(history));
      if limited {
        return Err(RateLimited);
      }
      var next := IdentityNext(identityState, ReverifyRequested, IdentityContext(false, None));
      r := if next.Err? then Err(next.error) else Ok(Plan(d.subjectId, d.reason, d.kind, next.value));
    }
  }

  // ------------------------------------------------------- what a caller can learn --

  /** A caller without authority gets the same answer, and leaves the same trace, whatever is true of the subject. */
  lemma StrangersLearnNothing(
    d: Demand, one: IdentityState, other: IdentityState, past: seq<HistoryEntry>, otherPast: seq<HistoryEntry>)
    requires !Authorised(d)
    ensures Decided(d, one, past) == Decided(d, other, otherPast) == Err(PermissionDenied)
    ensures RefusalsFor(d, one, past) == RefusalsFor(d, other, otherPast)
    ensures |RefusalsFor(d, one, past)| == 1 && SignalsFor(d, one, past) == SignalsFor(d, other, otherPast) == []
  {
  }

  /** No reason gives the dating core authority, and only a subject may act for a subject's own reasons. */
  lemma WhoHasAuthority(d: Demand)
    ensures d.kind == ByDatingCore ==> !Authorised(d)
    ensures d.reason == IdentityExpired || d.reason == UserRequested ==>
              (Authorised(d) <==> d.kind == BySubject && d.actorId == d.subjectId)
  {
  }

  /**
   * Not every refusal is recorded: one passes unlogged exactly when every check of
   * the command passes and the kernel has no edge, which only an automated caller
   * can bring about.
   */
  lemma UnloggedRefusalIff(d: Demand, identityState: IdentityState, history: seq<HistoryEntry>)
    ensures Decided(d, identityState, history).Err? && RefusalsFor(d, identityState, history) == []
       <==> Stopped(d, identityState, history).None? && identityState in [Unverified, Pending, VerificationFailed]
    ensures Decided(d, identityState, history).Err? && RefusalsFor(d, identityState, history) == [] ==>
              d.kind in [ByTrustSafety, ByModeration] && Decided(d, identityState, history) == Err(InvalidTransition)
  {
  }

  lemma UnloggedRefusalExample()
    ensures var d := Demand("s", RiskSignal, ByTrustSafety, "ops", 0);
            Decided(d, Unverified, []) == Err(InvalidTransition) && RefusalsFor(d, Unverified, []) == []
  {
  }

  /** A signal is written exactly for an automated caller stopped by a limit, and carries what stopped it. */
  lemma SignalIff(d: Demand, identityState: IdentityState, history: seq<HistoryEntry>)
    ensures var stop := Stopped(d, identityState, history);
            SignalsFor(d, identityState, history) != [] <==> stop.Some? && stop.value.Limited? && d.kind in [ByTrustSafety, ByModeration]
    ensures SignalsFor(d, identityState, history) != [] ==> |RefusalsFor(d, identityState, history)| == 1
  {
  }

  /** What a signal says: who asked for what, which limit stopped it and until when, and that limit's number. */
  lemma {:induction false} SignalIs(d: Demand, identityState: IdentityState, history: seq<HistoryEntry>)
    requires SignalsFor(d, identityState, history) != []
    ensures
      var stop, times := Stopped(d, identityState, history).value, ReTimes(history);
      SignalsFor(d, identityState, history)
      == [LimitSignal(d.now, d.subjectId, d.actorId, d.kind, d.reason, stop.limit, stop.blockedUntil,
                      CountAfter(times, d.now - 30 * DAY_MS), if stop.limit == Cooldown then 24 else 3)]
  {
  }

  // -------------------------------------------------- the whole answer, said plainly --

  /** Who may give which reason. */
  predicate MayGive(kind: RequesterKind, reason: Reason) {
    match reason
    case IdentityExpired => kind == BySubject
    case UserRequested => kind == BySubject
    case RiskSignal => kind == ByTrustSafety
    case CaseLinked => kind == ByModeration
    case AnomalyFindings => kind == ByTrustSafety || kind == ByModeration
  }

  predicate Permitted(d: Demand) {
    MayGive(d.kind, d.reason) && (d.kind == BySubject ==> d.actorId == d.subjectId)
  }

  /** An attempt of this history is still in flight: neither passed, nor failed, nor expired. */
  predicate SomeInFlight(history: seq<HistoryEntry>) {
    exists i :: 0 <= i < |history| && history[i].attemptState !in {AttemptPassed, AttemptFailed, AttemptExpired}
  }

  function RecentOnes(history: seq<HistoryEntry>, now: int): set<int> {
    set i | 0 <= i < |history| && history[i].reVerification && history[i].requestedAt > now - 30 * 86_400_000
  }

  /** No re-verification less than a day old. */
  predicate DayHasPassed(history: seq<HistoryEntry>, now: int) {
    forall i :: 0 <= i < |history| && history[i].reVerification ==> now >= history[i].requestedAt + 86_400_000
  }

  predicate Unlimited(history: seq<HistoryEntry>, now: int) {
    |RecentOnes(history, now)| < 3 && DayHasPassed(history, now)
  }

  lemma {:induction false} RecentCounted(history: seq<HistoryEntry>, now: int)
    ensures CountAfter(ReTimes(history), now - WINDOW_MS) == |RecentOnes(history, now)|
  {
    if history != [] {
      var n := |history| - 1;
      RecentCounted(history[..n], now);
      assert history == history[..n] + [history[n]];
      assert RecentOnes(history, now)
          == RecentOnes(history[..n], now)
             + if history[n].reVerification && history[n].requestedAt > now - 30 * 86_400_000 then {n} else {};
      var before := ReTimes(history[..n]);
      assert before + [] == before;
      CountAfterAppend(before, history[n].requestedAt, now - WINDOW_MS);
    }
  }

  lemma {:induction false} ReTimesAre(history: seq<HistoryEntry>, t: int)
    ensures t in ReTimes(history) <==> exists i :: 0 <= i < |history| && history[i].reVerification && history[i].requestedAt == t
  {
    if history != [] {
      var n := |history| - 1;
      ReTimesAre(history[..n], t);
      if t in ReTimes(history[..n]) {
        var i :| 0 <= i < n && history[..n][i].reVerification && history[..n][i].requestedAt == t;
        assert history[i] == history[..n][i];
      }
      if i :| 0 <= i < |history| && history[i].reVerification && history[i].requestedAt == t {
        if i < n { assert history[..n][i] == history[i]; }
      }
    }
  }

  lemma {:induction false} CoolingIff(history: seq<HistoryEntry>, now: int)
    ensures CoolingDown(ReTimes(history), now) <==> !DayHasPassed(history, now)
  {
    var times := ReTimes(history);
    var last := LatestAfter(times, now - WINDOW_MS);
    if last.Some? { ReTimesAre(history, last.value); }
    if !DayHasPassed(history, now) {
      var i :| 0 <= i < |history| && history[i].reVerification && now < history[i].requestedAt + 86_400_000;
      ReTimesAre(history, history[i].requestedAt);
      var k :| 0 <= k < |times| && times[k] == history[i].requestedAt;
    }
  }

  lemma {:induction false} UnlimitedIff(history: seq<HistoryEntry>, now: int)
    ensures LimitAt(ReTimes(history), now).None? <==> Unlimited(history, now)
  {
    RecentCounted(history, now);
    CoolingIff(history, now);
  }

  lemma InFlightIff(history: seq<HistoryEntry>)
    ensures InFlight(history) <==> SomeInFlight(history)
  {
    if i :| 0 <= i < |history| && IsOpen(history[i].attemptState) {
      assert history[i].attemptState !in {AttemptPassed, AttemptFailed, AttemptExpired};
    }
    if i :| 0 <= i < |history| && history[i].attemptState !in {AttemptPassed, AttemptFailed, AttemptExpired} {
      assert IsOpen(history[i].attemptState);
    }
  }

  lemma AuthorisedIff(d: Demand)
    ensures Authorised(d) <==> Permitted(d)
  {
  }

  /**
   * Which answer a demand gets, in the order that is part of the contract: permission,
   * eligibility, a review or an attempt in flight, the two limits, and the kernel's edge.
   */
  lemma AnswerIs(d: Demand, identityState: IdentityState, history: seq<HistoryEntry>)
    ensures Decided(d, identityState, history)
         == if !Permitted(d) then Err(PermissionDenied)
            else if d.kind == BySubject && identityState != Expired then Err(NotEligible)
            else if identityState == ReviewRequired || SomeInFlight(history) then Err(Conflict)
            else if !Unlimited(history, d.now) then Err(RateLimited)
            else if identityState !in {Verified, Expired} then Err(InvalidTransition)
            else Ok(Plan(d.subjectId, d.reason, d.kind, Pending))
  {
    AuthorisedIff(d);
    InFlightIff(history);
    UnlimitedIff(history, d.now);
  }

  /** Accepted exactly for a permitted demand on a verified or expired identity with nothing in flight and both limits free. */
  lemma AcceptedIff(d: Demand, identityState: IdentityState, history: seq<HistoryEntry>)
    ensures Decided(d, identityState, history).Ok?
       <==> Permitted(d) && (d.kind == BySubject ==> identityState == Expired) && identityState in {Verified, Expired}
            && !SomeInFlight(history) && Unlimited(history, d.now)
    ensures Decided(d, identityState, history).Ok? ==>
              Decided(d, identityState, history).value == Plan(d.subjectId, d.reason, d.kind, Pending)
  {
    AnswerIs(d, identityState, history);
  }

  /** What is logged of a refusal: one entry with its own code, unless it is the kernel's. */
  lemma RefusalLogged(d: Demand, identityState: IdentityState, history: seq<HistoryEntry>)
    requires Decided(d, identityState, history).Err?
    ensures var code := Decided(d, identityState, history).error;
            RefusalsFor(d, identityState, history)
            == if code == InvalidTransition then [] else [Refusal(d.now, d.actorId, d.subjectId, d.kind, d.reason, code)]
  {
  }

  /** An attempt in flight alone refuses a permitted demand, as a conflict and with one refusal on the log. */
  lemma InFlightConflicts(d: Demand, identityState: IdentityState, history: seq<HistoryEntry>)
    requires Permitted(d) && (d.kind == BySubject ==> identityState == Expired) && SomeInFlight(history)
    ensures Decided(d, identityState, history) == Err(Conflict)
    ensures RefusalsFor(d, identityState, history) == [Refusal(d.now, d.actorId, d.subjectId, d.kind, d.reason, Conflict)]
  {
    AnswerIs(d, identityState, history);
  }

  // --------------------------------------------------------- when a block lifts --

  predicate LimitedBy(stop: Option<Stop>, limit: Limit) {
    stop.Some? && stop.value.Limited? && stop.value.limit == limit
  }

  /** A later start of the window keeps the latest entry it still holds. */
  lemma {:induction false} LatestStays(times: seq<int>, lo: int, lo': int)
    requires lo <= lo' && LatestAfter(times, lo).Some? && lo' < LatestAfter(times, lo).value
    ensures LatestAfter(times, lo') == LatestAfter(times, lo)
  {
    var last := LatestAfter(times, lo).value;
    var i :| 0 <= i < |times| && times[i] == last;
  }

  lemma {:induction false} CapIs(times: seq<int>, now: int)
    ensures LimitedBy(LimitAt(times, now), PerSubjectPer30Days) <==> CountAfter(times, now - WINDOW_MS) >= MAX_PER_30_DAYS
    ensures LimitedBy(LimitAt(times, now), PerSubjectPer30Days) ==>
              LimitAt(times, now).value.blockedUntil == EarliestAfter(times, now - WINDOW_MS).value + WINDOW_MS
  {
  }

  /** What a cap of `requested` re-verifications until `until` holds for once the earliest have left the window. */
  function Remaining(times: seq<int>, until: int, requested: nat): int {
    requested - CountAt(times, until - WINDOW_MS)
  }

  predicate CappedAt(times: seq<int>, now: int, until: int, requested: nat) {
    LimitAt(times, now) == Some(Limited(PerSubjectPer30Days, until, requested))
  }

  lemma CapLiftsIffAt(times: seq<int>, now: int, until: int, requested: nat, retry: int)
    requires CappedAt(times, now, until, requested) && now <= retry <= until
    ensures LimitedBy(LimitAt(times, retry), PerSubjectPer30Days)
       <==> retry < until || Remaining(times, until, requested) >= MAX_PER_30_DAYS
  {
    CapIs(times, now);
    CapIs(times, retry);
    CapLiftsIff(times, MAX_PER_30_DAYS, WINDOW_MS, now, retry);
  }

  lemma CooldownLifts(times: seq<int>, now: int, retry: int)
    requires LimitedBy(LimitAt(times, now), Cooldown) && now <= retry <= LimitAt(times, now).value.blockedUntil
    ensures LimitedBy(LimitAt(times, retry), Cooldown) <==> retry < LimitAt(times, now).value.blockedUntil
    ensures LimitAt(times, retry).None? <==> retry == LimitAt(times, now).value.blockedUntil
  {
    LatestStays(times, now - WINDOW_MS, retry - WINDOW_MS);
    CountAfterShrinks(times, retry - WINDOW_MS, now - WINDOW_MS);
  }

  /** A demand a limit stopped is, whenever it is repeated, stopped by a limit or by nothing. */
  lemma {:induction false} OnlyLimitsRemain(d: Demand, identityState: IdentityState, history: seq<HistoryEntry>, retry: int)
    requires Stopped(d, identityState, history).Some? && Stopped(d, identityState, history).value.Limited?
    ensures Stopped(d, identityState, history) == LimitAt(ReTimes(history), d.now)
    ensures Stopped(d.(now := retry), identityState, history) == LimitAt(ReTimes(history), retry)
  {
  }

  /**
   * The cap holds until its `blockedUntil`, over any history, and at that instant lifts
   * exactly when fewer than three of the re-verifications it counted are later than the
   * earliest.
   */
  lemma {:induction false} CapBlocksUntilIff(d: Demand, identityState: IdentityState, history: seq<HistoryEntry>, until: int, requested: nat, retry: int)
    requires Stopped(d, identityState, history) == Some(Limited(PerSubjectPer30Days, until, requested))
    requires d.now <= retry <= until
    ensures LimitedBy(Stopped(d.(now := retry), identityState, history), PerSubjectPer30Days)
       <==> retry < until || Remaining(ReTimes(history), until, requested) >= 3
  {
    OnlyLimitsRemain(d, identityState, history, retry);
    CapLiftsIffAt(ReTimes(history), d.now, until, requested, retry);
  }

  /** The cooldown's `blockedUntil` is exact, and at that instant nothing else stops the demand either. */
  lemma CooldownBlocksUntil(d: Demand, identityState: IdentityState, history: seq<HistoryEntry>, retry: int)
    requires LimitedBy(Stopped(d, identityState, history), Cooldown)
    requires d.now <= retry <= Stopped(d, identityState, history).value.blockedUntil
    ensures var again := Stopped(d.(now := retry), identityState, history);
            (LimitedBy(again, Cooldown) <==> retry < Stopped(d, identityState, history).value.blockedUntil)
            && (again.None? <==> retry == Stopped(d, identityState, history).value.blockedUntil)
  {
    OnlyLimitsRemain(d, identityState, history, retry);
    CooldownLifts(ReTimes(history), d.now, retry);
  }

  lemma {:induction false} CapLiftsIntoCooldownAt(times: seq<int>, now: int, until: int, requested: nat)
    requires CappedAt(times, now, until, requested)
    ensures LimitAt(times, until).None?
       <==> Remaining(times, until, requested) < MAX_PER_30_DAYS && until >= LatestAfter(times, now - WINDOW_MS).value + DAY_MS
  {
    var latest := LatestAfter(times, now - WINDOW_MS).value;
    CapIs(times, now);
    CapLiftsIffAt(times, now, until, requested, until);
    if until - WINDOW_MS < latest { LatestStays(times, now - WINDOW_MS, until - WINDOW_MS); }
  }

  /**
   * What the cap's signal does not promise: at its instant the demand goes through
   * exactly when the cap has lifted and the newest re-verification is a day old.
   */
  lemma {:induction false} CapLiftsIntoCooldownIff(d: Demand, identityState: IdentityState, history: seq<HistoryEntry>, until: int, requested: nat)
    requires Stopped(d, identityState, history) == Some(Limited(PerSubjectPer30Days, until, requested))
    ensures Stopped(d.(now := until), identityState, history).None?
       <==> Remaining(ReTimes(history), until, requested) < 3
            && until >= LatestAfter(ReTimes(history), d.now - WINDOW_MS).value + DAY_MS
  {
    OnlyLimitsRemain(d, identityState, history, until);
    CapLiftsIntoCooldownAt(ReTimes(history), d.now, until, requested);
  }

  lemma {:induction false} ThreeTimes(a: int, b: int, c: int, lo: int)
    requires lo < a < b < c
    ensures CountAfter([a, b, c], lo) == 3 && CountAfter([a, b, c], a) == 2
    ensures EarliestAfter([a, b, c], lo) == Some(a) && LatestAfter([a, b, c], a) == Some(c)
  {
    var times := [a, b, c];
    assert times[..2] == [a, b] && [a, b][..1] == [a] && [a][..0] == [];
    assert CountAfter([a], lo) == 1 && CountAfter([a, b], lo) == 2;
    assert CountAfter([a], a) == 0 && CountAfter([a, b], a) == 1;
    assert times[0] == a && times[2] == c;
  }

  /** Three re-verifications, the newest a moment before the oldest leaves the window: the cap lifts into a cooldown. */
  lemma {:induction false} CapLiftsIntoACooldown(d: Demand, identityState: IdentityState, history: seq<HistoryEntry>)
    requires Authorised(d) && d.kind != BySubject && identityState != ReviewRequired && !InFlight(history)
    requires ReTimes(history) == [0, DAY_MS, WINDOW_MS - 1] && d.now == WINDOW_MS - 1
    ensures Stopped(d, identityState, history) == Some(Limited(PerSubjectPer30Days, WINDOW_MS, 3))
    ensures LimitedBy(Stopped(d.(now := WINDOW_MS), identityState, history), Cooldown)
  {
    ThreeTimes(0, DAY_MS, WINDOW_MS - 1, -1);
  }

  // ------------------------------------------------------------------ every run --

  datatype Record = Record(history: seq<HistoryEntry>, clock: int)

  /** Demands, first verifications and attempts settling or reopening, in any order. */
  datatype RecordStep =
    | Demanded(demand: Demand, verificationId: string, identityState: IdentityState)
    | FirstVerification(verificationId: string, at: int)
    | Settled(index: nat, state: AttemptState, at: int)
  {
    function At(): int {
      match this
      case Demanded(demand, _, _) => demand.now
      case FirstVerification(_, at) => at
      case Settled(_, _, at) => at
    }
  }

  function StepRecord(r: Record, step: RecordStep): Record {
    match step
    case Demanded(d, id, identityState) =>
      Record(if Decided(d, identityState, r.history).Ok? then r.history + [HistoryEntry(id, d.now, true, Initiated)] else r.history, d.now)
    case FirstVerification(id, at) => Record(r.history + [HistoryEntry(id, at, false, Initiated)], at)
    case Settled(i, state, at) =>
      Record(if i < |r.history| then r.history[i := r.history[i].(attemptState := state)] else r.history, at)
  }

  /** An accepted demand, and nothing else, adds a re-verification to the record, at its own instant and in flight. */
  lemma StepRecords(r: Record, step: RecordStep)
    ensures
      var after := StepRecord(r, step).history;
      match step
      case Demanded(d, id, identityState) =>
        if Permitted(d) && (d.kind == BySubject ==> identityState == Expired) && identityState in {Verified, Expired}
           && !SomeInFlight(r.history) && Unlimited(r.history, d.now)
        then |after| == |r.history| + 1 && r.history <= after && ReTimes(after) == ReTimes(r.history) + [d.now] && SomeInFlight(after)
        else after == r.history
      case FirstVerification(_, at) =>
        |after| == |r.history| + 1 && r.history <= after && ReTimes(after) == ReTimes(r.history) && SomeInFlight(after)
      case Settled(i, state, _) =>
        |after| == |r.history| && ReTimes(after) == ReTimes(r.history)
        && forall k :: 0 <= k < |after| ==> after[k].attemptState == if k == i then state else r.history[k].attemptState
  {
    var after := StepRecord(r, step).history;
    match step
    case Demanded(d, id, identityState) =>
      AcceptedIff(d, identityState, r.history);
      ReTimesAppend(r.history, HistoryEntry(id, d.now, true, Initiated));
      assert |after| > |r.history| ==> after[|r.history|].attemptState == Initiated;
    case FirstVerification(id, at) =>
      ReTimesAppend(r.history, HistoryEntry(id, at, false, Initiated));
      assert after[|r.history|].attemptState == Initiated;
    case Settled(i, state, at) => if i < |r.history| { ReTimesIgnoreState(r.history, i, state); }
  }

  function RunRecord(r: Record, steps: seq<RecordStep>): Record
    decreases |steps|
  {
    if steps == [] then r else RunRecord(StepRecord(r, steps[0]), steps[1..])
  }

  predicate TimeRuns(r: Record, steps: seq<RecordStep>)
    decreases |steps|
  {
    steps == [] || (r.clock <= steps[0].At() && TimeRuns(StepRecord(r, steps[0]), steps[1..]))
  }

  predicate Spaced(times: seq<int>, gap: int) {
    forall i, j :: 0 <= i < j < |times| ==> times[j] - times[i] >= gap
  }

  predicate RecordInv(r: Record) {
    TimesInv(ReTimes(r.history), r.clock)
  }

  lemma {:induction false} ReTimesAppend(history: seq<HistoryEntry>, e: HistoryEntry)
    ensures ReTimes(history + [e]) == ReTimes(history) + if e.reVerification then [e.requestedAt] else []
  {
    assert (history + [e])[..|history|] == history;
  }

  lemma {:induction false} ReTimesIgnoreState(history: seq<HistoryEntry>, i: nat, state: AttemptState)
    requires i < |history|
    ensures ReTimes(history[i := history[i].(attemptState := state)]) == ReTimes(history)
  {
    var n, next := |history| - 1, history[i := history[i].(attemptState := state)];
    if i < n {
      assert next[..n] == history[..n][i := history[i].(attemptState := state)];
      ReTimesIgnoreState(history[..n], i, state);
    } else {
      assert next[..n] == history[..n];
    }
  }

  predicate TimesInv(times: seq<int>, clock: int) {
    Paced(times, MAX_PER_30_DAYS, WINDOW_MS) && AllAtMost(times, clock) && Spaced(times, DAY_MS)
  }

  lemma UnlimitedKeeps(times: seq<int>, now: int)
    requires TimesInv(times, now) && LimitAt(times, now).None?
    ensures TimesInv(times + [now], now)
  {
    CountAfterIsCountIn(times, now - WINDOW_MS, now);
    PacedExtend(times, now, MAX_PER_30_DAYS, WINDOW_MS);
  }

  lemma {:induction false} StopsCoverLimits(d: Demand, identityState: IdentityState, history: seq<HistoryEntry>)
    requires Decided(d, identityState, history).Ok?
    ensures LimitAt(ReTimes(history), d.now).None?
  {
  }

  lemma AcceptedDemandKeeps(r: Record, d: Demand, id: string, identityState: IdentityState)
    requires TimesInv(ReTimes(r.history), r.clock) && r.clock <= d.now && Decided(d, identityState, r.history).Ok?
    ensures TimesInv(ReTimes(r.history + [HistoryEntry(id, d.now, true, Initiated)]), d.now)
  {
    StopsCoverLimits(d, identityState, r.history);
    UnlimitedKeeps(ReTimes(r.history), d.now);
    ReTimesAppend(r.history, HistoryEntry(id, d.now, true, Initiated));
  }

  lemma StepKeepsRecord(r: Record, step: RecordStep)
    requires RecordInv(r) && r.clock <= step.At()
    ensures RecordInv(StepRecord(r, step))
  {
    match step
    case Demanded(d, id, identityState) =>
      if Decided(d, identityState, r.history).Ok? { AcceptedDemandKeeps(r, d, id, identityState); }
    case FirstVerification(id, at) =>
      ReTimesAppend(r.history, HistoryEntry(id, at, false, Initiated));
      assert ReTimes(StepRecord(r, step).history) == ReTimes(r.history);
    case Settled(i, state, at) => if i < |r.history| { ReTimesIgnoreState(r.history, i, state); }
  }

  lemma {:induction false} RunKeepsRecord(r: Record, steps: seq<RecordStep>)
    requires RecordInv(r) && TimeRuns(r, steps)
    ensures RecordInv(RunRecord(r, steps))
    decreases |steps|
  {
    if steps != [] {
      StepKeepsRecord(r, steps[0]);
      RunKeepsRecord(StepRecord(r, steps[0]), steps[1..]);
    }
  }

  /**
   * Over every run, whoever asks and whatever the identity machine says: at most
   * three re-verifications in any 30 days, and any two at least 24 hours apart.
   */
  lemma NobodyIsHounded(clock: int, steps: seq<RecordStep>, at: int)
    requires TimeRuns(Record([], clock), steps)
    ensures var times := ReTimes(RunRecord(Record([], clock), steps).history);
            CountIn(times, at - 30 * DAY_MS, at) <= 3 && Spaced(times, DAY_MS)
  {
    RunKeepsRecord(Record([], clock), steps);
    NoWindowOverfull(ReTimes(RunRecord(Record([], clock), steps).history), MAX_PER_30_DAYS, WINDOW_MS, at);
  }

  lemma {:induction false} PacedCapLifts(times: seq<int>, now: int, until: int, requested: nat)
    requires Paced(times, MAX_PER_30_DAYS, WINDOW_MS) && AllAtMost(times, now) && CappedAt(times, now, until, requested)
    ensures Remaining(times, until, requested) < MAX_PER_30_DAYS
  {
    CapIs(times, now);
    PacedIsTight(times, MAX_PER_30_DAYS, WINDOW_MS, now);
  }

  /** After any run the history is one the cap accepted, so its `blockedUntil` is the instant it lifts. */
  lemma {:induction false} CapIsExactAfterEveryRun(
    clock: int, steps: seq<RecordStep>, d: Demand, identityState: IdentityState, until: int, requested: nat, retry: int)
    requires TimeRuns(Record([], clock), steps) && RunRecord(Record([], clock), steps).clock <= d.now <= retry <= until
    requires Stopped(d, identityState, RunRecord(Record([], clock), steps).history)
          == Some(Limited(PerSubjectPer30Days, until, requested))
    ensures LimitedBy(Stopped(d.(now := retry), identityState, RunRecord(Record([], clock), steps).history), PerSubjectPer30Days)
       <==> retry < until
  {
    var history := RunRecord(Record([], clock), steps).history;
    RunKeepsRecord(Record([], clock), steps);
    OnlyLimitsRemain(d, identityState, history, retry);
    PacedCapLifts(ReTimes(history), d.now, until, requested);
    CapLiftsIffAt(ReTimes(history), d.now, until, requested, retry);
  }

  predicate Settles(step: RecordStep, i: nat) {
    step.Settled? && step.index == i
  }

  /**
   * While one attempt stays in flight no demand is accepted: over every run that does not
   * settle it the subject's re-verifications are those there were.
   */
  lemma {:induction false} InFlightHoldsDemands(r: Record, steps: seq<RecordStep>, i: nat)
    requires i < |r.history| && r.history[i].attemptState !in {AttemptPassed, AttemptFailed, AttemptExpired}
    requires forall k :: 0 <= k < |steps| ==> !Settles(steps[k], i)
    ensures ReTimes(RunRecord(r, steps).history) == ReTimes(r.history)
    decreases |steps|
  {
    if steps != [] {
      var step, next := steps[0], StepRecord(r, steps[0]);
      assert !Settles(step, i) && SomeInFlight(r.history);
      match step {
        case Demanded(d, id, identityState) => AcceptedIff(d, identityState, r.history);
        case FirstVerification(id, at) => ReTimesAppend(r.history, HistoryEntry(id, at, false, Initiated));
        case Settled(k, state, at) => if k < |r.history| { ReTimesIgnoreState(r.history, k, state); }
      }
      assert next.history[i] == r.history[i];
      InFlightHoldsDemands(next, steps[1..], i);
    }
  }
}
