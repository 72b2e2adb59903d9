/** Who may be shown to whom (`packages/dating/src/discovery.ts` and the pair test of `preferences.ts`). */
module Discovery {
  import opened Core
  import opened Identity
  import opened Interaction

  // -------------------------------------------------------------- compatibility --

  datatype Range = Range(min: int, max: int)

  /** A distance or a limit: never negative. */
  type Km = k: real | k >= 0.0

  datatype Preferences = Preferences(
    ageRange: Option<Range>, seekingGenders: Option<seq<string>>, openTo: Option<seq<string>>, maxDistanceKm: Option<Km>)

  datatype DistanceBand = Under5 | From5To25 | From25To50 | From50To100 | Over100 | UnknownBand

  function MinKm(band: DistanceBand): Km {
    match band
    case Under5 => 0.0
    case From5To25 => 5.0
    case From25To50 => 25.0
    case From50To100 => 50.0
    case Over100 => 100.0
    case UnknownBand => 0.0
  }

  predicate IsWithinDistanceLimit(band: DistanceBand, maxKm: Option<Km>) {
    maxKm.None? || band == UnknownBand || MinKm(band) <= maxKm.value
  }

  function BandOf(km: Km): DistanceBand {
    if km < 5.0 then Under5
    else if km < 25.0 then From5To25
    else if km < 50.0 then From25To50
    else if km < 100.0 then From50To100
    else Over100
  }

  /** Bucketing only widens a page: a person is dropped exactly when everybody of their band is too far. */
  lemma BucketingNeverHides(km: Km, maxKm: Km)
    ensures km <= maxKm ==> IsWithinDistanceLimit(BandOf(km), Some(maxKm))
    ensures IsWithinDistanceLimit(BandOf(km), Some(maxKm)) <==> exists other: Km :: BandOf(other) == BandOf(km) && other <= maxKm
  {
    assert BandOf(MinKm(BandOf(km))) == BandOf(km);
  }

  datatype Side = Side(age: Option<int>, genderIdentities: seq<string>, preferences: Preferences)

  predicate Outside(age: Option<int>, range: Option<Range>) {
    age.Some? && range.Some? && (age.value < range.value.min || age.value > range.value.max)
  }

  predicate Covers(openTo: seq<string>, identities: seq<string>) {
    exists i :: 0 <= i < |identities| && identities[i] in openTo
  }

  predicate AgeBreaks(viewer: Side, candidate: Side) {
    viewer.preferences.ageRange.Some? && candidate.preferences.ageRange.Some?
    && (Outside(candidate.age, viewer.preferences.ageRange) || Outside(viewer.age, candidate.preferences.ageRange))
  }

  predicate DistanceBreaks(viewer: Side, candidate: Side, distance: Option<DistanceBand>) {
    viewer.preferences.maxDistanceKm.Some? && candidate.preferences.maxDistanceKm.Some? && distance.Some?
    && (!IsWithinDistanceLimit(distance.value, viewer.preferences.maxDistanceKm)
        || !IsWithinDistanceLimit(distance.value, candidate.preferences.maxDistanceKm))
  }

  predicate GenderBreaks(viewer: Side, candidate: Side) {
    viewer.preferences.openTo.Some? && candidate.preferences.openTo.Some?
    && (!Covers(viewer.preferences.openTo.value, candidate.genderIdentities)
        || !Covers(candidate.preferences.openTo.value, viewer.genderIdentities))
  }

  datatype Incompatibility = ByAge | ByDistance | ByGender

  const INCOMPATIBILITIES := [ByAge, ByDistance, ByGender]

  predicate Breaks(viewer: Side, candidate: Side, distance: Option<DistanceBand>, dim: Incompatibility) {
    match dim
    case ByAge => AgeBreaks(viewer, candidate)
    case ByDistance => DistanceBreaks(viewer, candidate, distance)
    case ByGender => GenderBreaks(viewer, candidate)
  }

  /** The dimensions that exclude the pair, in the fixed order; compatible when there are none. */
  function ExcludedBy(viewer: Side, candidate: Side, distance: Option<DistanceBand>): seq<Incompatibility> {
    Filter(INCOMPATIBILITIES, (dim: Incompatibility) => Breaks(viewer, candidate, distance, dim))
  }

  lemma {:induction false} FilterAgrees<T(!new)>(s: seq<T>, p: T -> bool, q: T -> bool)
    requires forall x :: x in s ==> p(x) == q(x)
    ensures Filter(s, p) == Filter(s, q)
  {
    if s != [] { FilterAgrees(s[1..], p, q); }
  }

  /** Both sides compute one verdict, naming the same dimensions in the same order. */
  lemma CompatibilityIsMutual(a: Side, b: Side, distance: Option<DistanceBand>)
    ensures ExcludedBy(a, b, distance) == ExcludedBy(b, a, distance)
  {
    FilterAgrees(INCOMPATIBILITIES, (dim: Incompatibility) => Breaks(a, b, distance, dim),
                 (dim: Incompatibility) => Breaks(b, a, distance, dim));
  }

  // ----------------------------------------------------------------- eligibility --

  const BROWSE_DISCOVERY_CAPABILITY := "browse_discovery"

  datatype Subject = Subject(
    userId: UserId, standing: ActionStanding, age: Option<int>, genderIdentities: seq<string>, preferences: Preferences)

  datatype Relationship = Relationship(likes: seq<Like>, passes: seq<Pass>, blocks: seq<Block>, current: Option<Match>)

  datatype Snapshot = Snapshot(
    viewer: Subject, candidate: Subject, relationship: Relationship, distance: Option<DistanceBand>, now: int)

  datatype Reason =
    | ViewerIdentityNotVerified | ViewerLacksDiscoveryCapability | ViewerProfileNotComplete
    | CandidateIdentityNotVerified | CandidateProfileNotComplete | CandidateAccountNotVisible | CandidateCannotReciprocate
    | Blocked | SelfView | AlreadyPassed | AlreadyLiked | AlreadyMatched
    | AgeOutOfRange | GenderOutOfScope | BeyondDistanceLimit | NotMutuallyCompatible

  function SideOf(s: Subject): Side {
    Side(s.age, s.genderIdentities, s.preferences)
  }

  predicate Disqualifies(reason: Reason, s: Snapshot) {
    match reason
    case ViewerIdentityNotVerified => s.viewer.standing.identity != Verified
    case ViewerLacksDiscoveryCapability => BROWSE_DISCOVERY_CAPABILITY !in s.viewer.standing.capabilities
    case ViewerProfileNotComplete => s.viewer.standing.profile != Complete
    case CandidateIdentityNotVerified => s.candidate.standing.identity != Verified
    case CandidateProfileNotComplete => s.candidate.standing.profile != Complete
    case CandidateAccountNotVisible =>
      !s.candidate.standing.visibleInProduct || BROWSE_DISCOVERY_CAPABILITY !in s.candidate.standing.capabilities
    case CandidateCannotReciprocate => LIKE_CAPABILITY !in s.candidate.standing.capabilities
    case Blocked => ActiveBlockBetween(s.viewer.userId, s.candidate.userId, s.relationship.blocks).Some?
    case SelfView => s.viewer.userId == s.candidate.userId
    case AlreadyPassed =>
      exists i :: 0 <= i < |s.relationship.passes|
                  && OwnPassInEffect(s.relationship.passes[i], s.viewer.userId, s.candidate.userId, s.now)
    case AlreadyLiked => CurrentLikeBetween(s.relationship.likes, s.viewer.userId, s.candidate.userId).Some?
    case AlreadyMatched => s.relationship.current.Some? && s.relationship.current.value.ended.None?
    case AgeOutOfRange => Outside(s.candidate.age, s.viewer.preferences.ageRange)
    case GenderOutOfScope =>
      s.viewer.preferences.seekingGenders.Some?
      && !Covers(s.viewer.preferences.seekingGenders.value, s.candidate.genderIdentities)
    case BeyondDistanceLimit =>
      !IsWithinDistanceLimit(if s.distance.Some? then s.distance.value else UnknownBand, s.viewer.preferences.maxDistanceKm)
    case NotMutuallyCompatible => ExcludedBy(SideOf(s.viewer), SideOf(s.candidate), s.distance) != []
  }

  const ELIGIBILITY_RULES: seq<Reason> := [
    ViewerIdentityNotVerified, ViewerLacksDiscoveryCapability, ViewerProfileNotComplete,
    CandidateIdentityNotVerified, CandidateProfileNotComplete, CandidateAccountNotVisible, CandidateCannotReciprocate,
    Blocked, SelfView, AlreadyPassed, AlreadyLiked, AlreadyMatched,
    AgeOutOfRange, GenderOutOfScope, BeyondDistanceLimit, NotMutuallyCompatible
  ]

  /** The first rule that fires. */
  function FirstRule(s: Snapshot, rules: seq<Reason>): (r: Option<Reason>)
    ensures r.Some? ==> exists i :: 0 <= i < |rules| && rules[i] == r.value && Disqualifies(r.value, s)
                                    && forall j :: 0 <= j < i ==> !Disqualifies(rules[j], s)
    ensures r.None? <==> forall i :: 0 <= i < |rules| ==> !Disqualifies(rules[i], s)
  {
    if rules == [] then None
    else if Disqualifies(rules[0], s) then Some(rules[0])
    else
      var r := FirstRule(s, rules[1..]);
      assert forall i :: 1 <= i < |rules| ==> rules[i] == rules[1..][i - 1];
      r
  }

  /** `None` is eligible. The candidate's identity is asked again after the table. */
  function EvaluateEligibility(s: Snapshot, rules: seq<Reason>): Option<Reason> {
    var first := FirstRule(s, rules);
    if first.Some? then first
    else if s.candidate.standing.identity != Verified then Some(CandidateIdentityNotVerified)
    else None
  }

  predicate Eligible(s: Snapshot) {
    EvaluateEligibility(s, ELIGIBILITY_RULES).None?
  }

  /** Whatever table is used, even an empty one, nobody unverified is ever shown, and what the table lets by is refused as that. */
  lemma NobodyUnverifiedIsShown(s: Snapshot, rules: seq<Reason>)
    ensures s.candidate.standing.identity != Verified ==> EvaluateEligibility(s, rules).Some?
    ensures (forall i :: 0 <= i < |rules| ==> !Disqualifies(rules[i], s)) ==>
              EvaluateEligibility(s, rules) == if s.candidate.standing.identity == Verified then None else Some(CandidateIdentityNotVerified)
  {
  }

  function RuleIndex(reason: Reason): (i: nat)
    ensures i < |ELIGIBILITY_RULES| && ELIGIBILITY_RULES[i] == reason
  {
    match reason
    case ViewerIdentityNotVerified => 0
    case ViewerLacksDiscoveryCapability => 1
    case ViewerProfileNotComplete => 2
    case CandidateIdentityNotVerified => 3
    case CandidateProfileNotComplete => 4
    case CandidateAccountNotVisible => 5
    case CandidateCannotReciprocate => 6
    case Blocked => 7
    case SelfView => 8
    case AlreadyPassed => 9
    case AlreadyLiked => 10
    case AlreadyMatched => 11
    case AgeOutOfRange => 12
    case GenderOutOfScope => 13
    case BeyondDistanceLimit => 14
    case NotMutuallyCompatible => 15
  }

  /** Eligible exactly when no reason at all disqualifies: the table leaves none out. */
  lemma EligibleIff(s: Snapshot)
    ensures Eligible(s) <==> forall reason: Reason :: !Disqualifies(reason, s)
  {
    if Eligible(s) {
      forall reason: Reason ensures !Disqualifies(reason, s) {
        assert ELIGIBILITY_RULES[RuleIndex(reason)] == reason;
      }
    }
    if forall reason: Reason :: !Disqualifies(reason, s) {
      assert !Disqualifies(CandidateIdentityNotVerified, s);
    }
  }

  predicate Within(age: Option<int>, range: Option<Range>) {
    age.Some? && range.Some? ==> range.value.min <= age.value <= range.value.max
  }

  predicate CloseEnough(distance: Option<DistanceBand>, maxKm: Option<Km>) {
    distance.Some? && distance.value != UnknownBand && maxKm.Some? ==> MinKm(distance.value) <= maxKm.value
  }

  predicate OpenToEachOther(a: Subject, b: Subject) {
    a.preferences.openTo.Some? && b.preferences.openTo.Some? ==>
      (exists g :: g in b.genderIdentities && g in a.preferences.openTo.value)
      && exists g :: g in a.genderIdentities && g in b.preferences.openTo.value
  }

  lemma CoversIff(openTo: seq<string>, identities: seq<string>)
    ensures Covers(openTo, identities) <==> exists g :: g in identities && g in openTo
  {
    if g :| g in identities && g in openTo {
      var i :| 0 <= i < |identities| && identities[i] == g;
    }
  }

  /** What the preference rules admit: the viewer's filters, and the mutual test where both sides have a say. */
  predicate Suits(s: Snapshot) {
    var v, c := s.viewer, s.candidate;
    Within(c.age, v.preferences.ageRange) && CloseEnough(s.distance, v.preferences.maxDistanceKm)
    && (v.preferences.seekingGenders.Some? ==> exists g :: g in c.genderIdentities && g in v.preferences.seekingGenders.value)
    && (v.preferences.ageRange.Some? ==> Within(v.age, c.preferences.ageRange))
    && (v.preferences.maxDistanceKm.Some? ==> CloseEnough(s.distance, c.preferences.maxDistanceKm))
    && OpenToEachOther(v, c)
  }

  lemma MutualIff(s: Snapshot)
    ensures !Disqualifies(NotMutuallyCompatible, s)
       <==> !Breaks(SideOf(s.viewer), SideOf(s.candidate), s.distance, ByAge)
            && !Breaks(SideOf(s.viewer), SideOf(s.candidate), s.distance, ByDistance)
            && !Breaks(SideOf(s.viewer), SideOf(s.candidate), s.distance, ByGender)
  {
    var excluded := ExcludedBy(SideOf(s.viewer), SideOf(s.candidate), s.distance);
    assert INCOMPATIBILITIES[0] == ByAge && INCOMPATIBILITIES[1] == ByDistance && INCOMPATIBILITIES[2] == ByGender;
    if excluded != [] { assert excluded[0] in excluded; }
    if dim :| dim in INCOMPATIBILITIES && Breaks(SideOf(s.viewer), SideOf(s.candidate), s.distance, dim) { assert dim in excluded; }
  }

  lemma OpenIff(s: Snapshot)
    ensures OpenToEachOther(s.viewer, s.candidate) <==> !GenderBreaks(SideOf(s.viewer), SideOf(s.candidate))
  {
    var v, c := s.viewer.preferences, s.candidate.preferences;
    if v.openTo.Some? { CoversIff(v.openTo.value, s.candidate.genderIdentities); }
    if c.openTo.Some? { CoversIff(c.openTo.value, s.viewer.genderIdentities); }
  }

  /** The preference half of eligibility, said without the rules. */
  lemma SuitsIff(s: Snapshot)
    ensures Suits(s)
       <==> !Disqualifies(AgeOutOfRange, s) && !Disqualifies(GenderOutOfScope, s) && !Disqualifies(BeyondDistanceLimit, s)
            && !Disqualifies(NotMutuallyCompatible, s)
  {
    var seeking := s.viewer.preferences.seekingGenders;
    MutualIff(s);
    OpenIff(s);
    if seeking.Some? { CoversIff(seeking.value, s.candidate.genderIdentities); }
  }

  /** What each reason says of the two people and of what is on record between them. */
  lemma ReasonSays(s: Snapshot, reason: Reason)
    ensures
      var v, c, r := s.viewer, s.candidate, s.relationship;
      Disqualifies(reason, s)
      <==> match reason
           case ViewerIdentityNotVerified => v.standing.identity != Verified
           case ViewerLacksDiscoveryCapability => "browse_discovery" !in v.standing.capabilities
           case ViewerProfileNotComplete => v.standing.profile != Complete
           case CandidateIdentityNotVerified => c.standing.identity != Verified
           case CandidateProfileNotComplete => c.standing.profile != Complete
           case CandidateAccountNotVisible => !(c.standing.visibleInProduct && "browse_discovery" in c.standing.capabilities)
           case CandidateCannotReciprocate => "like" !in c.standing.capabilities
           case Blocked =>
             v.userId != c.userId
             && exists b :: b in r.blocks && b.active && {b.blocker, b.blocked} == {v.userId, c.userId}
           case SelfView => v.userId == c.userId
           case AlreadyPassed =>
             exists p :: p in r.passes && p.state == PassLive && (p.from, p.to) == (v.userId, c.userId)
                         && s.now < p.createdAt + 30 * 86_400_000
           case AlreadyLiked =>
             exists l :: l in r.likes && l.state in {Live, Matched} && (l.from, l.to) == (v.userId, c.userId)
           case AlreadyMatched => r.current.Some? && r.current.value.ended == None
           case AgeOutOfRange => !Within(c.age, v.preferences.ageRange)
           case GenderOutOfScope =>
             v.preferences.seekingGenders.Some? && forall g :: g in c.genderIdentities ==> g !in v.preferences.seekingGenders.value
           case BeyondDistanceLimit => !CloseEnough(s.distance, v.preferences.maxDistanceKm)
           case NotMutuallyCompatible =>
             !((v.preferences.ageRange.Some? && c.preferences.ageRange.Some? ==>
                  Within(c.age, v.preferences.ageRange) && Within(v.age, c.preferences.ageRange))
               && (v.preferences.maxDistanceKm.Some? && c.preferences.maxDistanceKm.Some? ==>
                     CloseEnough(s.distance, v.preferences.maxDistanceKm) && CloseEnough(s.distance, c.preferences.maxDistanceKm))
               && OpenToEachOther(v, c))
  {
    match reason
    case GenderOutOfScope =>
      if s.viewer.preferences.seekingGenders.Some? { CoversIff(s.viewer.preferences.seekingGenders.value, s.candidate.genderIdentities); }
    case NotMutuallyCompatible =>
      MutualIff(s);
      OpenIff(s);
    case _ =>
  }

  lemma EligibleMeans(s: Snapshot, reason: Reason)
    requires Eligible(s)
    ensures !Disqualifies(reason, s)
  {
    EligibleIff(s);
  }

  /** Nothing between the two stands in the way of a first decision by the viewer. */
  predicate Unrelated(s: Snapshot) {
    s.viewer.userId != s.candidate.userId
    && ActiveBlockBetween(s.viewer.userId, s.candidate.userId, s.relationship.blocks).None?
    && CurrentLikeBetween(s.relationship.likes, s.viewer.userId, s.candidate.userId).None?
    && (forall pass :: pass in s.relationship.passes ==> !OwnPassInEffect(pass, s.viewer.userId, s.candidate.userId, s.now))
    && (s.relationship.current.Some? ==> s.relationship.current.value.ended.Some?)
  }

  predicate MayBrowse(viewer: ActionStanding) {
    viewer.identity == Verified && viewer.profile == Complete && BROWSE_DISCOVERY_CAPABILITY in viewer.capabilities
  }

  predicate MayBeShown(s: Snapshot) {
    MayBrowse(s.viewer.standing) && TargetAvailable(s.candidate.standing)
    && BROWSE_DISCOVERY_CAPABILITY in s.candidate.standing.capabilities && Unrelated(s) && Suits(s)
  }

  lemma EligibleMayBeShown(s: Snapshot)
    requires Eligible(s)
    ensures MayBeShown(s)
  {
    SuitsIff(s);
    EligiblePair(s);
    EligibleMeans(s, ViewerLacksDiscoveryCapability);
    EligibleMeans(s, CandidateAccountNotVisible);
    EligibleMeans(s, ViewerIdentityNotVerified);
    EligibleMeans(s, ViewerProfileNotComplete);
    EligibleMeans(s, AlreadyMatched);
    EligibleMeans(s, AgeOutOfRange);
    EligibleMeans(s, GenderOutOfScope);
    EligibleMeans(s, BeyondDistanceLimit);
    EligibleMeans(s, NotMutuallyCompatible);
  }

  lemma NothingDisqualifies(s: Snapshot, reason: Reason)
    requires MayBeShown(s)
    ensures !Disqualifies(reason, s)
  {
    SuitsIff(s);
    assert forall i :: 0 <= i < |s.relationship.passes| ==> s.relationship.passes[i] in s.relationship.passes;
  }

  /** Exactly who is shown to whom, said without the rules. */
  lemma EligibleExactly(s: Snapshot)
    ensures Eligible(s) <==> MayBeShown(s)
  {
    if Eligible(s) { EligibleMayBeShown(s); }
    if MayBeShown(s) {
      forall reason: Reason ensures !Disqualifies(reason, s) { NothingDisqualifies(s, reason); }
      EligibleIff(s);
    }
  }

  // ------------------------------------------------- from being shown to being matched --

  lemma {:induction false} NothingSuperseded(passes: seq<Pass>, a: UserId, b: UserId, at: int)
    requires forall i :: 0 <= i < |passes| ==> !OwnPassInEffect(passes[i], a, b, at)
    ensures SupersedePasses(passes, a, b, at) == passes
    ensures Find(passes, (pass: Pass) => OwnPassInEffect(pass, a, b, at)).None?
  {
  }

  lemma EligiblePair(s: Snapshot)
    requires Eligible(s)
    ensures s.viewer.userId != s.candidate.userId && TargetAvailable(s.candidate.standing)
    ensures ActorMayLike(s.viewer.standing) <==> LIKE_CAPABILITY in s.viewer.standing.capabilities
    ensures ActiveBlockBetween(s.viewer.userId, s.candidate.userId, s.relationship.blocks).None?
    ensures CurrentLikeBetween(s.relationship.likes, s.viewer.userId, s.candidate.userId).None?
    ensures forall i :: 0 <= i < |s.relationship.passes| ==>
              !OwnPassInEffect(s.relationship.passes[i], s.viewer.userId, s.candidate.userId, s.now)
  {
    EligibleMeans(s, SelfView);
    EligibleMeans(s, ViewerIdentityNotVerified);
    EligibleMeans(s, ViewerProfileNotComplete);
    EligibleMeans(s, CandidateIdentityNotVerified);
    EligibleMeans(s, CandidateProfileNotComplete);
    EligibleMeans(s, CandidateAccountNotVisible);
    EligibleMeans(s, CandidateCannotReciprocate);
    EligibleMeans(s, Blocked);
    EligibleMeans(s, AlreadyLiked);
    EligibleMeans(s, AlreadyPassed);
  }

  function LikeOf(s: Snapshot, likeId: string): NewLike {
    NewLike(likeId, s.viewer.userId, s.candidate.userId, s.now)
  }

  function LiveLike(s: Snapshot, likeId: string): Like {
    Like(likeId, s.viewer.userId, s.candidate.userId, s.now, Live, None)
  }

  function LikeShown(s: Snapshot, likeId: string): Result<Outcome, Code> {
    RecordLike(s.relationship.likes, LikeOf(s, likeId), s.viewer.standing, s.candidate.standing,
               s.relationship.blocks, s.relationship.passes, s.now)
  }

  /**
   * Whoever is shown can be liked: on the snapshot that showed a candidate, the like
   * is refused exactly when the viewer lacks the capability to like, and otherwise
   * appends one live like and leaves every pass as it was.
   */
  lemma ShownCanBeLikedIff(s: Snapshot, likeId: string)
    requires Eligible(s)
    ensures LikeShown(s, likeId).Ok? <==> LIKE_CAPABILITY in s.viewer.standing.capabilities
    ensures LikeShown(s, likeId).Ok? ==>
              LikeShown(s, likeId).value == Outcome(s.relationship.likes + [LiveLike(s, likeId)], s.relationship.passes)
  {
    EligiblePair(s);
    NothingSuperseded(s.relationship.passes, s.viewer.userId, s.candidate.userId, s.now);
  }

  lemma OnlyLikesMatter(s: Snapshot, likes: seq<Like>, reason: Reason)
    requires reason != AlreadyLiked
    ensures Disqualifies(reason, s.(relationship := s.relationship.(likes := likes))) <==> Disqualifies(reason, s)
  {
  }

  /** The rules before the one on likes do not see the like. */
  lemma EarlierRulesStaySilent(s: Snapshot, likes: seq<Like>, i: nat)
    requires Eligible(s) && i < 10
    ensures !Disqualifies(ELIGIBILITY_RULES[i], s.(relationship := s.relationship.(likes := likes)))
  {
    EligibleMeans(s, ELIGIBILITY_RULES[i]);
    OnlyLikesMatter(s, likes, ELIGIBILITY_RULES[i]);
  }

  lemma {:induction false} FirstIs(s: Snapshot, rules: seq<Reason>, i: nat)
    requires i < |rules| && Disqualifies(rules[i], s)
    requires forall j :: 0 <= j < i ==> !Disqualifies(rules[j], s)
    ensures FirstRule(s, rules) == Some(rules[i])
  {
  }

  /** Once liked, the candidate is not shown again, and the like is the reason. */
  lemma LikedIsNotShownAgain(s: Snapshot, likeId: string)
    requires Eligible(s) && LikeShown(s, likeId).Ok?
    ensures var after := s.(relationship := s.relationship.(likes := LikeShown(s, likeId).value.ledger));
            EvaluateEligibility(after, ELIGIBILITY_RULES) == Some(AlreadyLiked)
  {
    ShownCanBeLikedIff(s, likeId);
    var likes := s.relationship.likes + [LiveLike(s, likeId)];
    var after := s.(relationship := s.relationship.(likes := likes));
    assert CurrentOver(likes[|likes| - 1], s.viewer.userId, s.candidate.userId);
    forall i | 0 <= i < 10 ensures !Disqualifies(ELIGIBILITY_RULES[i], after) {
      EarlierRulesStaySilent(s, likes, i);
    }
    FirstIs(after, ELIGIBILITY_RULES, 10);
  }

  function PassOf(s: Snapshot, passId: string): NewPass {
    NewPass(passId, s.viewer.userId, s.candidate.userId, s.now)
  }

  /** The snapshot at a later clock, after the viewer passed on the candidate. */
  function AfterPass(s: Snapshot, passId: string, later: int): Snapshot {
    var r := RecordPass(s.relationship.likes, s.relationship.passes, PassOf(s, passId));
    if r.Err? then s.(now := later)
    else s.(now := later, relationship := s.relationship.(likes := r.value.ledger, passes := r.value.passes))
  }

  lemma PassAppended(s: Snapshot, passId: string)
    requires Eligible(s)
    requires forall i :: 0 <= i < |s.relationship.passes| ==>
               !(s.relationship.passes[i].state == PassLive && PassOver(s.relationship.passes[i], s.viewer.userId, s.candidate.userId))
    ensures RecordPass(s.relationship.likes, s.relationship.passes, PassOf(s, passId))
         == Ok(Outcome(s.relationship.likes,
                       s.relationship.passes + [Pass(passId, s.viewer.userId, s.candidate.userId, s.now, PassLive)]))
  {
    EligiblePair(s);
  }

  lemma OnlyPassesMatter(s: Snapshot, passes: seq<Pass>, later: int, reason: Reason)
    requires reason != AlreadyPassed
    ensures Disqualifies(reason, s.(now := later, relationship := s.relationship.(passes := passes))) <==> Disqualifies(reason, s)
  {
  }

  /**
   * Whoever is shown and passed on is hidden for exactly thirty days, with the pass as
   * the reason, and is eligible again from that instant on.
   */
  lemma PassedIsHiddenForThirtyDays(s: Snapshot, passId: string, later: int)
    requires Eligible(s) && s.now <= later
    requires forall i :: 0 <= i < |s.relationship.passes| ==>
               !(s.relationship.passes[i].state == PassLive && PassOver(s.relationship.passes[i], s.viewer.userId, s.candidate.userId))
    ensures EvaluateEligibility(AfterPass(s, passId, later), ELIGIBILITY_RULES)
         == if later < s.now + 30 * 86_400_000 then Some(AlreadyPassed) else None
  {
    PassAppended(s, passId);
    var row := Pass(passId, s.viewer.userId, s.candidate.userId, s.now, PassLive);
    var passes := s.relationship.passes + [row];
    var after := s.(now := later, relationship := s.relationship.(passes := passes));
    assert passes[|passes| - 1] == row;
    forall reason: Reason | reason != AlreadyPassed ensures !Disqualifies(reason, after) {
      EligibleMeans(s, reason);
      OnlyPassesMatter(s, passes, later, reason);
    }
    if later < s.now + 30 * 86_400_000 {
      assert Disqualifies(ELIGIBILITY_RULES[9], after);
      FirstIs(after, ELIGIBILITY_RULES, 9);
    } else {
      assert !Disqualifies(AlreadyPassed, after);
      EligibleIff(after);
    }
  }

  predicate CounterpartPassed(s: Snapshot) {
    exists i :: 0 <= i < |s.relationship.passes|
                && OwnPassInEffect(s.relationship.passes[i], s.candidate.userId, s.viewer.userId, s.now)
  }

  function MatchShown(s: Snapshot, likeId: string, conversationId: Option<string>): Result<MatchResolution, Code>
    requires LikeShown(s, likeId).Ok?
  {
    var liked := LikeShown(s, likeId).value;
    ResolveMatch(s.viewer.userId, s.candidate.userId, likeId, liked.ledger, s.relationship.blocks, liked.passes, s.now, conversationId)
  }

  lemma FreshTrigger(s: Snapshot, likeId: string)
    requires Eligible(s) && LikeShown(s, likeId).Ok?
    requires forall i :: 0 <= i < |s.relationship.likes| ==> s.relationship.likes[i].likeId != likeId
    ensures Find(LikeShown(s, likeId).value.ledger, (like: Like) => like.likeId == likeId)
         == Some(LiveLike(s, likeId))
  {
    ShownCanBeLikedIff(s, likeId);
    var ledger := LikeShown(s, likeId).value.ledger;
    assert ledger[|ledger| - 1] == LiveLike(s, likeId);
    var found := Find(ledger, (like: Like) => like.likeId == likeId);
    var k :| 0 <= k < |ledger| && ledger[k] == found.value;
    assert forall i :: 0 <= i < |ledger| - 1 ==> ledger[i] == s.relationship.likes[i];
    assert k == |ledger| - 1;
  }

  /** Whether the candidate holds a current like over the viewer. */
  predicate LikedBack(s: Snapshot) {
    CurrentLikeBetween(s.relationship.likes, s.candidate.userId, s.viewer.userId).Some?
  }

  /** The candidate's like is found in the longer ledger exactly as in the one before. */
  lemma CounterpartLikeKept(s: Snapshot, likeId: string)
    requires Eligible(s) && LikeShown(s, likeId).Ok?
    ensures var ledger := LikeShown(s, likeId).value.ledger;
            CurrentLikeBetween(ledger, s.candidate.userId, s.viewer.userId).Some? <==> LikedBack(s)
    ensures var other := CurrentLikeBetween(LikeShown(s, likeId).value.ledger, s.candidate.userId, s.viewer.userId);
            other.Some? ==> other.value in s.relationship.likes
  {
    ShownCanBeLikedIff(s, likeId);
    EligiblePair(s);
    var likes, ledger := s.relationship.likes, LikeShown(s, likeId).value.ledger;
    if LikedBack(s) {
      var i :| 0 <= i < |likes| && CurrentOver(likes[i], s.candidate.userId, s.viewer.userId);
      assert ledger[i] == likes[i];
    }
  }

  /**
   * The match attempt that follows a shown like, with a new like id: refused exactly by
   * the candidate's own pass in effect, a match exactly when the candidate likes the
   * viewer back, and otherwise left waiting. It never fails and is never refused as blocked.
   */
  lemma ShownLikeResolves(s: Snapshot, likeId: string, conversationId: Option<string>)
    requires Eligible(s) && LikeShown(s, likeId).Ok?
    requires forall i :: 0 <= i < |s.relationship.likes| ==> s.relationship.likes[i].likeId != likeId
    ensures var r := MatchShown(s, likeId, conversationId);
            r.Ok? && (r.value.MatchRefused? <==> CounterpartPassed(s))
            && (r.value.MatchRefused? ==> r.value.reason == RefusedPassed)
            && (r.value.MatchCreated? <==> !CounterpartPassed(s) && LikedBack(s))
  {
    EligiblePair(s);
    ShownCanBeLikedIff(s, likeId);
    FreshTrigger(s, likeId);
    CounterpartLikeKept(s, likeId);
    PassedEitherWayIff(s);
  }

  lemma PassedEitherWayIff(s: Snapshot)
    requires Eligible(s)
    ensures PassedEitherWay(s.relationship.passes, s.viewer.userId, s.candidate.userId, s.now) <==> CounterpartPassed(s)
  {
    EligiblePair(s);
    var passes := s.relationship.passes;
    if CounterpartPassed(s) {
      var i :| 0 <= i < |passes| && OwnPassInEffect(passes[i], s.candidate.userId, s.viewer.userId, s.now);
      assert IsPassInEffect(passes[i], s.now);
    }
  }

  /** An active block, whoever placed it, stops every one of the three for both people. */
  lemma BlockStopsEverything(
    s: Snapshot, like: NewLike, likeId: string, ledger: seq<Like>, passes: seq<Pass>,
    actor: ActionStanding, target: ActionStanding, at: int, conversationId: Option<string>)
    requires ActiveBlockBetween(s.viewer.userId, s.candidate.userId, s.relationship.blocks).Some?
    requires (like.from == s.viewer.userId && like.to == s.candidate.userId)
          || (like.from == s.candidate.userId && like.to == s.viewer.userId)
    ensures !Eligible(s) && !Eligible(s.(viewer := s.candidate, candidate := s.viewer))
    ensures RecordLike(ledger, like, actor, target, s.relationship.blocks, passes, at).Err?
    ensures var r := ResolveMatch(like.from, like.to, likeId, ledger, s.relationship.blocks, passes, at, conversationId);
            r.Err? || r.value == MatchRefused(RefusedBlocked)
  {
    ActiveBlockSymmetric(s.viewer.userId, s.candidate.userId, s.relationship.blocks);
    var back := s.(viewer := s.candidate, candidate := s.viewer);
    if Eligible(s) { EligibleMeans(s, Blocked); }
    if Eligible(back) { EligibleMeans(back, Blocked); }
  }

  // ------------------------------------------------------------------------ a page --

  /** What the read model answers about one candidate of a viewer's page. */
  datatype Candidate<Card> = Candidate(id: UserId, standing: Option<Subject>, card: Option<Card>, relationship: Relationship, distance: Option<DistanceBand>)

  predicate Shown<Card>(viewer: Subject, c: Candidate<Card>, at: int) {
    c.id != viewer.userId && c.standing.Some? && c.card.Some?
    && Eligible(Snapshot(viewer, c.standing.value, c.relationship, c.distance, at))
  }

  function Cards<Card>(viewer: Subject, candidates: seq<Candidate<Card>>, at: int): seq<Card> {
    if candidates == [] then []
    else
      var last := candidates[|candidates| - 1];
      Cards(viewer, candidates[..|candidates| - 1], at) + if Shown(viewer, last, at) then [last.card.value] else []
  }

  /** Unranked: the cards of the eligible candidates, in the order the candidates came. */
  method SelectEligibleCards<Card>(viewer: Option<Subject>, versionRead: bool, candidates: seq<Candidate<Card>>, at: int)
    returns (cards: seq<Card>)
    ensures !versionRead || viewer.None? ==> cards == []
    ensures versionRead && viewer.Some? ==> cards == Cards(viewer.value, candidates, at)
  {
    cards := [];
    if !versionRead || viewer.None? {
      return;
    }
    for i := 0 to |candidates|
      invariant cards == Cards(viewer.value, candidates[..i], at)
    {
      var c := candidates[i];
      assert candidates[..i + 1][..i] == candidates[..i];
      if c.id == viewer.value.userId {
        continue;
      }
      if c.standing.None? || c.card.None? {
        continue;
      }
      if EvaluateEligibility(Snapshot(viewer.value, c.standing.value, c.relationship, c.distance, at), ELIGIBILITY_RULES).None? {
        cards := cards + [c.card.value];
      }
    }
    assert candidates[..|candidates|] == candidates;
  }

  /** A page is put together candidate by candidate: nobody's card depends on who else came, and the order is kept. */
  lemma {:induction false} PagesConcatenate<Card>(viewer: Subject, some: seq<Candidate<Card>>, more: seq<Candidate<Card>>, at: int)
    ensures Cards(viewer, some + more, at) == Cards(viewer, some, at) + Cards(viewer, more, at)
  {
    if more == [] {
      assert some + more == some;
    } else {
      var n := |more| - 1;
      PagesConcatenate(viewer, some, more[..n], at);
      assert (some + more)[..|some + more| - 1] == some + more[..n];
    }
  }

  /** One candidate fills a place exactly when somebody else with a standing and a card may be shown. */
  lemma {:induction false} CardIff<Card>(viewer: Subject, c: Candidate<Card>, at: int)
    ensures Cards(viewer, [c], at)
         == if c.id != viewer.userId && c.standing.Some? && c.card.Some?
               && MayBeShown(Snapshot(viewer, c.standing.value, c.relationship, c.distance, at))
            then [c.card.value] else []
  {
    assert [c][..0] == [];
    if c.standing.Some? { EligibleExactly(Snapshot(viewer, c.standing.value, c.relationship, c.distance, at)); }
  }

  /** Every card on a page belongs to a verified, complete, visible candidate who can answer a like. */
  lemma {:induction false} PagesShowOnlyTheAvailable<Card>(viewer: Subject, candidates: seq<Candidate<Card>>, at: int, card: Card)
    requires card in Cards(viewer, candidates, at)
    ensures exists c :: c in candidates && c.card == Some(card) && c.id != viewer.userId && c.standing.Some?
                        && TargetAvailable(c.standing.value.standing)
  {
    var n := |candidates| - 1;
    var last := candidates[n];
    if Shown(viewer, last, at) && last.card == Some(card) {
      EligiblePair(Snapshot(viewer, last.standing.value, last.relationship, last.distance, at));
    } else {
      PagesShowOnlyTheAvailable(viewer, candidates[..n], at, card);
    }
  }
}
