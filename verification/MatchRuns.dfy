/**
 * When live matches stand on the pair's two current likes: exactly as long as every
 * step is harmless, and so over every run the interaction machine allows. A pair's
 * state is read off the ledgers: matched while a live match exists, then liked, passed,
 * unmatched.
 */
module MatchRuns {
  import opened Core
  import opened Transition
  import opened Interaction
  import opened InteractionRuns
  import opened InteractionAnswers

  predicate OfPair(m: Match, a: UserId, b: UserId) {
    (m.first, m.second) == CanonicalPair(a, b)
  }

  predicate LiveMatchOf(matches: seq<Match>, a: UserId, b: UserId) {
    exists i :: 0 <= i < |matches| && matches[i].ended.None? && OfPair(matches[i], a, b)
  }

  function StateOf(w: World, a: UserId, b: UserId): InteractionState {
    if LiveMatchOf(w.matches, a, b) then InMatchState
    else if CurrentLikeBetween(w.ledger, a, b).Some? then Liked
    else if exists k :: 0 <= k < |w.passes| && w.passes[k].state == PassLive && PassOver(w.passes[k], a, b) then Passed
    else if exists i :: 0 <= i < |w.matches| && OfPair(w.matches[i], a, b) then UnmatchedState
    else Nothing
  }

  function ContextOf(w: World, a: UserId, b: UserId, at: int): InteractionContext {
    InteractionContext(
      a == b, ActiveBlockBetween(a, b, w.blocks).Some?, PassedEitherWay(w.passes, a, b, at),
      CurrentLikeBetween(w.ledger, a, b), CurrentLikeBetween(w.ledger, b, a))
  }

  predicate Legal(w: World, a: UserId, b: UserId, event: InteractionEvent, at: int) {
    InteractionNext(StateOf(w, a, b), event, ContextOf(w, a, b, at)).Ok?
  }

  lemma LegalStates(w: World, a: UserId, b: UserId, event: InteractionEvent, at: int)
    ensures
      var state, c := StateOf(w, a, b), ContextOf(w, a, b, at);
      Legal(w, a, b, event, at)
      <==> match event
           case LikeEvent => a != b && (state == InMatchState || (state != Liked && !c.blocked))
           case PassEvent => a != b && state != InMatchState && state != UnmatchedState
           case MatchEvent => state == Liked && !c.passActive && Reciprocal(c)
           case UnmatchEvent => state == InMatchState
           case WithdrawLikeEvent => state == Liked && !c.blocked
  {
    InteractionTableSays(StateOf(w, a, b), event, ContextOf(w, a, b, at));
  }

  lemma StatesAre(w: World, a: UserId, b: UserId)
    ensures
      var matched, likes := LiveMatchOf(w.matches, a, b), AnyStands(w.ledger, a, b);
      var passed := exists k :: 0 <= k < |w.passes| && w.passes[k].state == PassLive && (w.passes[k].from, w.passes[k].to) == (a, b);
      var over := exists i :: 0 <= i < |w.matches| && (w.matches[i].first, w.matches[i].second) == CanonicalPair(a, b);
      (StateOf(w, a, b) == InMatchState <==> matched)
      && (StateOf(w, a, b) == Liked <==> !matched && likes)
      && (StateOf(w, a, b) == Passed <==> !matched && !likes && passed)
      && (StateOf(w, a, b) == UnmatchedState <==> !matched && !likes && !passed && over)
  {
    CurrentLikeIff(w.ledger, a, b);
  }

  /** What the machine allows between two people, said of what is on record between them. */
  lemma LegalIff(w: World, a: UserId, b: UserId, event: InteractionEvent, at: int)
    requires a != b
    ensures
      var matched, likes := LiveMatchOf(w.matches, a, b), AnyStands(w.ledger, a, b);
      var passed := exists k :: 0 <= k < |w.passes| && w.passes[k].state == PassLive && (w.passes[k].from, w.passes[k].to) == (a, b);
      var over := exists i :: 0 <= i < |w.matches| && (w.matches[i].first, w.matches[i].second) == CanonicalPair(a, b);
      Legal(w, a, b, event, at)
      <==> match event
           case LikeEvent => matched || (!likes && !BlockStands(w.blocks, a, b))
           case PassEvent => !matched && (likes || passed || !over)
           case MatchEvent =>
             !matched && likes && AnyStands(w.ledger, b, a)
             && CurrentLikeBetween(w.ledger, a, b).value.likeId != CurrentLikeBetween(w.ledger, b, a).value.likeId
             && !AnyPassStands(w.passes, a, b, at) && !AnyPassStands(w.passes, b, a, at)
           case UnmatchEvent => matched
           case WithdrawLikeEvent => !matched && likes && !BlockStands(w.blocks, a, b)
  {
    LegalStates(w, a, b, event, at);
    StatesAre(w, a, b);
    CurrentLikeIff(w.ledger, a, b);
    CurrentLikeIff(w.ledger, b, a);
    BlockBetweenIff(a, b, w.blocks);
    EitherPassIff(w.passes, a, b, at);
  }

  /** Nobody likes, passes or matches themselves. */
  lemma SelfIsIllegal(w: World, a: UserId, event: InteractionEvent, at: int)
    ensures event in {LikeEvent, PassEvent, MatchEvent} ==> !Legal(w, a, a, event, at)
  {
    InteractionTableSays(StateOf(w, a, a), event, ContextOf(w, a, a, at));
  }

  /** A step the machine allows; ends are asked for matches on record. */
  predicate Gated(w: World, step: Step) {
    match step
    case DoLike(like, _, _, at) => Legal(w, like.from, like.to, LikeEvent, at)
    case DoPass(pass, at) => Legal(w, pass.from, pass.to, PassEvent, at)
    case DoWithdraw(likeId, at) =>
      forall i :: 0 <= i < |w.ledger| && w.ledger[i].likeId == likeId && IsCurrent(w.ledger[i])
        ==> Legal(w, w.ledger[i].from, w.ledger[i].to, WithdrawLikeEvent, at)
    case DoResolve(a, b, _, _, at) => Legal(w, a, b, MatchEvent, at)
    case DoBlock(_, _) => true
    case DoRelease(_, _) => true
    case DoEndByBlock(_, m, _) => m in w.matches
    case DoUnmatch(m, _, _, _) => m in w.matches
  }

  predicate Holds(ledger: seq<Like>, likeId: string, a: UserId, b: UserId) {
    exists i :: 0 <= i < |ledger| && ledger[i].likeId == likeId
      && ledger[i].from == a && ledger[i].to == b && ledger[i].state == Matched
  }

  predicate Founded(ledger: seq<Like>, m: Match) {
    m.ended.None? ==>
      m.first != m.second && (m.first, m.second) == CanonicalPair(m.first, m.second)
      && Holds(ledger, m.likeIds.0, m.first, m.second) && Holds(ledger, m.likeIds.1, m.second, m.first)
  }

  predicate MatchInv(ledger: seq<Like>, matches: seq<Match>) {
    (forall i :: 0 <= i < |matches| ==> Founded(ledger, matches[i]))
    && forall i, j :: 0 <= i < j < |matches| && matches[i].ended.None? && matches[j].ended.None?
         ==> (matches[i].first, matches[i].second) != (matches[j].first, matches[j].second)
  }

  // ------------------------------------------------------------ preservation --

  /** Rows added at the end, and states changed only outside the likes a live match holds. */
  lemma HeldLikesUntouched(ledger: seq<Like>, next: seq<Like>, matches: seq<Match>)
    requires MatchInv(ledger, matches) && LikesGrow(ledger, next)
    requires forall i, k :: 0 <= i < |ledger| && 0 <= k < |matches| && matches[k].ended.None?
               && ledger[i].state == Matched && ledger[i].likeId in [matches[k].likeIds.0, matches[k].likeIds.1]
               ==> next[i].state == Matched
    ensures MatchInv(next, matches)
  {
    forall k | 0 <= k < |matches| && matches[k].ended.None? ensures Founded(next, matches[k]) {
      var m := matches[k];
      assert Founded(ledger, m);
      var i :| 0 <= i < |ledger| && ledger[i].likeId == m.likeIds.0
        && ledger[i].from == m.first && ledger[i].to == m.second && ledger[i].state == Matched;
      var j :| 0 <= j < |ledger| && ledger[j].likeId == m.likeIds.1
        && ledger[j].from == m.second && ledger[j].to == m.first && ledger[j].state == Matched;
      assert next[i].state == Matched && next[j].state == Matched;
    }
  }

  lemma PairOrder(a: UserId, b: UserId)
    ensures CanonicalPair(a, b) == CanonicalPair(b, a)
    ensures CanonicalPair(a, b) == (a, b) || CanonicalPair(a, b) == (b, a)
  {
    StringLeqTotal(a, b);
  }

  /** A like that a live match holds is a like between the two people of that match. */
  lemma HeldLikePair(ledger: seq<Like>, matches: seq<Match>, i: nat, k: nat)
    requires UniqueLikeIds(ledger) && MatchInv(ledger, matches)
    requires i < |ledger| && k < |matches| && matches[k].ended.None?
    requires ledger[i].likeId in [matches[k].likeIds.0, matches[k].likeIds.1]
    ensures OfPair(matches[k], ledger[i].from, ledger[i].to)
  {
    var m := matches[k];
    assert Founded(ledger, m);
    PairOrder(m.first, m.second);
  }

  /** No live match holds any of these likes. */
  predicate HeldByNone(matches: seq<Match>, likeIds: seq<string>) {
    forall k :: 0 <= k < |matches| && matches[k].ended.None? ==>
      matches[k].likeIds.0 !in likeIds && matches[k].likeIds.1 !in likeIds
  }

  /** Withdrawing likes leaves the live matches founded exactly when none of them holds one. */
  lemma WithdrawKeepsMatchesIff(ledger: seq<Like>, matches: seq<Match>, likeIds: seq<string>)
    requires MatchInv(ledger, matches)
    ensures MatchInv(SetLikeState(ledger, likeIds, Withdrawn), matches) <==> HeldByNone(matches, likeIds)
  {
    var after := SetLikeState(ledger, likeIds, Withdrawn);
    if HeldByNone(matches, likeIds) {
      HeldLikesUntouched(ledger, after, matches);
    } else {
      var k :| 0 <= k < |matches| && matches[k].ended.None?
        && (matches[k].likeIds.0 in likeIds || matches[k].likeIds.1 in likeIds);
      assert forall i :: 0 <= i < |after| && after[i].likeId in likeIds ==> after[i].state == Withdrawn;
      assert !Founded(after, matches[k]);
    }
  }

  /** Likes of pairs that are not matched are held by no live match. */
  lemma UnmatchedAreHeldByNone(ledger: seq<Like>, matches: seq<Match>, likeIds: seq<string>)
    requires UniqueLikeIds(ledger) && MatchInv(ledger, matches)
    requires forall i :: 0 <= i < |ledger| && ledger[i].likeId in likeIds && IsCurrent(ledger[i])
               ==> !LiveMatchOf(matches, ledger[i].from, ledger[i].to)
    ensures HeldByNone(matches, likeIds)
  {
    forall k | 0 <= k < |matches| && matches[k].ended.None?
      ensures matches[k].likeIds.0 !in likeIds && matches[k].likeIds.1 !in likeIds
    {
      var m := matches[k];
      assert Founded(ledger, m);
      PairOrder(m.first, m.second);
      assert forall i :: 0 <= i < |ledger| && ledger[i].likeId in [m.likeIds.0, m.likeIds.1]
               ==> IsCurrent(ledger[i]) ==> LiveMatchOf(matches, ledger[i].from, ledger[i].to)
      by {
        forall i | 0 <= i < |ledger| && ledger[i].likeId in [m.likeIds.0, m.likeIds.1]
          ensures LiveMatchOf(matches, ledger[i].from, ledger[i].to)
        {
          HeldLikePair(ledger, matches, i, k);
        }
      }
    }
  }

  lemma EndKeeps(ledger: seq<Like>, matches: seq<Match>, m: Match, ended: Match)
    requires UniqueLikeIds(ledger) && MatchInv(ledger, matches) && m in matches && m.ended.None? && ended.ended.Some?
    ensures MatchInv(SetLikeState(ledger, [m.likeIds.0, m.likeIds.1], Withdrawn), ReplaceMatch(matches, m, ended))
  {
    var at :| 0 <= at < |matches| && matches[at] == m;
    var after := ReplaceMatch(matches, m, ended);
    forall i | 0 <= i < |ledger| && ledger[i].likeId in [m.likeIds.0, m.likeIds.1]
      ensures !LiveMatchOf(after, ledger[i].from, ledger[i].to)
    {
      HeldLikePair(ledger, matches, i, at);
    }
    UnmatchedAreHeldByNone(ledger, after, [m.likeIds.0, m.likeIds.1]);
    WithdrawKeepsMatchesIff(ledger, after, [m.likeIds.0, m.likeIds.1]);
  }

  // -------------------------------------------------------- without the machine --

  /** A match record the caller ends: one on record, or one whose likes no live match holds. */
  predicate EndsSoundly(w: World, m: Match) {
    m in w.matches || HeldByNone(w.matches, [m.likeIds.0, m.likeIds.1])
  }

  /** What a caller would have to check, since the functions never look at the matches themselves. */
  predicate Harmless(w: World, step: Step) {
    match step
    case DoLike(_, _, _, _) => true
    case DoPass(pass, _) =>
      var r := RecordPass(w.ledger, w.passes, pass);
      r.Ok? && r.value.passes != w.passes ==> !LiveMatchOf(w.matches, pass.from, pass.to)
    case DoWithdraw(likeId, _) => HeldByNone(w.matches, [likeId])
    case DoResolve(a, b, trigger, conversationId, at) =>
      var r := ResolveMatch(a, b, trigger, w.ledger, w.blocks, w.passes, at, conversationId);
      r.Ok? && r.value.MatchCreated? ==> !LiveMatchOf(w.matches, a, b)
    case DoBlock(_, _) => true
    case DoRelease(_, _) => true
    case DoEndByBlock(block, m, at) => ApplyBlockToMatch(block, m, w.ledger, at).Ok? ==> EndsSoundly(w, m)
    case DoUnmatch(m, user, _, _) => m.ended.None? && InMatch(m, user) ==> EndsSoundly(w, m)
  }

  /** Likes only ever marked as matched, and one new match founded on the result. */
  lemma AddMatchKeeps(ledger: seq<Like>, ids: seq<string>, matches: seq<Match>, m: Match)
    requires MatchInv(ledger, matches) && LikesGrow(ledger, SetLikeState(ledger, ids, Matched))
    requires Founded(SetLikeState(ledger, ids, Matched), m) && (m.first, m.second) == CanonicalPair(m.first, m.second)
    requires !LiveMatchOf(matches, m.first, m.second)
    ensures MatchInv(SetLikeState(ledger, ids, Matched), matches + [m])
  {
    HeldLikesUntouched(ledger, SetLikeState(ledger, ids, Matched), matches);
  }

  lemma CreatedIsFounded(w: World, a: UserId, b: UserId, likeId: string, conversationId: Option<string>, at: int)
    requires a != b
    requires var r := ResolveMatch(a, b, likeId, w.ledger, w.blocks, w.passes, at, conversationId);
             r.Ok? && r.value.MatchCreated?
    ensures var r := ResolveMatch(a, b, likeId, w.ledger, w.blocks, w.passes, at, conversationId).value;
            Founded(r.ledger, r.created) && OfPair(r.created, a, b)
  {
    var i, j := MatchCreatedFrom(a, b, likeId, w.ledger, w.blocks, w.passes, at, conversationId);
    var r := ResolveMatch(a, b, likeId, w.ledger, w.blocks, w.passes, at, conversationId).value;
    PairOrder(a, b);
    assert r.ledger[i].state == Matched && r.ledger[j].state == Matched;
  }

  lemma ResolveKeepsMatches(w: World, a: UserId, b: UserId, likeId: string, conversationId: Option<string>, at: int)
    requires LedgerInv(w.ledger, w.passes, at) && MatchInv(w.ledger, w.matches)
    requires a != b && !LiveMatchOf(w.matches, a, b)
    requires var r := ResolveMatch(a, b, likeId, w.ledger, w.blocks, w.passes, at, conversationId);
             r.Ok? && r.value.MatchCreated?
    ensures var r := ResolveMatch(a, b, likeId, w.ledger, w.blocks, w.passes, at, conversationId).value;
            MatchInv(r.ledger, w.matches + [r.created])
  {
    var r := ResolveMatch(a, b, likeId, w.ledger, w.blocks, w.passes, at, conversationId).value;
    var ids, m := [r.created.likeIds.0, r.created.likeIds.1], r.created;
    assert r.ledger == SetLikeState(w.ledger, ids, Matched);
    ResolveKeeps(a, b, likeId, w.ledger, w.blocks, w.passes, at, conversationId);
    CreatedIsFounded(w, a, b, likeId, conversationId, at);
    assert (m.first, m.second) == CanonicalPair(m.first, m.second) == CanonicalPair(a, b) by { PairOrder(a, b); }
    AddMatchKeeps(w.ledger, ids, w.matches, m);
  }

  /** A second live match of one pair. */
  lemma ResolveStepKeepsMatchesIff(w: World, a: UserId, b: UserId, likeId: string, conversationId: Option<string>, at: int)
    requires LedgerInv(w.ledger, w.passes, at) && MatchInv(w.ledger, w.matches)
    requires var r := ResolveMatch(a, b, likeId, w.ledger, w.blocks, w.passes, at, conversationId);
             r.Ok? && r.value.MatchCreated?
    ensures var r := ResolveMatch(a, b, likeId, w.ledger, w.blocks, w.passes, at, conversationId).value;
            MatchInv(r.ledger, w.matches + [r.created]) <==> !LiveMatchOf(w.matches, a, b)
  {
    if !LiveMatchOf(w.matches, a, b) {
      ResolveKeepsMatches(w, a, b, likeId, conversationId, at);
    } else {
      var r := ResolveMatch(a, b, likeId, w.ledger, w.blocks, w.passes, at, conversationId).value;
      CreatedIsFounded(w, a, b, likeId, conversationId, at);
      var k :| 0 <= k < |w.matches| && w.matches[k].ended.None? && OfPair(w.matches[k], a, b);
      var after := w.matches + [r.created];
      assert after[k] == w.matches[k] && after[|w.matches|] == r.created;
    }
  }

  lemma EndKeepsIff(w: World, m: Match, ended: Match)
    requires WorldInv(w) && MatchInv(w.ledger, w.matches) && m.ended.None? && ended.ended.Some?
    ensures MatchInv(SetLikeState(w.ledger, [m.likeIds.0, m.likeIds.1], Withdrawn), ReplaceMatch(w.matches, m, ended))
       <==> EndsSoundly(w, m)
  {
    if m in w.matches {
      EndKeeps(w.ledger, w.matches, m, ended);
    } else {
      assert ReplaceMatch(w.matches, m, ended) == w.matches;
      WithdrawKeepsMatchesIff(w.ledger, w.matches, [m.likeIds.0, m.likeIds.1]);
    }
  }

  lemma WithdrawLikeKeepsMatchesIff(ledger: seq<Like>, matches: seq<Match>, likeId: string)
    requires MatchInv(ledger, matches)
    ensures MatchInv(WithdrawLike(ledger, likeId), matches) <==> HeldByNone(matches, [likeId])
  {
    WithdrawKeepsMatchesIff(ledger, matches, [likeId]);
    forall k | 0 <= k < |matches| && matches[k].ended.None? ensures Founded(ledger, matches[k]) {
    }
  }

  /** Any step, allowed by the machine or not: the live matches stay founded exactly when it is harmless. */
  lemma StepKeepsMatchesIff(w: World, step: Step)
    requires WorldInv(w) && w.clock <= step.at && MatchInv(w.ledger, w.matches)
    ensures MatchInv(Apply(w, step).ledger, Apply(w, step).matches) <==> Harmless(w, step)
  {
    match step
    case DoLike(_, _, _, _) =>
      StepKeepsLedgerIff(w, step);
      HeldLikesUntouched(w.ledger, Apply(w, step).ledger, w.matches);
    case DoPass(pass, _) =>
      var r := RecordPass(w.ledger, w.passes, pass);
      if r.Ok? && r.value.passes != w.passes { UngatedPassKeepsMatchesIff(w, pass); }
    case DoWithdraw(likeId, _) =>
      WithdrawLikeKeepsMatchesIff(w.ledger, w.matches, likeId);
    case DoResolve(a, b, trigger, conversationId, at) =>
      var r := ResolveMatch(a, b, trigger, w.ledger, w.blocks, w.passes, at, conversationId);
      if r.Ok? && r.value.MatchCreated? {
        TimePasses(w.ledger, w.passes, w.clock, at);
        ResolveStepKeepsMatchesIff(w, a, b, trigger, conversationId, at);
      }
    case DoBlock(_, _) =>
    case DoRelease(_, _) =>
    case DoEndByBlock(block, m, at) =>
      var r := ApplyBlockToMatch(block, m, w.ledger, at);
      if r.Ok? { EndKeepsIff(w, m, r.value.ended); }
    case DoUnmatch(m, user, key, at) =>
      var r := Unmatch(w.ledger, m, user, at, key);
      if r.Ok? && m.ended.None? {
        EndKeepsIff(w, m, r.value.ended);
      } else {
        assert ReplaceMatch(w.matches, m, m) == w.matches;
      }
  }

  predicate HarmlessRun(w: World, steps: seq<Step>)
    decreases |steps|
  {
    steps == [] || (Harmless(w, steps[0]) && HarmlessRun(Apply(w, steps[0]), steps[1..]))
  }

  predicate FoundedThroughout(w: World, steps: seq<Step>)
    decreases |steps|
  {
    MatchInv(w.ledger, w.matches) && (steps == [] || FoundedThroughout(Apply(w, steps[0]), steps[1..]))
  }

  /** Every world of a run has its live matches founded, one a pair, exactly when every step of it is harmless. */
  lemma {:induction false} RunKeepsMatchesIff(w: World, steps: seq<Step>)
    requires WorldInv(w) && MatchInv(w.ledger, w.matches) && Forward(w, steps) && NewIds(w, steps)
    ensures FoundedThroughout(w, steps) <==> HarmlessRun(w, steps)
    decreases |steps|
  {
    if steps != [] {
      StepKeepsLedgerIff(w, steps[0]);
      StepKeepsMatchesIff(w, steps[0]);
      if Harmless(w, steps[0]) { RunKeepsMatchesIff(Apply(w, steps[0]), steps[1..]); }
    }
  }

  // ------------------------------------------------------------ with the machine --

  /** From `matched` the machine allows neither a pass, nor a match, nor a withdrawal. */
  lemma AllowedIsUnmatched(w: World, a: UserId, b: UserId, event: InteractionEvent, at: int)
    requires Legal(w, a, b, event, at) && event in [PassEvent, MatchEvent, WithdrawLikeEvent]
    ensures !LiveMatchOf(w.matches, a, b)
  {
    MatchedPairMovesOnlyByUnmatch(event, ContextOf(w, a, b, at));
  }

  /** Whatever the machine allows is harmless. */
  lemma GatedIsHarmless(w: World, step: Step)
    requires WorldInv(w) && Gated(w, step) && MatchInv(w.ledger, w.matches)
    ensures Harmless(w, step)
  {
    match step
    case DoPass(pass, at) => AllowedIsUnmatched(w, pass.from, pass.to, PassEvent, at);
    case DoWithdraw(likeId, at) =>
      forall i | 0 <= i < |w.ledger| && w.ledger[i].likeId in [likeId] && IsCurrent(w.ledger[i])
        ensures !LiveMatchOf(w.matches, w.ledger[i].from, w.ledger[i].to)
      {
        AllowedIsUnmatched(w, w.ledger[i].from, w.ledger[i].to, WithdrawLikeEvent, at);
      }
      UnmatchedAreHeldByNone(w.ledger, w.matches, [likeId]);
    case DoResolve(a, b, _, _, at) => AllowedIsUnmatched(w, a, b, MatchEvent, at);
    case _ =>
  }

  predicate GatedRun(w: World, steps: seq<Step>)
    decreases |steps|
  {
    steps == [] || (Gated(w, steps[0]) && GatedRun(Apply(w, steps[0]), steps[1..]))
  }

  /** Every run of allowed steps keeps each live match founded and one live match per pair. */
  lemma {:induction false} GatedRunKeepsMatches(w: World, steps: seq<Step>)
    requires WorldInv(w) && MatchInv(w.ledger, w.matches)
    requires Forward(w, steps) && NewIds(w, steps) && GatedRun(w, steps)
    ensures WorldInv(Run(w, steps)) && MatchInv(Run(w, steps).ledger, Run(w, steps).matches)
    decreases |steps|
  {
    if steps != [] {
      StepKeepsLedgerIff(w, steps[0]);
      GatedIsHarmless(w, steps[0]);
      StepKeepsMatchesIff(w, steps[0]);
      GatedRunKeepsMatches(Apply(w, steps[0]), steps[1..]);
    }
  }

  // -------------------------------------------------------------- consequences --

  /** A live match's like ids are exactly the pair's two current likes. */
  lemma LiveMatchHoldsBothLikes(w: World, m: Match)
    requires WorldInv(w) && MatchInv(w.ledger, w.matches) && m in w.matches && m.ended.None?
    ensures CurrentLikeBetween(w.ledger, m.first, m.second).Some?
         && CurrentLikeBetween(w.ledger, m.first, m.second).value.likeId == m.likeIds.0
    ensures CurrentLikeBetween(w.ledger, m.second, m.first).Some?
         && CurrentLikeBetween(w.ledger, m.second, m.first).value.likeId == m.likeIds.1
  {
    assert Founded(w.ledger, m);
    var i :| 0 <= i < |w.ledger| && w.ledger[i].likeId == m.likeIds.0
      && w.ledger[i].from == m.first && w.ledger[i].to == m.second && w.ledger[i].state == Matched;
    var j :| 0 <= j < |w.ledger| && w.ledger[j].likeId == m.likeIds.1
      && w.ledger[j].from == m.second && w.ledger[j].to == m.first && w.ledger[j].state == Matched;
    CurrentIsUnique(w.ledger, i);
    CurrentIsUnique(w.ledger, j);
  }

  lemma NoCurrentLeft(w: World, m: Match)
    requires WorldInv(w) && MatchInv(w.ledger, w.matches) && m in w.matches && m.ended.None?
    ensures var after := SetLikeState(w.ledger, [m.likeIds.0, m.likeIds.1], Withdrawn);
            CurrentLikeBetween(after, m.first, m.second).None? && CurrentLikeBetween(after, m.second, m.first).None?
  {
    var after := SetLikeState(w.ledger, [m.likeIds.0, m.likeIds.1], Withdrawn);
    LiveMatchHoldsBothLikes(w, m);
    forall i | 0 <= i < |after|
      ensures !CurrentOver(after[i], m.first, m.second) && !CurrentOver(after[i], m.second, m.first)
    {
      if IsCurrent(w.ledger[i]) { CurrentIsUnique(w.ledger, i); }
    }
  }

  /** Both ways a match ends leave no current like in either direction, and the other standing each. */
  lemma EndingWithdrawsBothLikes(w: World, m: Match, actor: UserId, block: Block, at: int, key: string)
    requires WorldInv(w) && MatchInv(w.ledger, w.matches) && m in w.matches && m.ended.None?
    ensures Unmatch(w.ledger, m, actor, at, key).Ok? <==> InMatch(m, actor)
    ensures Unmatch(w.ledger, m, actor, at, key).Ok? ==>
              var after := Unmatch(w.ledger, m, actor, at, key).value.ledger;
              CurrentLikeBetween(after, m.first, m.second).None? && CurrentLikeBetween(after, m.second, m.first).None?
    ensures ApplyBlockToMatch(block, m, w.ledger, at).Ok? <==> InMatch(m, block.blocker) && InMatch(m, block.blocked)
    ensures ApplyBlockToMatch(block, m, w.ledger, at).Ok? ==>
              var after := ApplyBlockToMatch(block, m, w.ledger, at).value.ledger;
              CurrentLikeBetween(after, m.first, m.second).None? && CurrentLikeBetween(after, m.second, m.first).None?
  {
    NoCurrentLeft(w, m);
  }

  /** Replacing a live match by its end leaves the pair without a live match, and every other record as it was. */
  lemma ReplacedIsOver(w: World, m: Match, ended: Match)
    requires MatchInv(w.ledger, w.matches) && m in w.matches && m.ended.None?
    requires ended.ended.Some? && (ended.first, ended.second) == (m.first, m.second)
    ensures var after := ReplaceMatch(w.matches, m, ended);
            ended in after && !LiveMatchOf(after, m.first, m.second)
            && forall other :: other in w.matches && other != m ==> other in after
  {
    var after := ReplaceMatch(w.matches, m, ended);
    var at :| 0 <= at < |w.matches| && w.matches[at] == m;
    assert after[at] == ended;
    assert Founded(w.ledger, m);
    forall k | 0 <= k < |after| && after[k].ended.None? ensures !OfPair(after[k], m.first, m.second) {
      assert w.matches[k] == after[k] && k != at;
    }
    forall other | other in w.matches && other != m ensures other in after {
      var i :| 0 <= i < |w.matches| && w.matches[i] == other;
      assert after[i] == other;
    }
  }

  /**
   * A block between the two people of a live match ends it, whoever blocked and whether
   * or not the block is on the list yet: no live match of the pair is left, no like of
   * theirs stands in either direction, and everybody else's match is as it was.
   */
  lemma BlockEndsTheMatch(w: World, block: Block, m: Match, at: int)
    requires WorldInv(w) && MatchInv(w.ledger, w.matches) && m in w.matches && m.ended.None?
    requires (block.blocker, block.blocked) == (m.first, m.second) || (block.blocker, block.blocked) == (m.second, m.first)
    ensures var next := Apply(w, DoEndByBlock(block, m, at));
            !LiveMatchOf(next.matches, m.first, m.second)
            && CurrentLikeBetween(next.ledger, m.first, m.second).None? && CurrentLikeBetween(next.ledger, m.second, m.first).None?
            && (exists over :: over in next.matches && over.matchId == m.matchId && over.ended == Some(MatchEnd(EndedByBlock, None, at, None)))
            && (forall other :: other in w.matches && other != m ==> other in next.matches)
            && MatchInv(next.ledger, next.matches)
  {
    var ended := ApplyBlockToMatch(block, m, w.ledger, at).value.ended;
    EndingWithdrawsBothLikes(w, m, block.blocker, block, at, "");
    ReplacedIsOver(w, m, ended);
    EndKeeps(w.ledger, w.matches, m, ended);
  }

  /** So does an unmatch by either of them. */
  lemma UnmatchEndsTheMatch(w: World, m: Match, user: UserId, key: string, at: int)
    requires WorldInv(w) && MatchInv(w.ledger, w.matches) && m in w.matches && m.ended.None?
    requires user == m.first || user == m.second
    ensures var next := Apply(w, DoUnmatch(m, user, key, at));
            !LiveMatchOf(next.matches, m.first, m.second)
            && CurrentLikeBetween(next.ledger, m.first, m.second).None? && CurrentLikeBetween(next.ledger, m.second, m.first).None?
            && (exists over :: over in next.matches && over.matchId == m.matchId && over.ended == Some(MatchEnd(Unmatched, Some(user), at, Some(key))))
            && (forall other :: other in w.matches && other != m ==> other in next.matches)
            && MatchInv(next.ledger, next.matches)
  {
    var ended := Unmatch(w.ledger, m, user, at, key).value.ended;
    EndingWithdrawsBothLikes(w, m, user, Block("", m.first, m.second, at, true), at, key);
    ReplacedIsOver(w, m, ended);
    EndKeeps(w.ledger, w.matches, m, ended);
  }

  /** A retried unmatch with its own key replays, whatever happened to the ledger meanwhile; any other key is refused. */
  lemma UnmatchRetryReplays(ledger: seq<Like>, m: Match, actor: UserId, at: int, key: string,
                            laterLedger: seq<Like>, laterAt: int, laterKey: string)
    requires m.ended.None? && Unmatch(ledger, m, actor, at, key).Ok?
    ensures
      var ended := Unmatch(ledger, m, actor, at, key).value.ended;
      Unmatch(laterLedger, ended, actor, laterAt, laterKey)
        == if laterKey == key then Ok(EndOutcome(ended, laterLedger)) else Err(InvalidTransition)
  {
  }

  // ---------------------------------------------------- where the gate matters --

  lemma OvertakenIsUnique(ledger: seq<Like>, a: UserId, b: UserId, i: nat)
    requires UniqueLikeIds(ledger) && CurrentLikeBetween(ledger, a, b).Some?
    requires i < |ledger| && ledger[i].likeId == CurrentLikeBetween(ledger, a, b).value.likeId
    ensures ledger[i] == CurrentLikeBetween(ledger, a, b).value
  {
    var j :| 0 <= j < |ledger| && ledger[j] == CurrentLikeBetween(ledger, a, b).value;
    assert i == j;
  }

  lemma OnlyOneOvertaken(ledger: seq<Like>, a: UserId, b: UserId)
    requires UniqueLikeIds(ledger) && CurrentLikeBetween(ledger, a, b).Some?
    ensures forall i :: 0 <= i < |ledger| && ledger[i].likeId in [CurrentLikeBetween(ledger, a, b).value.likeId] ==>
              ledger[i] == CurrentLikeBetween(ledger, a, b).value
  {
    forall i | 0 <= i < |ledger| && ledger[i].likeId in [CurrentLikeBetween(ledger, a, b).value.likeId]
      ensures ledger[i] == CurrentLikeBetween(ledger, a, b).value
    {
      OvertakenIsUnique(ledger, a, b, i);
    }
  }

  /**
   * `recordPass` alone never looks at the match: an accepted new pass keeps the live
   * matches founded exactly when its pair is not matched.
   */
  lemma UngatedPassKeepsMatchesIff(w: World, pass: NewPass)
    requires WorldInv(w) && MatchInv(w.ledger, w.matches)
    requires RecordPass(w.ledger, w.passes, pass).Ok?
    requires RecordPass(w.ledger, w.passes, pass).value.passes != w.passes
    ensures MatchInv(RecordPass(w.ledger, w.passes, pass).value.ledger, w.matches)
       <==> !LiveMatchOf(w.matches, pass.from, pass.to)
  {
    var overtaken := CurrentLikeBetween(w.ledger, pass.from, pass.to);
    if LiveMatchOf(w.matches, pass.from, pass.to) {
      var k :| 0 <= k < |w.matches| && w.matches[k].ended.None? && OfPair(w.matches[k], pass.from, pass.to);
      PairOrder(pass.from, pass.to);
      LiveMatchHoldsBothLikes(w, w.matches[k]);
    }
    if overtaken.Some? {
      WithdrawKeepsMatchesIff(w.ledger, w.matches, [overtaken.value.likeId]);
      OnlyOneOvertaken(w.ledger, pass.from, pass.to);
      if !LiveMatchOf(w.matches, pass.from, pass.to) {
        UnmatchedAreHeldByNone(w.ledger, w.matches, [overtaken.value.likeId]);
      }
    }
  }

  /** Ann passes Bob while they are matched: the match lives on and holds a withdrawn like. */
  lemma PassOverAMatchLeavesIt(ledger: seq<Like>, m: Match)
    requires ledger == [Like("x", "ann", "bob", 1, Matched, None), Like("y", "bob", "ann", 2, Matched, None)]
    requires m == Match("match:ann|bob", "ann", "bob", ("x", "y"), (Active, Active), 2, None, None)
    ensures WorldInv(World(ledger, [], [], [m], 2)) && MatchInv(ledger, [m])
    ensures var r := RecordPass(ledger, [], NewPass("p", "ann", "bob", 3));
            r.Ok? && r.value.ledger[0].state == Withdrawn && !MatchInv(r.value.ledger, [m])
  {
    var w := World(ledger, [], [], [m], 2);
    assert StringLeq("ann", "bob");
    assert ledger[0].likeId == "x" && ledger[1].likeId == "y";
    assert Holds(ledger, "x", "ann", "bob") && Holds(ledger, "y", "bob", "ann");
    assert CurrentOver(ledger[0], "ann", "bob");
    assert CurrentLikeBetween(ledger, "ann", "bob") == Some(ledger[0]);
    assert LiveMatchOf([m], "ann", "bob") by { assert [m][0] == m; }
    UngatedPassKeepsMatchesIff(w, NewPass("p", "ann", "bob", 3));
  }

  // -------------------------------------------------------------- convergence --

  /**
   * Whichever of two reciprocal likes triggers the attempt on a ledger holding both,
   * the outcome is the same: same refusal, or same match id, participants, like ids
   * and ledger. Only `createdAt`, the triggering like's own instant, can differ.
   */
  lemma EitherLikeResolvesTheSame(
    ledger: seq<Like>, i: nat, j: nat, blocks: seq<Block>, passes: seq<Pass>, at: int, conversationId: Option<string>)
    requires UniqueLikeIds(ledger) && OneCurrentLike(ledger)
    requires i < |ledger| && j < |ledger| && i != j && IsMutualLike(Some(ledger[i]), Some(ledger[j]))
    ensures var a, b := ledger[i].from, ledger[i].to;
      var r := ResolveMatch(a, b, ledger[i].likeId, ledger, blocks, passes, at, conversationId);
      var s := ResolveMatch(b, a, ledger[j].likeId, ledger, blocks, passes, at, conversationId);
      r.Ok? && s.Ok?
      && (r.value.MatchCreated? || r.value.MatchRefused?)
      && (r.value.MatchRefused? ==> s == r)
      && (r.value.MatchCreated? ==>
            s.value.MatchCreated? && s.value.ledger == r.value.ledger
            && s.value.created == r.value.created.(createdAt := ledger[j].createdAt))
  {
    var a, b := ledger[i].from, ledger[i].to;
    FindsItsOwn(ledger, i);
    FindsItsOwn(ledger, j);
    CurrentIsUnique(ledger, i);
    CurrentIsUnique(ledger, j);
    ActiveBlockSymmetric(a, b, blocks);
    PairOrder(a, b);
    assert PassedEitherWay(passes, a, b, at) == PassedEitherWay(passes, b, a, at);
  }
}
