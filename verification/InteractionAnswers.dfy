/**
 * What each interaction command answers and leaves, row by row: when it is accepted, which
 * refusal it gives otherwise, and everything an accepted one changes.
 */
module InteractionAnswers {
  import opened Core
  import opened Transition
  import opened Identity
  import opened Interaction
  import opened InteractionRuns

  /** A like of `a` over `b` that has not been withdrawn. */
  predicate Stands(like: Like, a: UserId, b: UserId) {
    like.state != Withdrawn && like.from == a && like.to == b
  }

  predicate AnyStands(ledger: seq<Like>, a: UserId, b: UserId) {
    exists i :: 0 <= i < |ledger| && Stands(ledger[i], a, b)
  }

  /** The first such like of a ledger. */
  predicate FirstStands(ledger: seq<Like>, i: int, a: UserId, b: UserId) {
    0 <= i < |ledger| && Stands(ledger[i], a, b) && forall j :: 0 <= j < i ==> !Stands(ledger[j], a, b)
  }

  /** An unreleased block between two people, whoever placed it. */
  predicate BlockStands(blocks: seq<Block>, a: UserId, b: UserId) {
    exists i :: 0 <= i < |blocks| && blocks[i].active && {blocks[i].blocker, blocks[i].blocked} == {a, b}
  }

  /** A pass of `a` over `b` recorded less than thirty days before `at` and not superseded. */
  predicate PassStands(pass: Pass, a: UserId, b: UserId, at: int) {
    pass.state == PassLive && pass.from == a && pass.to == b && at - pass.createdAt < 30 * 86_400_000
  }

  predicate AnyPassStands(passes: seq<Pass>, a: UserId, b: UserId, at: int) {
    exists k :: 0 <= k < |passes| && PassStands(passes[k], a, b, at)
  }

  predicate Able(standing: ActionStanding) {
    standing.identity == Verified && standing.profile == Complete && "like" in standing.capabilities
  }

  // --------------------------------------------------------------------- readings --

  lemma CurrentLikeIff(ledger: seq<Like>, a: UserId, b: UserId)
    ensures CurrentLikeBetween(ledger, a, b).Some? <==> AnyStands(ledger, a, b)
    ensures CurrentLikeBetween(ledger, a, b).Some? ==>
              CurrentLikeBetween(ledger, a, b).value in ledger && Stands(CurrentLikeBetween(ledger, a, b).value, a, b)
  {
    if i :| 0 <= i < |ledger| && Stands(ledger[i], a, b) { assert CurrentOver(ledger[i], a, b); }
  }

  /** The like found is the first that stands. */
  lemma FoundLikeIs(ledger: seq<Like>, a: UserId, b: UserId) returns (i: int)
    requires CurrentLikeBetween(ledger, a, b).Some?
    ensures FirstStands(ledger, i, a, b) && CurrentLikeBetween(ledger, a, b) == Some(ledger[i])
    ensures forall k :: FirstStands(ledger, k, a, b) ==> k == i
  {
    FindIsFirst(ledger, (like: Like) => CurrentOver(like, a, b));
    i :| 0 <= i < |ledger| && ledger[i] == CurrentLikeBetween(ledger, a, b).value
         && forall j :: 0 <= j < i ==> !CurrentOver(ledger[j], a, b);
  }

  lemma BlockBetweenIff(a: UserId, b: UserId, blocks: seq<Block>)
    requires a != b
    ensures ActiveBlockBetween(a, b, blocks).Some? <==> BlockStands(blocks, a, b)
  {
    forall i | 0 <= i < |blocks| ensures TouchesPair(blocks[i], a, b) <==> {blocks[i].blocker, blocks[i].blocked} == {a, b} {
      if {blocks[i].blocker, blocks[i].blocked} == {a, b} {
        assert blocks[i].blocker in {a, b} && blocks[i].blocked in {a, b};
        assert a in {blocks[i].blocker, blocks[i].blocked} && b in {blocks[i].blocker, blocks[i].blocked};
      }
    }
  }

  lemma {:induction false} OwnPassIff(passes: seq<Pass>, a: UserId, b: UserId, at: int)
    ensures forall k :: 0 <= k < |passes| ==> (OwnPassInEffect(passes[k], a, b, at) <==> PassStands(passes[k], a, b, at))
    ensures Find(passes, (pass: Pass) => OwnPassInEffect(pass, a, b, at)).Some? <==> AnyPassStands(passes, a, b, at)
  {
  }

  // ------------------------------------------------------------------------- likes --

  /** Which of the five answers a like gets. */
  lemma LikeAnswerIff(
    ledger: seq<Like>, like: NewLike,
    actor: ActionStanding, target: ActionStanding, blocks: seq<Block>, passes: seq<Pass>, at: int)
    ensures
      var r := RecordLike(ledger, like, actor, target, blocks, passes, at);
      var reachable := Able(target) && target.visibleInProduct && !BlockStands(blocks, like.from, like.to);
      var taken := exists i :: FirstStands(ledger, i, like.from, like.to) && ledger[i].likeId != like.likeId && ledger[i].state == Live;
      (r == Err(ValidationFailed) <==> like.from == like.to)
      && (r == Err(PermissionDenied) <==> like.from != like.to && !Able(actor))
      && (r == Err(NotEligible) <==> like.from != like.to && Able(actor) && !reachable)
      && (r == Err(Conflict) <==> like.from != like.to && Able(actor) && reachable && taken)
      && (r.Ok? <==> like.from != like.to && Able(actor) && reachable && !taken)
  {
    if like.from != like.to { BlockBetweenIff(like.from, like.to, blocks); }
    CurrentLikeIff(ledger, like.from, like.to);
    if CurrentLikeBetween(ledger, like.from, like.to).Some? {
      var i := FoundLikeIs(ledger, like.from, like.to);
    }
  }

  /** What an accepted like leaves: nothing new for one on record, else one live row and its owner's passes superseded. */
  lemma LikeEffectIs(
    ledger: seq<Like>, like: NewLike,
    actor: ActionStanding, target: ActionStanding, blocks: seq<Block>, passes: seq<Pass>, at: int)
    requires RecordLike(ledger, like, actor, target, blocks, passes, at).Ok?
    ensures
      var o := RecordLike(ledger, like, actor, target, blocks, passes, at).value;
      if AnyStands(ledger, like.from, like.to) then o == Outcome(ledger, passes)
      else
        |o.ledger| == |ledger| + 1 && o.ledger[..|ledger|] == ledger
        && o.ledger[|ledger|] == Like(like.likeId, like.from, like.to, like.createdAt, Live, o.ledger[|ledger|].supersededPassId)
        && (match o.ledger[|ledger|].supersededPassId
            case None => !AnyPassStands(passes, like.from, like.to, at)
            case Some(id) => exists k :: 0 <= k < |passes| && PassStands(passes[k], like.from, like.to, at) && passes[k].passId == id)
        && |o.passes| == |passes|
        && forall k :: 0 <= k < |passes| ==>
             o.passes[k] == if PassStands(passes[k], like.from, like.to, at) then passes[k].(state := Superseded) else passes[k]
  {
    CurrentLikeIff(ledger, like.from, like.to);
    OwnPassIff(passes, like.from, like.to, at);
    var found := Find(passes, (pass: Pass) => OwnPassInEffect(pass, like.from, like.to, at));
    if found.Some? {
      var k :| 0 <= k < |passes| && passes[k] == found.value;
    }
  }

  lemma WithdrawalIs(ledger: seq<Like>, likeId: string)
    ensures |WithdrawLike(ledger, likeId)| == |ledger|
    ensures forall i :: 0 <= i < |ledger| ==>
              WithdrawLike(ledger, likeId)[i] == if ledger[i].likeId == likeId then ledger[i].(state := Withdrawn) else ledger[i]
  {
  }

  // ------------------------------------------------------------------------ passes --

  predicate LivePassOver(pass: Pass, a: UserId, b: UserId) {
    pass.state == PassLive && pass.from == a && pass.to == b
  }

  /** Which of the three answers a pass gets: a conflict exactly when its owner's first live pass there is another one. */
  lemma PassAnswerIff(ledger: seq<Like>, passes: seq<Pass>, pass: NewPass)
    ensures
      var r := RecordPass(ledger, passes, pass);
      var taken := exists k :: 0 <= k < |passes| && LivePassOver(passes[k], pass.from, pass.to) && passes[k].passId != pass.passId
                               && forall j :: 0 <= j < k ==> !LivePassOver(passes[j], pass.from, pass.to);
      (r == Err(ValidationFailed) <==> pass.from == pass.to)
      && (r == Err(Conflict) <==> pass.from != pass.to && taken)
      && (r.Ok? <==> pass.from != pass.to && !taken)
  {
    var live := (p: Pass) => p.state == PassLive && PassOver(p, pass.from, pass.to);
    assert forall k :: 0 <= k < |passes| ==> (LivePassOver(passes[k], pass.from, pass.to) <==> live(passes[k]));
    if Find(passes, live).Some? { FindIsFirst(passes, live); }
    if k :| 0 <= k < |passes| && LivePassOver(passes[k], pass.from, pass.to)
            && forall j :: 0 <= j < k ==> !LivePassOver(passes[j], pass.from, pass.to) {
      FirstIsFound(passes, live, k);
    }
  }

  /**
   * What an accepted pass leaves: nothing new for one on record, else one live row, and its
   * owner's first standing like there withdrawn, with any other row of that like's id.
   */
  lemma PassEffectIs(ledger: seq<Like>, passes: seq<Pass>, pass: NewPass)
    requires RecordPass(ledger, passes, pass).Ok?
    ensures
      var o := RecordPass(ledger, passes, pass).value;
      if exists k :: 0 <= k < |passes| && LivePassOver(passes[k], pass.from, pass.to) then o == Outcome(ledger, passes)
      else
        o.passes == passes + [Pass(pass.passId, pass.from, pass.to, pass.createdAt, PassLive)]
        && |o.ledger| == |ledger|
        && forall i :: 0 <= i < |ledger| ==>
             o.ledger[i] == if exists j :: FirstStands(ledger, j, pass.from, pass.to) && ledger[j].likeId == ledger[i].likeId
                            then ledger[i].(state := Withdrawn) else ledger[i]
  {
    var live := (p: Pass) => p.state == PassLive && PassOver(p, pass.from, pass.to);
    assert forall k :: 0 <= k < |passes| ==> (LivePassOver(passes[k], pass.from, pass.to) <==> live(passes[k]));
    CurrentLikeIff(ledger, pass.from, pass.to);
    if CurrentLikeBetween(ledger, pass.from, pass.to).Some? {
      var f := FoundLikeIs(ledger, pass.from, pass.to);
    }
  }

  // ----------------------------------------------------------------------- matching --

  /** The row that triggers an attempt: the first of the id the caller named. */
  predicate Triggers(ledger: seq<Like>, i: int, likeId: string, a: UserId, b: UserId) {
    0 <= i < |ledger| && ledger[i].likeId == likeId && Stands(ledger[i], a, b)
    && forall j :: 0 <= j < i ==> ledger[j].likeId != likeId
  }

  /** A like back: the first that stands the other way, when it is not the trigger itself. */
  predicate LikesBack(ledger: seq<Like>, j: int, likeId: string, a: UserId, b: UserId) {
    FirstStands(ledger, j, b, a) && ledger[j].likeId != likeId
  }

  /** Exactly what a match attempt comes to, in the order block, pass, reciprocity. */
  lemma ResolutionIff(
    actor: UserId, counterpart: UserId, likeId: string,
    ledger: seq<Like>, blocks: seq<Block>, passes: seq<Pass>, at: int, conversationId: Option<string>)
    ensures
      var r := ResolveMatch(actor, counterpart, likeId, ledger, blocks, passes, at, conversationId);
      var blocked := BlockStands(blocks, actor, counterpart);
      var passed := AnyPassStands(passes, actor, counterpart, at) || AnyPassStands(passes, counterpart, actor, at);
      var back := exists j :: LikesBack(ledger, j, likeId, actor, counterpart);
      (r.Ok? <==> actor != counterpart && exists i :: Triggers(ledger, i, likeId, actor, counterpart))
      && (r.Err? ==> r.error == ValidationFailed)
      && (r.Ok? ==>
            (r.value == MatchRefused(RefusedBlocked) <==> blocked)
            && (r.value == MatchRefused(RefusedPassed) <==> !blocked && passed)
            && (r.value == AwaitingCounterpart(ledger) <==> !blocked && !passed && !back)
            && (r.value.MatchCreated? <==> !blocked && !passed && back))
  {
    TriggerIff(ledger, likeId, actor, counterpart);
    if actor != counterpart { BlockBetweenIff(actor, counterpart, blocks); }
    EitherPassIff(passes, actor, counterpart, at);
    CurrentLikeIff(ledger, counterpart, actor);
    if CurrentLikeBetween(ledger, counterpart, actor).Some? {
      var j := FoundLikeIs(ledger, counterpart, actor);
      assert ledger[j].likeId != likeId ==> LikesBack(ledger, j, likeId, actor, counterpart);
    }
  }

  lemma TriggerIff(ledger: seq<Like>, likeId: string, a: UserId, b: UserId)
    ensures var trigger := Find(ledger, (like: Like) => like.likeId == likeId);
            (trigger.Some? && CurrentOver(trigger.value, a, b)) <==> exists i :: Triggers(ledger, i, likeId, a, b)
  {
    var named := (like: Like) => like.likeId == likeId;
    if Find(ledger, named).Some? {
      FindIsFirst(ledger, named);
      var i :| 0 <= i < |ledger| && ledger[i] == Find(ledger, named).value && forall j :: 0 <= j < i ==> !named(ledger[j]);
      assert CurrentOver(ledger[i], a, b) ==> Triggers(ledger, i, likeId, a, b);
    }
    if i :| Triggers(ledger, i, likeId, a, b) { FirstIsFound(ledger, named, i); }
  }

  lemma EitherPassIff(passes: seq<Pass>, a: UserId, b: UserId, at: int)
    ensures PassedEitherWay(passes, a, b, at) <==> AnyPassStands(passes, a, b, at) || AnyPassStands(passes, b, a, at)
  {
    if i :| 0 <= i < |passes| && IsPassInEffect(passes[i], at) && (PassOver(passes[i], a, b) || PassOver(passes[i], b, a)) {
      assert PassStands(passes[i], a, b, at) || PassStands(passes[i], b, a, at);
    }
    if k :| 0 <= k < |passes| && (PassStands(passes[k], a, b, at) || PassStands(passes[k], b, a, at)) {
      assert IsPassInEffect(passes[k], at);
    }
  }

  /** The match created, whole, and what it marks: every row of one of its two ids. */
  lemma CreationIs(
    actor: UserId, counterpart: UserId, likeId: string, i: int, j: int,
    ledger: seq<Like>, blocks: seq<Block>, passes: seq<Pass>, at: int, conversationId: Option<string>)
    requires Triggers(ledger, i, likeId, actor, counterpart) && LikesBack(ledger, j, likeId, actor, counterpart)
    requires var r := ResolveMatch(actor, counterpart, likeId, ledger, blocks, passes, at, conversationId);
             r.Ok? && r.value.MatchCreated?
    ensures
      var r := ResolveMatch(actor, counterpart, likeId, ledger, blocks, passes, at, conversationId).value;
      var m := r.created;
      ((m.first, m.second, m.likeIds) == (actor, counterpart, (likeId, ledger[j].likeId))
       || (m.first, m.second, m.likeIds) == (counterpart, actor, (ledger[j].likeId, likeId)))
      && StringLeq(m.first, m.second) && m.matchId == "match:" + m.first + "|" + m.second
      && m.standings == (Active, Active) && m.createdAt == ledger[i].createdAt && m.ended == None && m.conversationId == conversationId
      && |r.ledger| == |ledger|
      && forall k :: 0 <= k < |ledger| ==>
           r.ledger[k] == if ledger[k].likeId == likeId || ledger[k].likeId == ledger[j].likeId
                          then ledger[k].(state := Matched) else ledger[k]
  {
    FirstIsFound(ledger, (like: Like) => like.likeId == likeId, i);
    CurrentLikeIff(ledger, counterpart, actor);
    var f := FoundLikeIs(ledger, counterpart, actor);
    StringLeqTotal(actor, counterpart);
  }

  // ------------------------------------------------------------------------ endings --

  /** The rows named are withdrawn, and no other changes. */
  predicate BothWithdrawn(ledger: seq<Like>, after: seq<Like>, m: Match) {
    |after| == |ledger|
    && forall i :: 0 <= i < |ledger| ==>
         after[i] == if ledger[i].likeId == m.likeIds.0 || ledger[i].likeId == m.likeIds.1
                     then ledger[i].(state := Withdrawn) else ledger[i]
  }

  /**
   * A block ends a match exactly when it is between two of its people and the match is
   * not over: by the system, at that instant, closed by the one who blocked.
   */
  lemma BlockEndsIff(block: Block, m: Match, ledger: seq<Like>, at: int)
    ensures
      var r := ApplyBlockToMatch(block, m, ledger, at);
      var between := block.blocker in [m.first, m.second] && block.blocked in [m.first, m.second];
      (r == Err(ValidationFailed) <==> !between)
      && (r == Err(InvalidTransition) <==> between && m.ended.Some?)
      && (r.Ok? <==> between && m.ended.None?)
      && (r.Ok? ==>
            BothWithdrawn(ledger, r.value.ledger, m)
            && r.value.ended == m.(ended := Some(MatchEnd(EndedByBlock, None, at, None)), standings := r.value.ended.standings)
            && (m.first != m.second ==>
                  r.value.ended.standings.0 == (if block.blocker == m.first then ClosedByActor else ClosedByTarget)
                  && r.value.ended.standings.1 == (if block.blocker == m.second then ClosedByActor else ClosedByTarget)))
  {
  }

  /** Either participant ends a live match; over an ended one only the retry of that very unmatch is accepted. */
  lemma UnmatchIff(ledger: seq<Like>, m: Match, actor: UserId, at: int, key: string)
    ensures
      var r := Unmatch(ledger, m, actor, at, key);
      var inside := actor == m.first || actor == m.second;
      var replay := m.ended.Some? && m.ended.value.cause == Unmatched && m.ended.value.key == Some(key);
      (r == Err(PermissionDenied) <==> !inside)
      && (r == Err(InvalidTransition) <==> inside && m.ended.Some? && !replay)
      && (r.Ok? <==> inside && (m.ended.None? || replay))
      && (r.Ok? && m.ended.Some? ==> r.value == EndOutcome(m, ledger))
      && (r.Ok? && m.ended.None? ==>
            BothWithdrawn(ledger, r.value.ledger, m)
            && r.value.ended == m.(standings := (ClosedByActor, ClosedByActor),
                                   ended := Some(MatchEnd(Unmatched, Some(actor), at, Some(key)))))
  {
  }

  // ------------------------------------------------------------------------ machine --

  /** Two different likes that stand in opposite directions between two people. */
  predicate Reciprocal(c: InteractionContext) {
    c.like.Some? && c.counterpartLike.Some? && c.counterpartLike.value.state != Withdrawn
    && Stands(c.like.value, c.counterpartLike.value.to, c.counterpartLike.value.from)
    && c.like.value.from != c.like.value.to && c.like.value.likeId != c.counterpartLike.value.likeId
  }

  /** Where each event leads, and what it takes: every edge of the interaction machine. */
  lemma InteractionTableSays(state: InteractionState, event: InteractionEvent, c: InteractionContext)
    ensures InteractionNext(state, event, c)
         == match event
            case LikeEvent =>
              if state == InMatchState then Answer(true, !c.self, InMatchState)
              else Answer(state in [Nothing, Passed, UnmatchedState], !c.self && !c.blocked, Liked)
            case PassEvent => Answer(state in [Nothing, Passed, Liked], !c.self, Passed)
            case MatchEvent => Answer(state == Liked, !c.passActive && Reciprocal(c), InMatchState)
            case UnmatchEvent => Answer(state == InMatchState, true, UnmatchedState)
            case WithdrawLikeEvent => Answer(state == Liked, !c.blocked, Nothing)
  {
    match event
    case LikeEvent => LikeRow(state, c);
    case PassEvent => PassRow(state, c);
    case MatchEvent => RowAt(4, state, event, c);
    case UnmatchEvent => RowAt(5, state, event, c);
    case WithdrawLikeEvent => RowAt(6, state, event, c);
  }

  /** An event whose one row is the `k`th. */
  lemma RowAt(k: nat, state: InteractionState, event: InteractionEvent, c: InteractionContext)
    requires 4 <= k <= 6 && INTERACTION_TABLE[k].event == event
    ensures InteractionNext(state, event, c)
         == Answer(state in INTERACTION_TABLE[k].from.value, INTERACTION_TABLE[k].Passes(c), INTERACTION_TABLE[k].to)
  {
    OneRowDecides(INTERACTION_TABLE, k, state, event, c);
  }

  lemma NoRowBut(event: InteractionEvent, a: nat, b: nat, state: InteractionState)
    requires (event, a, b) == (LikeEvent, 0, 1) || (event, a, b) == (PassEvent, 2, 3)
    requires !INTERACTION_TABLE[a].Legal(state, event) && !INTERACTION_TABLE[b].Legal(state, event)
    ensures forall k :: 0 <= k < |INTERACTION_TABLE| ==> !INTERACTION_TABLE[k].Legal(state, event)
  {
  }

  lemma LikeRow(state: InteractionState, c: InteractionContext)
    ensures InteractionNext(state, LikeEvent, c)
         == if state in [Nothing, Passed, UnmatchedState] then Answer(true, !c.self && !c.blocked, Liked)
            else Answer(state == InMatchState, !c.self, InMatchState)
  {
    if state in [Nothing, Passed, UnmatchedState] {
      assert INTERACTION_TABLE[0].Legal(state, LikeEvent);
      NextAt(INTERACTION_TABLE, 0, state, LikeEvent, c);
    } else if state == InMatchState {
      assert !INTERACTION_TABLE[0].Legal(state, LikeEvent) && INTERACTION_TABLE[1].Legal(state, LikeEvent);
      NextAt(INTERACTION_TABLE, 1, state, LikeEvent, c);
    } else {
      NoRowBut(LikeEvent, 0, 1, state);
    }
  }

  lemma PassRow(state: InteractionState, c: InteractionContext)
    ensures InteractionNext(state, PassEvent, c) == Answer(state in [Nothing, Passed, Liked], !c.self, Passed)
  {
    if state in [Nothing, Passed] {
      assert INTERACTION_TABLE[2].Legal(state, PassEvent);
      NextAt(INTERACTION_TABLE, 2, state, PassEvent, c);
    } else if state == Liked {
      assert !INTERACTION_TABLE[2].Legal(state, PassEvent) && INTERACTION_TABLE[3].Legal(state, PassEvent);
      NextAt(INTERACTION_TABLE, 3, state, PassEvent, c);
    } else {
      NoRowBut(PassEvent, 2, 3, state);
    }
  }

  // ------------------------------------------------------------------------- blocks --

  /** Releasing a block lifts the rows of that id and no other, and touches nothing else. */
  lemma ReleaseIs(w: World, blockId: string, at: int)
    ensures
      var after := Apply(w, DoRelease(blockId, at));
      |after.blocks| == |w.blocks| && (after.ledger, after.passes, after.matches) == (w.ledger, w.passes, w.matches)
      && forall i :: 0 <= i < |w.blocks| ==>
           after.blocks[i] == if w.blocks[i].blockId == blockId then w.blocks[i].(active := false) else w.blocks[i]
  {
  }

  /** A block is put at the end of those on record, whatever else is true of the pair. */
  lemma PlacingIs(w: World, block: Block, at: int)
    ensures Apply(w, DoBlock(block, at)) == w.(blocks := w.blocks + [block], clock := at)
  {
  }

  /** So a pair is blocked afterwards exactly when a block of another id stands between the two. */
  lemma BlockedAfterReleaseIff(w: World, blockId: string, at: int, a: UserId, b: UserId)
    requires a != b
    ensures ActiveBlockBetween(a, b, Apply(w, DoRelease(blockId, at)).blocks).Some?
       <==> exists i :: 0 <= i < |w.blocks| && w.blocks[i].blockId != blockId && w.blocks[i].active
                        && {w.blocks[i].blocker, w.blocks[i].blocked} == {a, b}
  {
    var after := Apply(w, DoRelease(blockId, at)).blocks;
    ReleaseIs(w, blockId, at);
    BlockBetweenIff(a, b, after);
    if i :| 0 <= i < |w.blocks| && w.blocks[i].blockId != blockId && w.blocks[i].active && {w.blocks[i].blocker, w.blocks[i].blocked} == {a, b} {
      assert after[i] == w.blocks[i];
    }
  }
}
