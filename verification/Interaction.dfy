/**
 * Likes, passes, blocks and matches (`likes.ts`, `passes.ts`, `blocks.ts` and
 * `interaction.ts` of `packages/dating/src`). Every function returns a new value.
 */
module Interaction {
  import opened Core
  import opened Transition
  import opened Identity

  type UserId = string

  // ----------------------------------------------------------------- passes --

  const PASS_SUPPRESSION_DAYS := 30
  const DAY_MS := 86_400_000

  datatype PassState = PassLive | Superseded

  datatype Pass = Pass(passId: string, from: UserId, to: UserId, createdAt: int, state: PassState)

  function PassSuppressesUntil(pass: Pass): int {
    pass.createdAt + PASS_SUPPRESSION_DAYS * DAY_MS
  }

  predicate IsPassInEffect(pass: Pass, at: int) {
    pass.state == PassLive && at < PassSuppressesUntil(pass)
  }

  predicate PassOver(pass: Pass, a: UserId, b: UserId) {
    pass.from == a && pass.to == b
  }

  // ----------------------------------------------------------------- blocks --

  datatype Block = Block(blockId: string, blocker: UserId, blocked: UserId, createdAt: int, active: bool)

  predicate TouchesPair(block: Block, a: UserId, b: UserId) {
    (block.blocker == a && block.blocked == b) || (block.blocker == b && block.blocked == a)
  }

  function CreateBlock(blocker: UserId, blocked: UserId, blockId: string, at: int): Result<Block, Code> {
    if blocker == blocked then Err(ValidationFailed) else Ok(Block(blockId, blocker, blocked, at, true))
  }

  function ReleaseBlock(block: Block): Block {
    block.(active := false)
  }

  function ActiveBlockBetween(a: UserId, b: UserId, blocks: seq<Block>): Option<Block> {
    Find(blocks, (block: Block) => block.active && a != b && TouchesPair(block, a, b))
  }

  lemma ActiveBlockSymmetric(a: UserId, b: UserId, blocks: seq<Block>)
    ensures ActiveBlockBetween(a, b, blocks).None? <==> ActiveBlockBetween(b, a, blocks).None?
  {
  }

  /** A block holds in both directions as soon as it is placed, and its release restores what stood before. */
  lemma BlockHoldsUntilReleased(blocks: seq<Block>, blocker: UserId, blocked: UserId, blockId: string, at: int)
    requires blocker != blocked
    ensures CreateBlock(blocker, blocked, blockId, at).Ok? && CreateBlock(blocker, blocker, blockId, at) == Err(ValidationFailed)
    ensures var placed := CreateBlock(blocker, blocked, blockId, at).value;
            ActiveBlockBetween(blocker, blocked, blocks + [placed]).Some? && ActiveBlockBetween(blocked, blocker, blocks + [placed]).Some?
            && (ActiveBlockBetween(blocker, blocked, blocks + [ReleaseBlock(placed)]).Some?
                <==> ActiveBlockBetween(blocker, blocked, blocks).Some?)
  {
    var placed := CreateBlock(blocker, blocked, blockId, at).value;
    var longer, released := blocks + [placed], blocks + [ReleaseBlock(placed)];
    assert longer[|blocks|] == placed && released[|blocks|] == ReleaseBlock(placed);
    if ActiveBlockBetween(blocker, blocked, blocks).Some? {
      var i :| 0 <= i < |blocks| && blocks[i] == ActiveBlockBetween(blocker, blocked, blocks).value;
      assert released[i] == blocks[i];
    }
  }

  // ------------------------------------------------------------------ likes --

  datatype LikeState = Live | Withdrawn | Matched

  datatype Like = Like(
    likeId: string, from: UserId, to: UserId, createdAt: int,
    state: LikeState, supersededPassId: Option<string>)

  datatype NewLike = NewLike(likeId: string, from: UserId, to: UserId, createdAt: int)

  predicate IsCurrent(like: Like) {
    like.state == Live || like.state == Matched
  }

  predicate CurrentOver(like: Like, a: UserId, b: UserId) {
    IsCurrent(like) && like.from == a && like.to == b
  }

  predicate IsMutualLike(like: Option<Like>, counterpart: Option<Like>) {
    like.Some? && counterpart.Some?
    && IsCurrent(like.value) && IsCurrent(counterpart.value)
    && like.value.from != like.value.to
    && like.value.from == counterpart.value.to && like.value.to == counterpart.value.from
    && like.value.likeId != counterpart.value.likeId
  }

  function CurrentLikeBetween(ledger: seq<Like>, a: UserId, b: UserId): Option<Like> {
    Find(ledger, (like: Like) => CurrentOver(like, a, b))
  }

  datatype ProfileState = Draft | Incomplete | Complete | Paused | Hidden | Deleted

  datatype ActionStanding = ActionStanding(
    identity: IdentityState, profile: ProfileState, capabilities: seq<string>, visibleInProduct: bool)

  const LIKE_CAPABILITY := "like"

  datatype Outcome = Outcome(ledger: seq<Like>, passes: seq<Pass>)

  predicate ActorMayLike(actor: ActionStanding) {
    actor.identity == Verified && LIKE_CAPABILITY in actor.capabilities && actor.profile == Complete
  }

  predicate TargetAvailable(target: ActionStanding) {
    target.identity == Verified && target.profile == Complete
    && target.visibleInProduct && LIKE_CAPABILITY in target.capabilities
  }

  predicate OwnPassInEffect(pass: Pass, a: UserId, b: UserId, at: int) {
    PassOver(pass, a, b) && IsPassInEffect(pass, at)
  }

  function SupersedePasses(passes: seq<Pass>, a: UserId, b: UserId, at: int): seq<Pass> {
    Map(passes, (pass: Pass) => if OwnPassInEffect(pass, a, b, at) then pass.(state := Superseded) else pass)
  }

  function RecordLike(
    ledger: seq<Like>, like: NewLike,
    actor: ActionStanding, target: ActionStanding, blocks: seq<Block>, passes: seq<Pass>, at: int
  ): Result<Outcome, Code> {
    if like.from == like.to then Err(ValidationFailed)
    else if !ActorMayLike(actor) then Err(PermissionDenied)
    else if !TargetAvailable(target) || ActiveBlockBetween(like.from, like.to, blocks).Some? then Err(NotEligible)
    else
      var existing := CurrentLikeBetween(ledger, like.from, like.to);
      if existing.Some? then
        if existing.value.likeId == like.likeId || existing.value.state == Matched then Ok(Outcome(ledger, passes))
        else Err(Conflict)
      else
        var overridden := Find(passes, (pass: Pass) => OwnPassInEffect(pass, like.from, like.to, at));
        var passId := if overridden.Some? then Some(overridden.value.passId) else None;
        Ok(Outcome(
          ledger + [Like(like.likeId, like.from, like.to, like.createdAt, Live, passId)],
          SupersedePasses(passes, like.from, like.to, at)))
  }

  function SetLikeState(ledger: seq<Like>, likeIds: seq<string>, state: LikeState): seq<Like> {
    Map(ledger, (like: Like) => if like.likeId in likeIds then like.(state := state) else like)
  }

  function WithdrawLike(ledger: seq<Like>, likeId: string): seq<Like> {
    if exists i :: 0 <= i < |ledger| && ledger[i].likeId == likeId && ledger[i].state != Withdrawn
    then SetLikeState(ledger, [likeId], Withdrawn)
    else ledger
  }

  datatype NewPass = NewPass(passId: string, from: UserId, to: UserId, createdAt: int)

  function RecordPass(ledger: seq<Like>, passes: seq<Pass>, pass: NewPass): Result<Outcome, Code> {
    if pass.from == pass.to then Err(ValidationFailed)
    else
      var existing := Find(passes, (p: Pass) => p.state == PassLive && PassOver(p, pass.from, pass.to));
      if existing.Some? then
        if existing.value.passId == pass.passId then Ok(Outcome(ledger, passes)) else Err(Conflict)
      else
        var overtaken := CurrentLikeBetween(ledger, pass.from, pass.to);
        Ok(Outcome(
          if overtaken.None? then ledger else SetLikeState(ledger, [overtaken.value.likeId], Withdrawn),
          passes + [Pass(pass.passId, pass.from, pass.to, pass.createdAt, PassLive)]))
  }

  // ---------------------------------------------------------------- matches --

  datatype MatchStanding = Active | DormantTargetUnverified | RestrictedByTarget | ClosedByTarget | ClosedByActor

  datatype EndCause = Unmatched | EndedByBlock

  /** `actorId == None` is the system; `key` is present for an end a party asked for. */
  datatype MatchEnd = MatchEnd(cause: EndCause, actorId: Option<UserId>, at: int, key: Option<string>)

  datatype Match = Match(
    matchId: string, first: UserId, second: UserId, likeIds: (string, string),
    standings: (MatchStanding, MatchStanding), createdAt: int,
    ended: Option<MatchEnd>, conversationId: Option<string>)

  function CanonicalPair(a: UserId, b: UserId): (UserId, UserId) {
    if StringLeq(a, b) then (a, b) else (b, a)
  }

  function DeriveMatchId(a: UserId, b: UserId): string {
    var pair := CanonicalPair(a, b);
    "match:" + pair.0 + "|" + pair.1
  }

  datatype RefusalReason = RefusedBlocked | RefusedPassed

  datatype MatchResolution =
    | AwaitingCounterpart(ledger: seq<Like>)
    | MatchCreated(created: Match, ledger: seq<Like>)
    | MatchRefused(reason: RefusalReason)

  predicate PassedEitherWay(passes: seq<Pass>, a: UserId, b: UserId, at: int) {
    exists i :: 0 <= i < |passes| && IsPassInEffect(passes[i], at)
      && (PassOver(passes[i], a, b) || PassOver(passes[i], b, a))
  }

  /** `likeId` names the like that triggered the attempt. */
  function ResolveMatch(
    actor: UserId, counterpart: UserId, likeId: string,
    ledger: seq<Like>, blocks: seq<Block>, passes: seq<Pass>, at: int, conversationId: Option<string>
  ): Result<MatchResolution, Code> {
    if actor == counterpart then Err(ValidationFailed)
    else
      var trigger := Find(ledger, (like: Like) => like.likeId == likeId);
      if trigger.None? || !CurrentOver(trigger.value, actor, counterpart) then Err(ValidationFailed)
      else if ActiveBlockBetween(actor, counterpart, blocks).Some? then Ok(MatchRefused(RefusedBlocked))
      else if PassedEitherWay(passes, actor, counterpart, at) then Ok(MatchRefused(RefusedPassed))
      else
        var other := CurrentLikeBetween(ledger, counterpart, actor);
        if other.None? || other.value.likeId == trigger.value.likeId then Ok(AwaitingCounterpart(ledger))
        else
          var pair := CanonicalPair(actor, counterpart);
          var likeIds := if trigger.value.from == pair.0
                         then (trigger.value.likeId, other.value.likeId)
                         else (other.value.likeId, trigger.value.likeId);
          Ok(MatchCreated(
            Match(DeriveMatchId(actor, counterpart), pair.0, pair.1, likeIds, (Active, Active),
                  trigger.value.createdAt, None, conversationId),
            SetLikeState(ledger, [likeIds.0, likeIds.1], Matched)))
  }

  predicate InMatch(m: Match, user: UserId) {
    user == m.first || user == m.second
  }

  datatype EndOutcome = EndOutcome(ended: Match, ledger: seq<Like>)

  function ApplyBlockToMatch(block: Block, m: Match, ledger: seq<Like>, at: int): Result<EndOutcome, Code> {
    if !InMatch(m, block.blocker) || !InMatch(m, block.blocked) then Err(ValidationFailed)
    else if m.ended.Some? then Err(InvalidTransition)
    else
      var standings := if m.first == block.blocker then (ClosedByActor, ClosedByTarget) else (ClosedByTarget, ClosedByActor);
      Ok(EndOutcome(
        m.(standings := standings, ended := Some(MatchEnd(EndedByBlock, None, at, None))),
        SetLikeState(ledger, [m.likeIds.0, m.likeIds.1], Withdrawn)))
  }

  function Unmatch(ledger: seq<Like>, m: Match, actor: UserId, at: int, key: string): Result<EndOutcome, Code> {
    if !InMatch(m, actor) then Err(PermissionDenied)
    else if m.ended.Some? then
      if m.ended.value.cause == Unmatched && m.ended.value.key == Some(key) then Ok(EndOutcome(m, ledger))
      else Err(InvalidTransition)
    else
      Ok(EndOutcome(
        m.(standings := (ClosedByActor, ClosedByActor), ended := Some(MatchEnd(Unmatched, Some(actor), at, Some(key)))),
        SetLikeState(ledger, [m.likeIds.0, m.likeIds.1], Withdrawn)))
  }

  // ---------------------------------------------------------------- machine --

  datatype InteractionState = Nothing | Liked | Passed | InMatchState | UnmatchedState

  datatype InteractionEvent = LikeEvent | PassEvent | MatchEvent | UnmatchEvent | WithdrawLikeEvent

  datatype InteractionContext = InteractionContext(
    self: bool, blocked: bool, passActive: bool, like: Option<Like>, counterpartLike: Option<Like>)

  const INTERACTION_TABLE: seq<Row<InteractionState, InteractionEvent, InteractionContext>> := [
    Row(LikeEvent, Some([Nothing, Passed, UnmatchedState]), Liked, Some((c: InteractionContext) => !c.self && !c.blocked)),
    Row(LikeEvent, Some([InMatchState]), InMatchState, Some((c: InteractionContext) => !c.self)),
    Row(PassEvent, Some([Nothing, Passed]), Passed, Some((c: InteractionContext) => !c.self)),
    Row(PassEvent, Some([Liked]), Passed, Some((c: InteractionContext) => !c.self)),
    Row(MatchEvent, Some([Liked]), InMatchState,
        Some((c: InteractionContext) => !c.passActive && IsMutualLike(c.like, c.counterpartLike))),
    Row(UnmatchEvent, Some([InMatchState]), UnmatchedState, None),
    Row(WithdrawLikeEvent, Some([Liked]), Nothing, Some((c: InteractionContext) => !c.blocked))
  ]

  function InteractionNext(state: InteractionState, event: InteractionEvent, context: InteractionContext)
    : Result<InteractionState, Code>
  {
    Next(INTERACTION_TABLE, state, event, context)
  }

  lemma NoOtherRowFromMatched(event: InteractionEvent)
    requires event != LikeEvent && event != UnmatchEvent
    ensures forall k :: 0 <= k < |INTERACTION_TABLE| ==> !INTERACTION_TABLE[k].Legal(InMatchState, event)
  {
  }

  /** What the table forbids while a pair is matched: everything but a repeat like and an unmatch. */
  lemma MatchedPairMovesOnlyByUnmatch(event: InteractionEvent, context: InteractionContext)
    ensures InteractionNext(InMatchState, event, context).Ok?
       <==> event == UnmatchEvent || (event == LikeEvent && !context.self)
    ensures event == LikeEvent && !context.self ==> InteractionNext(InMatchState, event, context) == Ok(InMatchState)
  {
    if event == LikeEvent {
      assert !INTERACTION_TABLE[0].Legal(InMatchState, event) && INTERACTION_TABLE[1].Legal(InMatchState, event);
      NextAt(INTERACTION_TABLE, 1, InMatchState, event, context);
    } else if event == UnmatchEvent {
      assert INTERACTION_TABLE[5].Legal(InMatchState, event);
      NextAt(INTERACTION_TABLE, 5, InMatchState, event, context);
    } else {
      NoOtherRowFromMatched(event);
    }
  }

  /** A match needs two distinct reciprocal current likes and no pass in effect, from `liked` only. */
  lemma MatchEventIff(state: InteractionState, context: InteractionContext)
    ensures InteractionNext(state, MatchEvent, context).Ok?
       <==> state == Liked && !context.passActive && IsMutualLike(context.like, context.counterpartLike)
  {
    if state == Liked {
      assert INTERACTION_TABLE[4].Legal(state, MatchEvent);
      NextAt(INTERACTION_TABLE, 4, state, MatchEvent, context);
    }
  }
}
