/**
 * What every run of the interaction operations keeps, exactly as long as every like it
 * adds has an id of its own: one current like and one live pass per ordered pair, and a
 * history that is never un-happened.
 */
module InteractionRuns {
  import opened Core
  import opened Transition
  import opened Identity
  import opened Interaction

  // ------------------------------------------------------------- invariants --

  predicate UniqueLikeIds(ledger: seq<Like>) {
    forall i, j :: 0 <= i < j < |ledger| ==> ledger[i].likeId != ledger[j].likeId
  }

  predicate OneCurrentLike(ledger: seq<Like>) {
    forall i, j :: 0 <= i < j < |ledger| && IsCurrent(ledger[i]) && IsCurrent(ledger[j])
      ==> (ledger[i].from, ledger[i].to) != (ledger[j].from, ledger[j].to)
  }

  predicate OneLivePass(passes: seq<Pass>) {
    forall i, j :: 0 <= i < j < |passes| && passes[i].state == PassLive && passes[j].state == PassLive
      ==> (passes[i].from, passes[i].to) != (passes[j].from, passes[j].to)
  }

  /** Nobody holds a current like together with their own pass in effect over the same person. */
  predicate NoLikeUnderPass(ledger: seq<Like>, passes: seq<Pass>, at: int) {
    forall i, k :: 0 <= i < |ledger| && 0 <= k < |passes| && IsCurrent(ledger[i]) && IsPassInEffect(passes[k], at)
      ==> (ledger[i].from, ledger[i].to) != (passes[k].from, passes[k].to)
  }

  predicate LedgerInv(ledger: seq<Like>, passes: seq<Pass>, at: int) {
    UniqueLikeIds(ledger) && OneCurrentLike(ledger) && OneLivePass(passes) && NoLikeUnderPass(ledger, passes, at)
  }

  /** Earlier rows survive as a prefix with only `state` changed, and never back towards live. */
  predicate LikesGrow(old_: seq<Like>, new_: seq<Like>) {
    |old_| <= |new_| && forall i :: 0 <= i < |old_| ==>
      new_[i] == old_[i].(state := new_[i].state)
      && (old_[i].state == Withdrawn ==> new_[i].state == Withdrawn)
      && (new_[i].state == Live ==> old_[i].state == Live)
  }

  predicate PassesGrow(old_: seq<Pass>, new_: seq<Pass>) {
    |old_| <= |new_| && forall i :: 0 <= i < |old_| ==>
      new_[i] == old_[i].(state := new_[i].state)
      && (old_[i].state == Superseded ==> new_[i].state == Superseded)
  }

  predicate IdUnused(ledger: seq<Like>, likeId: string) {
    forall i :: 0 <= i < |ledger| ==> ledger[i].likeId != likeId
  }

  // ------------------------------------------------------------- operations --

  lemma TimePasses(ledger: seq<Like>, passes: seq<Pass>, at: int, later: int)
    requires LedgerInv(ledger, passes, at) && at <= later
    ensures LedgerInv(ledger, passes, later)
  {
  }

  /** `recordLike` does not look for its id: ids stay unique exactly when a new row's id was unused. */
  lemma NewLikeKeepsIdsIff(
    ledger: seq<Like>, like: NewLike,
    actor: ActionStanding, target: ActionStanding, blocks: seq<Block>, passes: seq<Pass>, at: int)
    requires UniqueLikeIds(ledger)
    requires RecordLike(ledger, like, actor, target, blocks, passes, at).Ok?
    requires CurrentLikeBetween(ledger, like.from, like.to).None?
    ensures UniqueLikeIds(RecordLike(ledger, like, actor, target, blocks, passes, at).value.ledger)
       <==> IdUnused(ledger, like.likeId)
  {
    var next := RecordLike(ledger, like, actor, target, blocks, passes, at).value.ledger;
    var n := |ledger|;
    assert next[n].likeId == like.likeId && forall i :: 0 <= i < n ==> next[i] == ledger[i];
    if !IdUnused(ledger, like.likeId) {
      var i :| 0 <= i < n && ledger[i].likeId == like.likeId;
      assert next[i].likeId == next[n].likeId;
    }
  }

  /** A live like with a new id, over a pair with no current like and no pass of its owner's in effect. */
  lemma AppendKeeps(ledger: seq<Like>, passes: seq<Pass>, row: Like, at: int)
    requires LedgerInv(ledger, passes, at) && IdUnused(ledger, row.likeId)
    requires CurrentLikeBetween(ledger, row.from, row.to).None?
    requires forall k :: 0 <= k < |passes| && IsPassInEffect(passes[k], at) ==> !PassOver(passes[k], row.from, row.to)
    ensures LedgerInv(ledger + [row], passes, at)
  {
    assert forall i :: 0 <= i < |ledger| ==> (ledger + [row])[i] == ledger[i] && !CurrentOver(ledger[i], row.from, row.to);
  }

  lemma SupersedeKeeps(ledger: seq<Like>, passes: seq<Pass>, from: UserId, to: UserId, at: int)
    requires LedgerInv(ledger, passes, at)
    ensures LedgerInv(ledger, SupersedePasses(passes, from, to, at), at)
    ensures PassesGrow(passes, SupersedePasses(passes, from, to, at))
    ensures var after := SupersedePasses(passes, from, to, at);
            forall k :: 0 <= k < |after| && IsPassInEffect(after[k], at) ==> !PassOver(after[k], from, to)
  {
  }

  /** An accepted like keeps the ledger's invariants exactly when it is on record already or its id is new. */
  lemma RecordLikeKeepsIff(
    ledger: seq<Like>, like: NewLike,
    actor: ActionStanding, target: ActionStanding, blocks: seq<Block>, passes: seq<Pass>, at: int)
    requires LedgerInv(ledger, passes, at)
    requires RecordLike(ledger, like, actor, target, blocks, passes, at).Ok?
    ensures var o := RecordLike(ledger, like, actor, target, blocks, passes, at).value;
            LikesGrow(ledger, o.ledger) && PassesGrow(passes, o.passes)
            && (LedgerInv(o.ledger, o.passes, at)
                <==> CurrentLikeBetween(ledger, like.from, like.to).Some? || IdUnused(ledger, like.likeId))
  {
    var o := RecordLike(ledger, like, actor, target, blocks, passes, at).value;
    if CurrentLikeBetween(ledger, like.from, like.to).None? {
      NewLikeKeepsIdsIff(ledger, like, actor, target, blocks, passes, at);
      SupersedeKeeps(ledger, passes, like.from, like.to, at);
      if IdUnused(ledger, like.likeId) { AppendKeeps(ledger, o.passes, o.ledger[|ledger|], at); }
    }
  }

  /** Withdrawing any set of likes keeps the ledger's invariants. */
  lemma WithdrawKeeps(ledger: seq<Like>, passes: seq<Pass>, likeIds: seq<string>, at: int)
    requires LedgerInv(ledger, passes, at)
    ensures LedgerInv(SetLikeState(ledger, likeIds, Withdrawn), passes, at)
    ensures LikesGrow(ledger, SetLikeState(ledger, likeIds, Withdrawn))
  {
  }

  lemma RecordPassKeeps(ledger: seq<Like>, passes: seq<Pass>, pass: NewPass, at: int)
    requires LedgerInv(ledger, passes, at) && RecordPass(ledger, passes, pass).Ok?
    ensures var o := RecordPass(ledger, passes, pass).value;
            LedgerInv(o.ledger, o.passes, at) && LikesGrow(ledger, o.ledger) && PassesGrow(passes, o.passes)
  {
    var o := RecordPass(ledger, passes, pass).value;
    var overtaken := CurrentLikeBetween(ledger, pass.from, pass.to);
    if overtaken.Some? {
      WithdrawKeeps(ledger, passes, [overtaken.value.likeId], at);
    }
    if |o.passes| > |passes| {
      forall i | 0 <= i < |o.ledger| ensures !CurrentOver(o.ledger[i], pass.from, pass.to) {
        if CurrentOver(ledger[i], pass.from, pass.to) {
          assert overtaken.Some?;
          var j :| 0 <= j < |ledger| && ledger[j] == overtaken.value;
          assert i == j;
        }
      }
    }
  }

  /** Marking two current likes as matched keeps the ledger's invariants. */
  lemma MatchKeeps(ledger: seq<Like>, passes: seq<Pass>, a: string, b: string, at: int)
    requires LedgerInv(ledger, passes, at)
    requires forall i :: 0 <= i < |ledger| && ledger[i].likeId in [a, b] ==> IsCurrent(ledger[i])
    ensures LedgerInv(SetLikeState(ledger, [a, b], Matched), passes, at)
    ensures LikesGrow(ledger, SetLikeState(ledger, [a, b], Matched))
  {
  }

  lemma {:induction false} FindsItsOwn(ledger: seq<Like>, i: nat)
    requires UniqueLikeIds(ledger) && i < |ledger|
    ensures Find(ledger, (like: Like) => like.likeId == ledger[i].likeId) == Some(ledger[i])
  {
    var found := Find(ledger, (like: Like) => like.likeId == ledger[i].likeId);
    var j :| 0 <= j < |ledger| && ledger[j] == found.value;
    assert i == j;
  }

  lemma CurrentIsUnique(ledger: seq<Like>, i: nat)
    requires OneCurrentLike(ledger) && i < |ledger| && IsCurrent(ledger[i])
    ensures CurrentLikeBetween(ledger, ledger[i].from, ledger[i].to) == Some(ledger[i])
  {
    var found := CurrentLikeBetween(ledger, ledger[i].from, ledger[i].to);
    assert CurrentOver(ledger[i], ledger[i].from, ledger[i].to);
    var j :| 0 <= j < |ledger| && ledger[j] == found.value;
    assert i == j;
  }

  /** The two rows behind a created match: each participant's own current like, by index. */
  lemma MatchCreatedFrom(
    actor: UserId, counterpart: UserId, likeId: string, ledger: seq<Like>, blocks: seq<Block>, passes: seq<Pass>,
    at: int, conversationId: Option<string>) returns (i: nat, j: nat)
    requires var r := ResolveMatch(actor, counterpart, likeId, ledger, blocks, passes, at, conversationId);
             r.Ok? && r.value.MatchCreated?
    ensures var m := ResolveMatch(actor, counterpart, likeId, ledger, blocks, passes, at, conversationId).value.created;
            (m.first, m.second) == CanonicalPair(actor, counterpart) && m.ended == None
            && i < |ledger| && ledger[i].likeId == m.likeIds.0 && CurrentOver(ledger[i], m.first, m.second)
            && j < |ledger| && ledger[j].likeId == m.likeIds.1 && CurrentOver(ledger[j], m.second, m.first)
  {
    var trigger := Find(ledger, (like: Like) => like.likeId == likeId).value;
    var other := CurrentLikeBetween(ledger, counterpart, actor).value;
    i :| 0 <= i < |ledger| && ledger[i] == trigger;
    j :| 0 <= j < |ledger| && ledger[j] == other;
    if actor != CanonicalPair(actor, counterpart).0 { i, j := j, i; }
  }

  lemma ResolveKeeps(
    actor: UserId, counterpart: UserId, likeId: string, ledger: seq<Like>, blocks: seq<Block>, passes: seq<Pass>,
    at: int, conversationId: Option<string>)
    requires LedgerInv(ledger, passes, at)
    requires var r := ResolveMatch(actor, counterpart, likeId, ledger, blocks, passes, at, conversationId);
             r.Ok? && r.value.MatchCreated?
    ensures var l := ResolveMatch(actor, counterpart, likeId, ledger, blocks, passes, at, conversationId).value.ledger;
            LedgerInv(l, passes, at) && LikesGrow(ledger, l)
  {
    var i, j := MatchCreatedFrom(actor, counterpart, likeId, ledger, blocks, passes, at, conversationId);
    MatchKeeps(ledger, passes, ledger[i].likeId, ledger[j].likeId, at);
  }

  // -------------------------------------------------------------------- runs --

  datatype World = World(ledger: seq<Like>, passes: seq<Pass>, blocks: seq<Block>, matches: seq<Match>, clock: int)

  /** `m` is the match record the caller holds. */
  datatype Step =
    | DoLike(like: NewLike, actor: ActionStanding, target: ActionStanding, at: int)
    | DoPass(pass: NewPass, at: int)
    | DoWithdraw(likeId: string, at: int)
    | DoResolve(first: UserId, second: UserId, trigger: string, conversationId: Option<string>, at: int)
    | DoBlock(block: Block, at: int)
    | DoRelease(blockId: string, at: int)
    | DoEndByBlock(ending: Block, m: Match, at: int)
    | DoUnmatch(m: Match, user: UserId, key: string, at: int)

  function ReplaceMatch(matches: seq<Match>, was: Match, now: Match): seq<Match> {
    Map(matches, (m: Match) => if m == was then now else m)
  }

  /** A refused operation changes nothing but the clock. */
  function Apply(w: World, step: Step): World {
    var w := w.(clock := step.at);
    match step
    case DoLike(like, actor, target, at) =>
      var r := RecordLike(w.ledger, like, actor, target, w.blocks, w.passes, at);
      if r.Ok? then w.(ledger := r.value.ledger, passes := r.value.passes) else w
    case DoPass(pass, _) =>
      var r := RecordPass(w.ledger, w.passes, pass);
      if r.Ok? then w.(ledger := r.value.ledger, passes := r.value.passes) else w
    case DoWithdraw(likeId, _) => w.(ledger := WithdrawLike(w.ledger, likeId))
    case DoResolve(actor, counterpart, likeId, conversationId, at) =>
      var r := ResolveMatch(actor, counterpart, likeId, w.ledger, w.blocks, w.passes, at, conversationId);
      if r.Ok? && r.value.MatchCreated?
      then w.(ledger := r.value.ledger, matches := w.matches + [r.value.created]) else w
    case DoBlock(block, _) => w.(blocks := w.blocks + [block])
    case DoRelease(blockId, _) =>
      w.(blocks := Map(w.blocks, (b: Block) => if b.blockId == blockId then ReleaseBlock(b) else b))
    case DoEndByBlock(block, m, at) =>
      var r := ApplyBlockToMatch(block, m, w.ledger, at);
      if r.Ok? then w.(ledger := r.value.ledger, matches := ReplaceMatch(w.matches, m, r.value.ended)) else w
    case DoUnmatch(m, actor, key, at) =>
      var r := Unmatch(w.ledger, m, actor, at, key);
      if r.Ok? then w.(ledger := r.value.ledger, matches := ReplaceMatch(w.matches, m, r.value.ended)) else w
  }

  /** A step that adds a like row. */
  predicate Appends(w: World, step: Step) {
    step.DoLike?
    && RecordLike(w.ledger, step.like, step.actor, step.target, w.blocks, w.passes, step.at).Ok?
    && CurrentLikeBetween(w.ledger, step.like.from, step.like.to).None?
  }

  predicate NewId(w: World, step: Step) {
    Appends(w, step) ==> IdUnused(w.ledger, step.like.likeId)
  }

  function Run(w: World, steps: seq<Step>): World
    decreases |steps|
  {
    if steps == [] then w else Run(Apply(w, steps[0]), steps[1..])
  }

  /** The clock does not run backwards. */
  predicate Forward(w: World, steps: seq<Step>)
    decreases |steps|
  {
    steps == [] || (w.clock <= steps[0].at && Forward(Apply(w, steps[0]), steps[1..]))
  }

  /** Every like row the run adds has an id of its own. */
  predicate NewIds(w: World, steps: seq<Step>)
    decreases |steps|
  {
    steps == [] || (NewId(w, steps[0]) && NewIds(Apply(w, steps[0]), steps[1..]))
  }

  predicate WorldInv(w: World) {
    LedgerInv(w.ledger, w.passes, w.clock)
  }

  /** A step keeps the ledger's invariants exactly when the row it adds, if any, has a new id. */
  lemma StepKeepsLedgerIff(w: World, step: Step)
    requires WorldInv(w) && w.clock <= step.at
    ensures NewId(w, step) ==> WorldInv(Apply(w, step))
    ensures !NewId(w, step) ==> !UniqueLikeIds(Apply(w, step).ledger)
    ensures LikesGrow(w.ledger, Apply(w, step).ledger) && PassesGrow(w.passes, Apply(w, step).passes)
  {
    TimePasses(w.ledger, w.passes, w.clock, step.at);
    match step
    case DoLike(like, actor, target, at) =>
      if RecordLike(w.ledger, like, actor, target, w.blocks, w.passes, at).Ok? {
        RecordLikeKeepsIff(w.ledger, like, actor, target, w.blocks, w.passes, at);
        if Appends(w, step) { NewLikeKeepsIdsIff(w.ledger, like, actor, target, w.blocks, w.passes, at); }
      }
    case DoPass(pass, at) =>
      if RecordPass(w.ledger, w.passes, pass).Ok? { RecordPassKeeps(w.ledger, w.passes, pass, at); }
    case DoWithdraw(likeId, at) => WithdrawKeeps(w.ledger, w.passes, [likeId], at);
    case DoResolve(actor, counterpart, likeId, conversationId, at) =>
      var r := ResolveMatch(actor, counterpart, likeId, w.ledger, w.blocks, w.passes, at, conversationId);
      if r.Ok? && r.value.MatchCreated? {
        ResolveKeeps(actor, counterpart, likeId, w.ledger, w.blocks, w.passes, at, conversationId);
      }
    case DoBlock(_, _) =>
    case DoRelease(_, _) =>
    case DoEndByBlock(_, m, at) => WithdrawKeeps(w.ledger, w.passes, [m.likeIds.0, m.likeIds.1], at);
    case DoUnmatch(m, _, _, at) => WithdrawKeeps(w.ledger, w.passes, [m.likeIds.0, m.likeIds.1], at);
  }

  lemma StepKeepsIds(w: World, step: Step)
    ensures |w.ledger| <= |Apply(w, step).ledger|
    ensures forall i :: 0 <= i < |w.ledger| ==> Apply(w, step).ledger[i].likeId == w.ledger[i].likeId
  {
  }

  /** Rows are kept under their ids, so an id used twice stays used twice. */
  lemma {:induction false} RepeatedIdsStay(w: World, steps: seq<Step>)
    requires !UniqueLikeIds(w.ledger)
    ensures !UniqueLikeIds(Run(w, steps).ledger)
    decreases |steps|
  {
    if steps != [] {
      StepKeepsIds(w, steps[0]);
      RepeatedIdsStay(Apply(w, steps[0]), steps[1..]);
    }
  }

  /**
   * Over every run with a clock that does not run backwards: at most one current like
   * and one live pass per ordered pair, never a current like under its owner's own
   * pass, and ids that name one row each, exactly when every added like had a new id;
   * every earlier row is then kept with at most its state moved on.
   */
  lemma {:induction false} RunKeepsLedgerIff(w: World, steps: seq<Step>)
    requires WorldInv(w) && Forward(w, steps)
    ensures WorldInv(Run(w, steps)) <==> NewIds(w, steps)
    ensures NewIds(w, steps) ==> LikesGrow(w.ledger, Run(w, steps).ledger) && PassesGrow(w.passes, Run(w, steps).passes)
    decreases |steps|
  {
    if steps != [] {
      StepKeepsLedgerIff(w, steps[0]);
      if NewId(w, steps[0]) {
        RunKeepsLedgerIff(Apply(w, steps[0]), steps[1..]);
      } else {
        RepeatedIdsStay(Apply(w, steps[0]), steps[1..]);
      }
    }
  }

  // ------------------------------------------------- where the assumptions bite --

  predicate WithdrawnStay(was: seq<Like>, now: seq<Like>) {
    |was| <= |now| && forall i :: 0 <= i < |was| && was[i].state == Withdrawn ==> now[i].state == Withdrawn
  }

  /**
   * A created match leaves every withdrawn like withdrawn exactly when no withdrawn row
   * shares its id with the triggering like or with the counterpart's current like.
   */
  lemma MatchRevivesNothingIff(
    actor: UserId, counterpart: UserId, likeId: string, ledger: seq<Like>, blocks: seq<Block>, passes: seq<Pass>,
    at: int, conversationId: Option<string>)
    requires var r := ResolveMatch(actor, counterpart, likeId, ledger, blocks, passes, at, conversationId);
             r.Ok? && r.value.MatchCreated?
    ensures
      var now := ResolveMatch(actor, counterpart, likeId, ledger, blocks, passes, at, conversationId).value.ledger;
      WithdrawnStay(ledger, now) <==>
        forall i :: 0 <= i < |ledger| && ledger[i].state == Withdrawn ==>
          ledger[i].likeId != likeId && ledger[i].likeId != CurrentLikeBetween(ledger, counterpart, actor).value.likeId
  {
  }

  /** Of all the steps only a created match can bring a withdrawn like back. */
  lemma StepRevivesNothingIff(w: World, step: Step)
    ensures WithdrawnStay(w.ledger, Apply(w, step).ledger) <==>
      (step.DoResolve? ==>
         var r := ResolveMatch(step.first, step.second, step.trigger, w.ledger, w.blocks, w.passes, step.at, step.conversationId);
         r.Ok? && r.value.MatchCreated? ==>
           forall i :: 0 <= i < |w.ledger| && w.ledger[i].state == Withdrawn ==>
             w.ledger[i].likeId != step.trigger
             && w.ledger[i].likeId != CurrentLikeBetween(w.ledger, step.second, step.first).value.likeId)
  {
    if step.DoResolve? {
      var r := ResolveMatch(step.first, step.second, step.trigger, w.ledger, w.blocks, w.passes, step.at, step.conversationId);
      if r.Ok? && r.value.MatchCreated? {
        MatchRevivesNothingIff(step.first, step.second, step.trigger, w.ledger, w.blocks, w.passes, step.at, step.conversationId);
      }
    }
  }

  const MAY_LIKE := ActionStanding(Verified, Complete, [LIKE_CAPABILITY], true)

  function LikeStep(likeId: string, from: UserId, to: UserId, at: int): Step {
    DoLike(NewLike(likeId, from, to, at), MAY_LIKE, MAY_LIKE, at)
  }

  /** One row appended to a ledger that holds no current like of the pair, with nobody blocked or passed. */
  lemma LikeStepAppends(w: World, likeId: string, from: UserId, to: UserId, at: int)
    requires from != to && w.blocks == [] && w.passes == [] && CurrentLikeBetween(w.ledger, from, to).None?
    ensures Apply(w, LikeStep(likeId, from, to, at))
         == w.(ledger := w.ledger + [Like(likeId, from, to, at, Live, None)], clock := at)
  {
    assert MAY_LIKE.capabilities[0] == LIKE_CAPABILITY;
  }

  const REUSED_ID := [Like("x", "ann", "bob", 1, Withdrawn, None), Like("x", "cat", "dan", 3, Live, None),
                      Like("y", "dan", "cat", 4, Live, None)]

  const NOTHING_YET := World([], [], [], [], 0)

  /** The world after a like from nothing and its withdrawal. */
  lemma LikedThenWithdrawn(likeId: string, from: UserId, to: UserId, at: int, later: int)
    requires from != to
    ensures Apply(Apply(NOTHING_YET, LikeStep(likeId, from, to, at)), DoWithdraw(likeId, later))
         == World([Like(likeId, from, to, at, Withdrawn, None)], [], [], [], later)
  {
    LikeStepAppends(NOTHING_YET, likeId, from, to, at);
    var ledger := [Like(likeId, from, to, at, Live, None)];
    assert ledger[0].likeId == likeId && ledger[0].state != Withdrawn;
    assert WithdrawLike(ledger, likeId) == [Like(likeId, from, to, at, Withdrawn, None)];
  }

  /** Two more likes of one pair, in either direction, over a ledger without a current like. */
  lemma LikedBack(w: World, a: string, b: string, from: UserId, to: UserId, at: int, later: int)
    requires from != to && w.blocks == [] && w.passes == []
    requires forall i :: 0 <= i < |w.ledger| ==> !IsCurrent(w.ledger[i])
    ensures Apply(Apply(w, LikeStep(a, from, to, at)), LikeStep(b, to, from, later)).ledger
         == w.ledger + [Like(a, from, to, at, Live, None), Like(b, to, from, later, Live, None)]
  {
    LikeStepAppends(w, a, from, to, at);
    LikeStepAppends(Apply(w, LikeStep(a, from, to, at)), b, to, from, later);
  }

  /** Four steps from nothing: a like, its withdrawal, its id used again elsewhere, and that like returned. */
  lemma ReusedIdIsReached()
    ensures
      var withdrawn := Apply(Apply(NOTHING_YET, LikeStep("x", "ann", "bob", 1)), DoWithdraw("x", 2));
      Apply(Apply(withdrawn, LikeStep("x", "cat", "dan", 3)), LikeStep("y", "dan", "cat", 4)).ledger == REUSED_ID
  {
    LikedThenWithdrawn("x", "ann", "bob", 1, 2);
    LikedBack(World([Like("x", "ann", "bob", 1, Withdrawn, None)], [], [], [], 2), "x", "y", "cat", "dan", 3, 4);
  }

  /** On that ledger, matching the new like brings the old withdrawn like of another pair back. */
  lemma ReusedIdRevivesWithdrawnLike()
    ensures var r := ResolveMatch("dan", "cat", "y", REUSED_ID, [], [], 5, None);
            r.Ok? && r.value.MatchCreated? && r.value.created.likeIds == ("x", "y")
            && REUSED_ID[0].state == Withdrawn && r.value.ledger[0] == REUSED_ID[0].(state := Matched)
  {
    var ledger := REUSED_ID;
    assert ledger[2].likeId == "y" && ledger[0].likeId == "x" && ledger[1].likeId == "x";
    assert Find(ledger, (like: Like) => like.likeId == "y") == Some(ledger[2]);
    assert CurrentOver(ledger[1], "cat", "dan");
    assert CurrentLikeBetween(ledger, "cat", "dan") == Some(ledger[1]);
  }

  /** A pass is refused as a conflict exactly when another live row exists, expired or not. */
  lemma PassConflictIff(ledger: seq<Like>, passes: seq<Pass>, pass: NewPass)
    requires OneLivePass(passes) && pass.from != pass.to
    ensures RecordPass(ledger, passes, pass) == Err(Conflict)
       <==> exists k :: 0 <= k < |passes| && passes[k].state == PassLive
              && PassOver(passes[k], pass.from, pass.to) && passes[k].passId != pass.passId
  {
    var existing := Find(passes, (p: Pass) => p.state == PassLive && PassOver(p, pass.from, pass.to));
    if existing.Some? {
      var j :| 0 <= j < |passes| && passes[j] == existing.value;
      forall k | 0 <= k < |passes| && passes[k].state == PassLive && PassOver(passes[k], pass.from, pass.to)
        ensures k == j
      {
      }
    }
  }

  /**
   * A pass that has run out of its window suppresses nobody, and yet it stays live
   * through its owner's later like and refuses every later pass over the same person.
   */
  lemma ExpiredPassOutlivesTheLike(
    ledger: seq<Like>, like: NewLike, actor: ActionStanding, target: ActionStanding, blocks: seq<Block>,
    passes: seq<Pass>, k: nat, at: int, again: NewPass)
    requires LedgerInv(ledger, passes, at) && k < |passes|
    requires passes[k].state == PassLive && PassOver(passes[k], like.from, like.to) && at >= PassSuppressesUntil(passes[k])
    requires RecordLike(ledger, like, actor, target, blocks, passes, at).Ok?
    requires (again.from, again.to) == (like.from, like.to) && again.passId != passes[k].passId
    ensures var o := RecordLike(ledger, like, actor, target, blocks, passes, at).value;
            o.passes == passes && RecordPass(o.ledger, o.passes, again) == Err(Conflict)
  {
    var o := RecordLike(ledger, like, actor, target, blocks, passes, at).value;
    forall i | 0 <= i < |passes| ensures !OwnPassInEffect(passes[i], like.from, like.to, at) {
    }
    assert o.passes == passes;
    PassConflictIff(o.ledger, o.passes, again);
  }
}
