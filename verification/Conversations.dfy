/** The conversation lifecycle (`packages/communication/src/conversation.ts`) and who may read it. */
module Conversations {
  import opened Core
  import opened Transition
  import opened Messaging

  datatype ConversationEvent = BlockApplied | BlockLifted | FreezeForRestriction | UnfreezeOnRestrictionLift | UnmatchConversation | EndConversation

  datatype ConversationContext = ConversationContext(matchState: Option<MatchState>, caseGiven: bool)

  const CONVERSATION_TABLE: seq<Row<ConversationState, ConversationEvent, ConversationContext>> := [
    Row(BlockApplied, Some([Active, FrozenByRestriction]), Blocked, None),
    Row(BlockLifted, Some([Blocked]), Active, Some((c: ConversationContext) => c.matchState == Some(MatchActive))),
    Row(FreezeForRestriction, Some([Active]), FrozenByRestriction, Some((c: ConversationContext) => c.caseGiven)),
    Row(UnfreezeOnRestrictionLift, Some([FrozenByRestriction]), Active, Some((c: ConversationContext) => c.caseGiven)),
    Row(UnmatchConversation, Some([Active, Blocked, FrozenByRestriction]), EndedByUnmatch, None),
    Row(EndConversation, Some([Active, Blocked, FrozenByRestriction]), Ended, None)
  ]

  predicate Over(state: ConversationState) {
    state == Ended || state == EndedByUnmatch
  }

  /** `conversationMachine.next`, event by event; `ConversationTableSays` ties it to the table. */
  function ConversationNext(state: ConversationState, event: ConversationEvent, c: ConversationContext): Result<ConversationState, Code> {
    match event
    case BlockApplied => Answer(state == Active || state == FrozenByRestriction, true, Blocked)
    case BlockLifted => Answer(state == Blocked, c.matchState == Some(MatchActive), Active)
    case FreezeForRestriction => Answer(state == Active, c.caseGiven, FrozenByRestriction)
    case UnfreezeOnRestrictionLift => Answer(state == FrozenByRestriction, c.caseGiven, Active)
    case UnmatchConversation => Answer(!Over(state), true, EndedByUnmatch)
    case EndConversation => Answer(!Over(state), true, Ended)
  }

  function ConversationRow(event: ConversationEvent): (i: nat)
    ensures i < |CONVERSATION_TABLE| && CONVERSATION_TABLE[i].event == event
    ensures forall j :: 0 <= j < |CONVERSATION_TABLE| && j != i ==> CONVERSATION_TABLE[j].event != event
  {
    match event
    case BlockApplied => 0
    case BlockLifted => 1
    case FreezeForRestriction => 2
    case UnfreezeOnRestrictionLift => 3
    case UnmatchConversation => 4
    case EndConversation => 5
  }

  lemma ConversationRowAnswers(state: ConversationState, event: ConversationEvent, context: ConversationContext)
    ensures var row := CONVERSATION_TABLE[ConversationRow(event)];
            ConversationNext(state, event, context) == Answer(row.from == None || state in row.from.value, row.Passes(context), row.to)
  {
  }

  /** The event-by-event form is what the kernel reads off the table, for every state, event and context. */
  lemma ConversationTableSays(state: ConversationState, event: ConversationEvent, context: ConversationContext)
    ensures Next(CONVERSATION_TABLE, state, event, context) == ConversationNext(state, event, context)
  {
    ConversationRowAnswers(state, event, context);
    OneRowDecides(CONVERSATION_TABLE, ConversationRow(event), state, event, context);
  }

  // ------------------------------------------------------------------------- runs --

  datatype Happening = Happening(event: ConversationEvent, context: ConversationContext)

  /** A refused event leaves the conversation as it was. */
  function Move(state: ConversationState, h: Happening): ConversationState {
    var next := ConversationNext(state, h.event, h.context);
    if next.Ok? then next.value else state
  }

  function RunConversation(state: ConversationState, happenings: seq<Happening>): ConversationState
    decreases |happenings|
  {
    if happenings == [] then state else RunConversation(Move(state, happenings[0]), happenings[1..])
  }

  /** An ended conversation is ended for good, in the way it ended. */
  lemma {:induction false} EndedForGood(state: ConversationState, happenings: seq<Happening>)
    requires Over(state)
    ensures RunConversation(state, happenings) == state
    decreases |happenings|
  {
    if happenings != [] { EndedForGood(state, happenings[1..]); }
  }

  /** The moves that reopen a conversation: the case that froze it, or a lifted block. */
  predicate Reopens(h: Happening) {
    (h.event == UnfreezeOnRestrictionLift && h.context.caseGiven)
    || (h.event == BlockLifted && h.context.matchState == Some(MatchActive))
  }

  /** A closed conversation that is open again was reopened by one of the two. */
  lemma {:induction false} NothingElseReopens(state: ConversationState, happenings: seq<Happening>)
    requires state != Active && forall i :: 0 <= i < |happenings| ==> !Reopens(happenings[i])
    ensures RunConversation(state, happenings) != Active
    decreases |happenings|
  {
    if happenings != [] {
      assert !Reopens(happenings[0]);
      NothingElseReopens(Move(state, happenings[0]), happenings[1..]);
    }
  }

  /** No case at all was named by any of these. */
  predicate NoCase(happenings: seq<Happening>) {
    forall i :: 0 <= i < |happenings| ==> !happenings[i].context.caseGiven
  }

  predicate Ends(h: Happening) {
    h.event == UnmatchConversation || h.event == EndConversation
  }

  predicate AnyEnds(happenings: seq<Happening>) {
    exists i :: 0 <= i < |happenings| && Ends(happenings[i])
  }

  predicate AnyBlocks(happenings: seq<Happening>) {
    exists i :: 0 <= i < |happenings| && happenings[i].event == BlockApplied
  }

  /** A block was applied, and after the last one a block was lifted while the match was alive. */
  predicate LastBlockLifted(happenings: seq<Happening>) {
    exists j :: 0 < j < |happenings| && Reopens(happenings[j]) && AnyBlocks(happenings[..j]) && !AnyBlocks(happenings[j..])
  }

  lemma {:induction false} RunThenOne(state: ConversationState, happenings: seq<Happening>, h: Happening)
    ensures RunConversation(state, happenings + [h]) == Move(RunConversation(state, happenings), h)
    decreases |happenings|
  {
    if happenings == [] {
      assert happenings + [h] == [h] && [h][1..] == [];
      assert RunConversation(Move(state, h), []) == Move(state, h);
    } else {
      assert (happenings + [h])[1..] == happenings[1..] + [h];
      RunThenOne(Move(state, happenings[0]), happenings[1..], h);
    }
  }

  lemma AnyGrows(happenings: seq<Happening>, h: Happening)
    ensures AnyEnds(happenings + [h]) <==> AnyEnds(happenings) || Ends(h)
    ensures AnyBlocks(happenings + [h]) <==> AnyBlocks(happenings) || h.event == BlockApplied
  {
    var longer := happenings + [h];
    assert longer[|happenings|] == h;
    assert forall i :: 0 <= i < |happenings| ==> longer[i] == happenings[i];
  }

  lemma LastBlockGrows(happenings: seq<Happening>, h: Happening)
    ensures LastBlockLifted(happenings + [h])
       <==> h.event != BlockApplied && (LastBlockLifted(happenings) || (AnyBlocks(happenings) && Reopens(h)))
  {
    var longer, n := happenings + [h], |happenings|;
    forall j | 0 <= j <= n
      ensures longer[..j] == happenings[..j] && longer[j..] == happenings[j..] + [h]
      ensures AnyBlocks(longer[j..]) <==> AnyBlocks(happenings[j..]) || h.event == BlockApplied
    {
      AnyGrows(happenings[j..], h);
    }
    if h.event != BlockApplied && AnyBlocks(happenings) && Reopens(h) {
      assert longer[n] == h && happenings[..n] == happenings && happenings[n..] == [];
      assert AnyBlocks(longer[..n]) && !AnyBlocks(longer[n..]);
    }
    if h.event != BlockApplied && LastBlockLifted(happenings) {
      var j :| 0 < j < n && Reopens(happenings[j]) && AnyBlocks(happenings[..j]) && !AnyBlocks(happenings[j..]);
      assert longer[j] == happenings[j] && AnyBlocks(longer[..j]) && !AnyBlocks(longer[j..]);
    }
    if LastBlockLifted(longer) {
      LastBlockShrinks(happenings, h);
    }
  }

  lemma LastBlockShrinks(happenings: seq<Happening>, h: Happening)
    requires LastBlockLifted(happenings + [h])
    ensures h.event != BlockApplied && (LastBlockLifted(happenings) || (AnyBlocks(happenings) && Reopens(h)))
  {
    var longer, n := happenings + [h], |happenings|;
    var j :| 0 < j < |longer| && Reopens(longer[j]) && AnyBlocks(longer[..j]) && !AnyBlocks(longer[j..]);
    assert longer[j..][n - j] == h;
    assert longer[..j] == happenings[..j];
    assert longer[j..] == happenings[j..] + [h];
    AnyGrows(happenings[j..], h);
    if j == n {
      assert happenings[..n] == happenings;
    }
  }

  /**
   * What a freeze does not survive. Whatever happens without any case being named, the
   * conversation is over exactly when somebody ended it, still frozen exactly when
   * nobody ended or blocked it, and open again exactly when nobody ended it and a block
   * was lifted after the last one was applied.
   */
  lemma {:induction false} FreezeWithoutACaseIff(happenings: seq<Happening>)
    requires NoCase(happenings)
    ensures var after := RunConversation(FrozenByRestriction, happenings);
            (Over(after) <==> AnyEnds(happenings))
            && (after == FrozenByRestriction <==> !AnyEnds(happenings) && !AnyBlocks(happenings))
            && (after == Active <==> !AnyEnds(happenings) && LastBlockLifted(happenings))
    decreases |happenings|
  {
    if happenings != [] {
      var n := |happenings| - 1;
      var before, h := happenings[..n], happenings[n];
      assert happenings == before + [h];
      FreezeWithoutACaseIff(before);
      RunThenOne(FrozenByRestriction, before, h);
      AnyGrows(before, h);
      LastBlockGrows(before, h);
      BlockLiftedNeedsABlock(before);
      assert !h.context.caseGiven;
    }
  }

  lemma BlockLiftedNeedsABlock(happenings: seq<Happening>)
    ensures LastBlockLifted(happenings) ==> AnyBlocks(happenings)
  {
    if j :| 0 < j < |happenings| && AnyBlocks(happenings[..j]) && Reopens(happenings[j]) {
      var i :| 0 <= i < j && happenings[..j][i].event == BlockApplied;
      assert happenings[i].event == BlockApplied;
    }
  }

  lemma BlockingUndoesAFreeze()
    ensures var c := ConversationContext(Some(MatchActive), false);
            RunConversation(FrozenByRestriction, [Happening(BlockApplied, c), Happening(BlockLifted, c)]) == Active
  {
    var c := ConversationContext(Some(MatchActive), false);
    var both := [Happening(BlockApplied, c), Happening(BlockLifted, c)];
    assert both[1..] == [Happening(BlockLifted, c)] && both[1..][1..] == [];
    assert Move(FrozenByRestriction, both[0]) == Blocked && Move(Blocked, both[1]) == Active;
    assert RunConversation(Active, both[1..][1..]) == Active;
    assert RunConversation(Blocked, both[1..]) == Active;
  }

  // ---------------------------------------------------------------------- reading --

  predicate BlockedBy(edges: seq<BlockEdge>, blocker: UserId, blocked: UserId) {
    exists i :: 0 <= i < |edges| && !edges[i].lifted && edges[i].blockerId == blocker && edges[i].blockedId == blocked
  }

  function CanView(c: Conversation, viewerId: UserId, edges: seq<BlockEdge>): Result<(), Rule> {
    var peer := PeerOf(c, viewerId);
    if peer.None? then Err(NotAParticipant)
    else if BlockedBy(edges, peer.value, viewerId) then Err(RuleBlocked)
    else Ok(())
  }

  /** Who may read: a participant whom the other has not blocked, or has unblocked. */
  lemma CanViewIff(c: Conversation, viewerId: UserId, edges: seq<BlockEdge>)
    requires c.first != c.second
    ensures
      var r := CanView(c, viewerId, edges);
      var peer := if viewerId == c.first then c.second else c.first;
      (r.Ok? <==> (viewerId == c.first || viewerId == c.second) && forall e :: e in edges && !e.lifted ==> (e.blockerId, e.blockedId) != (peer, viewerId))
      && (r == Err(NotAParticipant) <==> viewerId != c.first && viewerId != c.second)
  {
    assert forall i :: 0 <= i < |edges| ==> edges[i] in edges;
  }

  /**
   * Reading is asymmetric where sending is not: a one-sided block stops both from
   * sending and only the blocked one from reading, whatever state the conversation is in.
   */
  lemma BlockedLosesReadingOnly(c: Conversation, edges: seq<BlockEdge>, d: Dependencies, blocker: UserId, blocked: UserId)
    requires (c.first, c.second) == (blocker, blocked) || (c.first, c.second) == (blocked, blocker)
    requires blocker != blocked && BlockedBy(edges, blocker, blocked) && !BlockedBy(edges, blocked, blocker)
    requires d.edges == edges
    ensures CanView(c, blocker, edges).Ok? && CanView(c, blocked, edges) == Err(RuleBlocked)
    ensures CanSend(c, blocker, d).Err? && CanSend(c, blocked, d).Err?
  {
    BlockDominates(c, blocker, d);
    BlockDominates(c, blocked, d);
  }
}
