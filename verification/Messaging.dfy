/**
 * The send gate (`packages/communication/src/permissions.ts`) and the send path
 * that spends rate budget behind it (`packages/communication/src/send.ts`).
 */
module Messaging {
  import opened Core
  import opened Window
  import opened Friction

  type UserId = string

  datatype ConversationState = Active | Blocked | FrozenByRestriction | EndedByUnmatch | Ended

  datatype Conversation =
    Conversation(conversationId: string, first: UserId, second: UserId, state: ConversationState)

  datatype MatchState = MatchActive | Unmatched

  datatype MatchProjection = MatchProjection(conversationId: string, state: MatchState)

  datatype BlockEdge = BlockEdge(blockerId: UserId, blockedId: UserId, lifted: bool)

  datatype CapabilityProjection = CapabilityProjection(userId: UserId, capabilities: seq<string>)

  /** `canSendMessages` is `None` when the field is not the boolean it is declared to be. */
  datatype PeerStanding = PeerStanding(userId: UserId, canSendMessages: Option<bool>)

  /** A standing is `None` when the projection never loaded. */
  datatype Dependencies = Dependencies(
    matched: MatchProjection,
    edges: seq<BlockEdge>,
    senderStanding: Option<CapabilityProjection>,
    peerStanding: Option<PeerStanding>)

  datatype Rule =
    | RuleBlocked
    | NotAParticipant
    | MatchNotForConversation
    | MatchNotActive
    | ConversationNotOpen
    | StandingUnidentifiable
    | MissingSendMessageCapability

  datatype Detail =
    | NoDetail
    | SenderDetail(senderId: UserId)
    | MatchDetail(matchState: MatchState)
    | ConversationDetail(conversationState: ConversationState)
    | PartyDetail(sender: bool)
    | CapabilityDetail(capability: string)

  datatype Denial = Denial(rule: Rule, code: Code, detail: Detail)

  const SEND_MESSAGE_CAPABILITY := "send_message"

  predicate BlockedEitherWay(edges: seq<BlockEdge>, a: UserId, b: UserId) {
    exists i :: 0 <= i < |edges| && !edges[i].lifted
      && ((edges[i].blockerId == a && edges[i].blockedId == b) || (edges[i].blockerId == b && edges[i].blockedId == a))
  }

  function PeerOf(c: Conversation, userId: UserId): Option<UserId> {
    if c.first == userId then Some(c.second)
    else if c.second == userId then Some(c.first)
    else None
  }

  /** `participants.find((id) => id !== senderId)`. */
  function Counterparty(c: Conversation, senderId: UserId): Option<UserId> {
    if c.first != senderId then Some(c.first)
    else if c.second != senderId then Some(c.second)
    else None
  }

  /** `SEND_CHECKS` in order; the first denial is the answer. */
  function CanSend(c: Conversation, senderId: UserId, d: Dependencies): Result<(), Denial> {
    var senderKnown := d.senderStanding.Some? && d.senderStanding.value.userId == senderId;
    var peerKnown := d.peerStanding.Some? && Some(d.peerStanding.value.userId) == Counterparty(c, senderId);
    if BlockedEitherWay(d.edges, c.first, c.second) then
      Err(Denial(RuleBlocked, PermissionDenied, NoDetail))
    else if PeerOf(c, senderId) == None then
      Err(Denial(NotAParticipant, PermissionDenied, SenderDetail(senderId)))
    else if d.matched.conversationId != c.conversationId then
      Err(Denial(MatchNotForConversation, Conflict, NoDetail))
    else if d.matched.state != MatchActive then
      Err(Denial(MatchNotActive, NotEligible, MatchDetail(d.matched.state)))
    else if c.state != Active then
      Err(Denial(ConversationNotOpen, NotEligible, ConversationDetail(c.state)))
    else if !(senderKnown && peerKnown) then
      Err(Denial(StandingUnidentifiable, DependencyFailed, PartyDetail(!senderKnown)))
    else if !(SEND_MESSAGE_CAPABILITY in d.senderStanding.value.capabilities
              && d.peerStanding.value.canSendMessages == Some(true)) then
      Err(Denial(MissingSendMessageCapability, PermissionDenied, CapabilityDetail(SEND_MESSAGE_CAPABILITY)))
    else Ok(())
  }

  // ---------------------------------------------------------------- symmetry --

  /** What moderation publishes about one user, read by the two sides of a conversation. */
  datatype Standing = Standing(userId: UserId, capabilities: seq<string>)
  {
    predicate MaySend() {
      SEND_MESSAGE_CAPABILITY in capabilities
    }
  }

  /** The dependencies of a send by `sender`, both projections built from one standing each. */
  function Wire(matched: MatchProjection, edges: seq<BlockEdge>, sender: Standing, peer: Standing): Dependencies {
    Dependencies(matched, edges,
                 Some(CapabilityProjection(sender.userId, sender.capabilities)),
                 Some(PeerStanding(peer.userId, Some(peer.MaySend()))))
  }

  /** The verdict, its code and its details do not depend on which participant sends. */
  lemma VerdictIsSymmetric(c: Conversation, matched: MatchProjection, edges: seq<BlockEdge>, a: Standing, b: Standing)
    requires c.first == a.userId && c.second == b.userId && a.userId != b.userId
    ensures CanSend(c, a.userId, Wire(matched, edges, a, b)) == CanSend(c, b.userId, Wire(matched, edges, b, a))
  {
    assert Counterparty(c, a.userId) == Some(b.userId) && Counterparty(c, b.userId) == Some(a.userId);
  }

  /** Exactly when a send is authorised. */
  lemma CanSendIff(c: Conversation, matched: MatchProjection, edges: seq<BlockEdge>, sender: Standing, peer: Standing)
    requires sender.userId != peer.userId
    requires (c.first, c.second) == (sender.userId, peer.userId) || (c.first, c.second) == (peer.userId, sender.userId)
    ensures CanSend(c, sender.userId, Wire(matched, edges, sender, peer)).Ok?
       <==> !BlockedEitherWay(edges, sender.userId, peer.userId)
            && matched == MatchProjection(c.conversationId, MatchActive)
            && c.state == Active
            && sender.MaySend() && peer.MaySend()
  {
    assert BlockedEitherWay(edges, c.first, c.second) == BlockedEitherWay(edges, sender.userId, peer.userId);
  }

  const SEND_RULES := [RuleBlocked, NotAParticipant, MatchNotForConversation, MatchNotActive, ConversationNotOpen,
                       StandingUnidentifiable, MissingSendMessageCapability]

  predicate TakesPart(c: Conversation, user: UserId) {
    user == c.first || user == c.second
  }

  /** The projection loaded for the sender, and for somebody else in the conversation. */
  predicate BothKnown(c: Conversation, senderId: UserId, d: Dependencies) {
    d.senderStanding.Some? && d.senderStanding.value.userId == senderId
    && d.peerStanding.Some? && d.peerStanding.value.userId != senderId && TakesPart(c, d.peerStanding.value.userId)
    && (c.first != senderId ==> d.peerStanding.value.userId == c.first)
  }

  /** What each rule forbids. */
  predicate Forbids(rule: Rule, c: Conversation, senderId: UserId, d: Dependencies) {
    match rule
    case RuleBlocked =>
      exists i :: 0 <= i < |d.edges| && !d.edges[i].lifted
                  && ((d.edges[i].blockerId, d.edges[i].blockedId) == (c.first, c.second)
                      || (d.edges[i].blockerId, d.edges[i].blockedId) == (c.second, c.first))
    case NotAParticipant => !TakesPart(c, senderId)
    case MatchNotForConversation => d.matched.conversationId != c.conversationId
    case MatchNotActive => d.matched.state == Unmatched
    case ConversationNotOpen => c.state in {Blocked, FrozenByRestriction, EndedByUnmatch, Ended}
    case StandingUnidentifiable => !BothKnown(c, senderId, d)
    case MissingSendMessageCapability =>
      !(BothKnown(c, senderId, d) && "send_message" in d.senderStanding.value.capabilities
        && d.peerStanding.value.canSendMessages == Some(true))
  }

  function CodeOf(rule: Rule): Code {
    match rule
    case MatchNotForConversation => Conflict
    case MatchNotActive => NotEligible
    case ConversationNotOpen => NotEligible
    case StandingUnidentifiable => DependencyFailed
    case _ => PermissionDenied
  }

  function DetailOf(rule: Rule, c: Conversation, senderId: UserId, d: Dependencies): Detail {
    match rule
    case NotAParticipant => SenderDetail(senderId)
    case MatchNotActive => MatchDetail(d.matched.state)
    case ConversationNotOpen => ConversationDetail(c.state)
    case StandingUnidentifiable =>
      PartyDetail(!(d.senderStanding.Some? && d.senderStanding.value.userId == senderId))
    case MissingSendMessageCapability => CapabilityDetail("send_message")
    case _ => NoDetail
  }

  lemma KnownIff(c: Conversation, senderId: UserId, d: Dependencies)
    ensures (d.senderStanding.Some? && d.senderStanding.value.userId == senderId
             && d.peerStanding.Some? && Some(d.peerStanding.value.userId) == Counterparty(c, senderId))
       <==> BothKnown(c, senderId, d)
  {
  }

  function DenialBy(rule: Rule, c: Conversation, senderId: UserId, d: Dependencies): Result<(), Denial> {
    Err(Denial(rule, CodeOf(rule), DetailOf(rule, c, senderId, d)))
  }

  lemma BlockForbids(c: Conversation, senderId: UserId, d: Dependencies)
    ensures Forbids(RuleBlocked, c, senderId, d) <==> BlockedEitherWay(d.edges, c.first, c.second)
  {
  }

  lemma CanSendByRules(c: Conversation, senderId: UserId, d: Dependencies)
    ensures CanSend(c, senderId, d)
         == if Forbids(RuleBlocked, c, senderId, d) then DenialBy(RuleBlocked, c, senderId, d)
            else if Forbids(NotAParticipant, c, senderId, d) then DenialBy(NotAParticipant, c, senderId, d)
            else if Forbids(MatchNotForConversation, c, senderId, d) then DenialBy(MatchNotForConversation, c, senderId, d)
            else if Forbids(MatchNotActive, c, senderId, d) then DenialBy(MatchNotActive, c, senderId, d)
            else if Forbids(ConversationNotOpen, c, senderId, d) then DenialBy(ConversationNotOpen, c, senderId, d)
            else if Forbids(StandingUnidentifiable, c, senderId, d) then DenialBy(StandingUnidentifiable, c, senderId, d)
            else if Forbids(MissingSendMessageCapability, c, senderId, d)
            then DenialBy(MissingSendMessageCapability, c, senderId, d)
            else Ok(())
  {
    BlockForbids(c, senderId, d);
    KnownIff(c, senderId, d);
  }

  /**
   * A send is allowed when no rule forbids it; otherwise the first of the rules that does,
   * in their order, answers with its own code and detail.
   */
  lemma FirstRuleAnswers(c: Conversation, senderId: UserId, d: Dependencies)
    ensures CanSend(c, senderId, d).Ok? <==> forall rule: Rule :: !Forbids(rule, c, senderId, d)
    ensures CanSend(c, senderId, d).Err? ==>
              var e := CanSend(c, senderId, d).error;
              e == Denial(e.rule, CodeOf(e.rule), DetailOf(e.rule, c, senderId, d)) && Forbids(e.rule, c, senderId, d)
              && exists i :: 0 <= i < |SEND_RULES| && SEND_RULES[i] == e.rule
                             && forall j :: 0 <= j < i ==> !Forbids(SEND_RULES[j], c, senderId, d)
  {
    CanSendByRules(c, senderId, d);
    var rules := SEND_RULES;
    assert rules[0] == RuleBlocked && rules[1] == NotAParticipant && rules[2] == MatchNotForConversation
           && rules[3] == MatchNotActive && rules[4] == ConversationNotOpen && rules[5] == StandingUnidentifiable
           && rules[6] == MissingSendMessageCapability;
  }

  /** A block hides every weaker reason: whatever else is wrong, the answer is the block. */
  lemma BlockDominates(c: Conversation, senderId: UserId, d: Dependencies)
    requires BlockedEitherWay(d.edges, c.first, c.second)
    ensures CanSend(c, senderId, d) == Err(Denial(RuleBlocked, PermissionDenied, NoDetail))
  {
  }

  /** Everything a denial tells its reader about a conversation with a block in it. */
  predicate SameAnswer(c: Conversation, sender: UserId, d: Dependencies, other: Conversation, otherSender: UserId, otherD: Dependencies) {
    CanSend(c, sender, d) == CanSend(other, otherSender, otherD)
  }

  /**
   * A block tells nobody anything else: two blocked sends get one answer whoever sends,
   * whether or not they take part, and whatever their matches, states and standings
   * are. And no other trouble is ever reported as a block.
   */
  lemma BlockHidesTheRest(
    c: Conversation, sender: UserId, d: Dependencies, other: Conversation, otherSender: UserId, otherD: Dependencies)
    requires BlockedEitherWay(d.edges, c.first, c.second)
    ensures BlockedEitherWay(otherD.edges, other.first, other.second) ==> SameAnswer(c, sender, d, other, otherSender, otherD)
    ensures SameAnswer(c, sender, d, other, otherSender, otherD) ==> BlockedEitherWay(otherD.edges, other.first, other.second)
  {
    BlockDominates(c, sender, d);
    if BlockedEitherWay(otherD.edges, other.first, other.second) { BlockDominates(other, otherSender, otherD); }
  }

  // --------------------------------------------------------------- send path --

  const MAX_MESSAGE_BODY_LENGTH := 4000

  datatype SendCommand = SendCommand(conversation: Conversation, senderId: UserId, body: string, at: int)

  datatype SendError =
    | SenderNotParticipant
    | Unauthorised(denial: Denial)
    | BodyRefused
    | TooFast(limit: RateLimit)

  /** `recentSends` and `recentStarts` are the two histories the friction rules read. */
  function SendMessage(
    command: SendCommand, d: Dependencies, recentSends: seq<int>, recentStarts: seq<int>
  ): Result<SendCommand, SendError> {
    var c := command.conversation;
    if PeerOf(c, command.senderId) == None then Err(SenderNotParticipant) else
      var authorised := CanSend(c, command.senderId, d);
      if authorised.Err? then Err(Unauthorised(authorised.error))
      else if Blank(command.body) || |command.body| > MAX_MESSAGE_BODY_LENGTH then Err(BodyRefused) else
        var burst := EvaluateRateRule(PER_CONVERSATION_RATE_RULE, recentSends, command.at);
        if burst.Err? then Err(TooFast(burst.error)) else
          var starts := EvaluateRateRule(NEW_CONVERSATION_RATE_RULE, recentStarts, command.at);
          if starts.Err? then Err(TooFast(starts.error)) else Ok(command)
  }

  /** A body with something in it, of at most 4000 characters. */
  predicate Sendable(body: string) {
    |body| <= 4000 && exists i :: 0 <= i < |body| && !JsWhitespace(body[i])
  }

  /** Fewer than twenty sends in the last minute, and fewer than ten conversations started in the last hour. */
  predicate Paceable(recentSends: seq<int>, recentStarts: seq<int>, at: int) {
    |set i | 0 <= i < |recentSends| && at - 60_000 < recentSends[i] <= at| < 20
    && |set i | 0 <= i < |recentStarts| && at - 3_600_000 < recentStarts[i] <= at| < 10
  }

  /** Exactly which sends are accepted: nothing forbids it, there is something to send, and both rules admit it. */
  lemma SentIff(command: SendCommand, d: Dependencies, recentSends: seq<int>, recentStarts: seq<int>)
    ensures var r := SendMessage(command, d, recentSends, recentStarts);
            (r.Ok? <==>
               (forall rule: Rule :: !Forbids(rule, command.conversation, command.senderId, d))
               && Sendable(command.body) && Paceable(recentSends, recentStarts, command.at))
            && (r.Ok? ==> r.value == command)
  {
    FirstRuleAnswers(command.conversation, command.senderId, d);
    AdmittedExactly(PER_CONVERSATION_RATE_RULE, recentSends, command.at);
    AdmittedExactly(NEW_CONVERSATION_RATE_RULE, recentStarts, command.at);
  }

  /** Which refusal a send gets when it is not. */
  lemma SendRefusalIs(command: SendCommand, d: Dependencies, recentSends: seq<int>, recentStarts: seq<int>)
    requires SendMessage(command, d, recentSends, recentStarts).Err?
    ensures
      var e := SendMessage(command, d, recentSends, recentStarts).error;
      var c := command.conversation;
      (e == SenderNotParticipant <==> !TakesPart(c, command.senderId))
      && (e.Unauthorised? <==> TakesPart(c, command.senderId) && exists rule :: Forbids(rule, c, command.senderId, d))
      && (e == BodyRefused <==> (forall rule: Rule :: !Forbids(rule, c, command.senderId, d)) && !Sendable(command.body))
  {
    FirstRuleAnswers(command.conversation, command.senderId, d);
  }

  datatype SendAttempt = SendAttempt(command: SendCommand, dependencies: Dependencies, recentStarts: seq<int>)

  /** Sends into one conversation, each reading the sends accepted before it. */
  function SendRun(attempts: seq<SendAttempt>): (sends: seq<int>)
    decreases |attempts|
  {
    if attempts == [] then [] else
      var before, last := SendRun(attempts[..|attempts| - 1]), attempts[|attempts| - 1];
      if SendMessage(last.command, last.dependencies, before, last.recentStarts).Ok?
      then before + [last.command.at] else before
  }

  /** A run records exactly the sends it accepts, each at its own instant. */
  lemma {:induction false} SentIsRecorded(attempts: seq<SendAttempt>, a: SendAttempt)
    ensures
      var before := SendRun(attempts);
      SendRun(attempts + [a])
      == if (forall rule: Rule :: !Forbids(rule, a.command.conversation, a.command.senderId, a.dependencies))
            && Sendable(a.command.body) && Paceable(before, a.recentStarts, a.command.at)
         then before + [a.command.at] else before
  {
    assert (attempts + [a])[..|attempts|] == attempts;
    SentIff(a.command, a.dependencies, SendRun(attempts), a.recentStarts);
  }

  ghost predicate ClockedBy(attempts: seq<SendAttempt>, now: int) {
    (forall i, j :: 0 <= i < j < |attempts| ==> attempts[i].command.at <= attempts[j].command.at)
    && forall i :: 0 <= i < |attempts| ==> attempts[i].command.at <= now
  }

  lemma {:induction false} SendsArePaced(attempts: seq<SendAttempt>, now: int)
    requires ClockedBy(attempts, now)
    ensures Paced(SendRun(attempts), 20, 60_000) && AllAtMost(SendRun(attempts), now)
  {
    if attempts != [] {
      var rest, last := attempts[..|attempts| - 1], attempts[|attempts| - 1];
      SendsArePaced(rest, last.command.at);
      var before := SendRun(rest);
      if SendMessage(last.command, last.dependencies, before, last.recentStarts).Ok? {
        PacedExtend(before, last.command.at, 20, 60_000);
      }
    }
  }

  /** While a block stands nothing is sent, and a send it refuses spends none of the burst rule's budget. */
  lemma {:induction false} BlockedSendsCostNothing(attempts: seq<SendAttempt>, more: seq<SendAttempt>)
    requires forall i :: 0 <= i < |more| ==>
               BlockedEitherWay(more[i].dependencies.edges, more[i].command.conversation.first, more[i].command.conversation.second)
    ensures SendRun(attempts + more) == SendRun(attempts)
    decreases |more|
  {
    if more == [] {
      assert attempts + more == attempts;
    } else {
      var n := |more| - 1;
      assert (attempts + more)[..|attempts + more| - 1] == attempts + more[..n];
      BlockedSendsCostNothing(attempts, more[..n]);
      BlockDominates(more[n].command.conversation, more[n].command.senderId, more[n].dependencies);
    }
  }

  /** No 60-second window of any run holds more than 20 accepted sends. */
  lemma NeverMoreThanTwentyAMinute(attempts: seq<SendAttempt>, now: int, at: int)
    requires ClockedBy(attempts, now)
    ensures CountIn(SendRun(attempts), at - 60_000, at) <= 20
  {
    SendsArePaced(attempts, now);
    NoWindowOverfull(SendRun(attempts), 20, 60_000, at);
  }

  /** After any run, a send held back by the burst rule goes through at the promised instant and not before. */
  lemma {:induction false} SendRetryIsExact(attempts: seq<SendAttempt>, now: int, retry: int)
    requires ClockedBy(attempts, now)
    requires EvaluateRateRule(PER_CONVERSATION_RATE_RULE, SendRun(attempts), now).Err?
    requires now <= retry <= now + EvaluateRateRule(PER_CONVERSATION_RATE_RULE, SendRun(attempts), now).error.retryAfterMs
    ensures EvaluateRateRule(PER_CONVERSATION_RATE_RULE, SendRun(attempts), retry).Ok?
       <==> retry == now + EvaluateRateRule(PER_CONVERSATION_RATE_RULE, SendRun(attempts), now).error.retryAfterMs
  {
    var sends := SendRun(attempts);
    SendsArePaced(attempts, now);
    PromisedRetryAdmitted(PER_CONVERSATION_RATE_RULE, sends, now);
    if retry < now + EvaluateRateRule(PER_CONVERSATION_RATE_RULE, sends, now).error.retryAfterMs {
      EarlyRetriesRefused(PER_CONVERSATION_RATE_RULE, sends, now, retry);
    }
  }
}
