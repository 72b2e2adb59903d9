/** Account standing (`packages/core/src/states/account.ts`): its machine and the capabilities each state grants. */
module Account {
  import opened Core
  import opened Transition

  datatype AccountState = Active | Limited | Suspended | Banned

  datatype AccountEvent = Restrict | LiftRestriction | Suspend | Reinstate | Ban | LiftBan

  datatype Capability =
    | BrowseDiscovery | LikeSomeone | SendMessages | FileReport | BlockSomeone | EditProfile | AppealRequest | DeleteAccount
    | Named(name: string)

  datatype AccountContext = AccountContext(caseGiven: bool, moderatorGiven: bool, removed: seq<Capability>)

  const ACCOUNT_TABLE: seq<Row<AccountState, AccountEvent, AccountContext>> := [
    Row(Restrict, Some([Active, Limited]), Limited, Some((c: AccountContext) => c.caseGiven && |c.removed| > 0)),
    Row(LiftRestriction, Some([Limited]), Active, Some((c: AccountContext) => c.caseGiven && c.moderatorGiven)),
    Row(Suspend, Some([Active, Limited]), Suspended, Some((c: AccountContext) => c.caseGiven && c.moderatorGiven)),
    Row(Reinstate, Some([Suspended]), Active, Some((c: AccountContext) => c.caseGiven && c.moderatorGiven)),
    Row(Ban, Some([Active, Limited, Suspended]), Banned, Some((c: AccountContext) => c.caseGiven && c.moderatorGiven)),
    Row(LiftBan, Some([Banned]), Active, Some((c: AccountContext) => c.caseGiven && c.moderatorGiven))
  ]

  /** `accountMachine.next`, event by event; `AccountTableSays` ties it to the table. */
  function AccountNext(state: AccountState, event: AccountEvent, c: AccountContext): Result<AccountState, Code> {
    match event
    case Restrict => Answer(state == Active || state == Limited, c.caseGiven && |c.removed| > 0, Limited)
    case LiftRestriction => Answer(state == Limited, c.caseGiven && c.moderatorGiven, Active)
    case Suspend => Answer(state == Active || state == Limited, c.caseGiven && c.moderatorGiven, Suspended)
    case Reinstate => Answer(state == Suspended, c.caseGiven && c.moderatorGiven, Active)
    case Ban => Answer(state != Banned, c.caseGiven && c.moderatorGiven, Banned)
    case LiftBan => Answer(state == Banned, c.caseGiven && c.moderatorGiven, Active)
  }

  function AccountRow(event: AccountEvent): (i: nat)
    ensures i < |ACCOUNT_TABLE| && ACCOUNT_TABLE[i].event == event
    ensures forall j :: 0 <= j < |ACCOUNT_TABLE| && j != i ==> ACCOUNT_TABLE[j].event != event
  {
    match event
    case Restrict => 0
    case LiftRestriction => 1
    case Suspend => 2
    case Reinstate => 3
    case Ban => 4
    case LiftBan => 5
  }

  lemma AccountRowAnswers(state: AccountState, event: AccountEvent, context: AccountContext)
    ensures var row := ACCOUNT_TABLE[AccountRow(event)];
            AccountNext(state, event, context) == Answer(row.from == None || state in row.from.value, row.Passes(context), row.to)
  {
  }

  /** The event-by-event form is what the kernel reads off the table, for every state, event and context. */
  lemma AccountTableSays(state: AccountState, event: AccountEvent, context: AccountContext)
    ensures Next(ACCOUNT_TABLE, state, event, context) == AccountNext(state, event, context)
  {
    AccountRowAnswers(state, event, context);
    OneRowDecides(ACCOUNT_TABLE, AccountRow(event), state, event, context);
  }

  function Granted(state: AccountState): seq<Capability> {
    match state
    case Active => [BrowseDiscovery, LikeSomeone, SendMessages, FileReport, BlockSomeone, EditProfile]
    case Limited => [BrowseDiscovery, FileReport, BlockSomeone, EditProfile]
    case Suspended => [FileReport, BlockSomeone, EditProfile]
    case Banned => [FileReport, BlockSomeone, AppealRequest, DeleteAccount]
  }

  predicate Unrestrictable(c: Capability) {
    c == FileReport || c == BlockSomeone || c == DeleteAccount
  }

  function CapabilitiesFor(state: AccountState, removed: seq<Capability>): seq<Capability> {
    var taken := Filter(removed, (c: Capability) => !Unrestrictable(c));
    if |taken| == 0 then Granted(state) else Filter(Granted(state), (c: Capability) => c !in taken)
  }

  /** In which standings each capability is held. */
  predicate HeldIn(c: Capability, state: AccountState) {
    match c
    case BrowseDiscovery => state == Active || state == Limited
    case LikeSomeone => state == Active
    case SendMessages => state == Active
    case FileReport => true
    case BlockSomeone => true
    case EditProfile => state != Banned
    case AppealRequest => state == Banned
    case DeleteAccount => state == Banned
    case Named(_) => false
  }

  lemma GrantedIff(state: AccountState, c: Capability)
    ensures c in Granted(state) <==> HeldIn(c, state)
  {
    var g := Granted(state);
    match state
    case Active =>
      assert g[0] == BrowseDiscovery && g[1] == LikeSomeone && g[2] == SendMessages && g[3] == FileReport && g[4] == BlockSomeone
        && g[5] == EditProfile;
    case Limited => assert g[0] == BrowseDiscovery && g[1] == FileReport && g[2] == BlockSomeone && g[3] == EditProfile;
    case Suspended => assert g[0] == FileReport && g[1] == BlockSomeone && g[2] == EditProfile;
    case Banned => assert g[0] == FileReport && g[1] == BlockSomeone && g[2] == AppealRequest && g[3] == DeleteAccount;
  }

  /** What a set of removals leaves: what the standing holds, except the restrictable capabilities named. */
  lemma LeftIff(state: AccountState, removed: seq<Capability>, c: Capability)
    ensures c in CapabilitiesFor(state, removed)
       <==> HeldIn(c, state) && (c in {FileReport, BlockSomeone, DeleteAccount} || c !in removed)
  {
    GrantedIff(state, c);
    var taken := Filter(removed, (c: Capability) => !Unrestrictable(c));
    assert c in taken <==> c in removed && !Unrestrictable(c);
  }

  /** No state and no set of removals takes away reporting or blocking. */
  lemma ReportAndBlockSurvive(state: AccountState, removed: seq<Capability>)
    ensures FileReport in CapabilitiesFor(state, removed) && BlockSomeone in CapabilitiesFor(state, removed)
  {
    LeftIff(state, removed, FileReport);
    LeftIff(state, removed, BlockSomeone);
  }
}
