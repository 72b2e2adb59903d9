# Verified rules of the dating service

This project models the rules of the service in Dafny and proves what they promise:
the completed-date ledger and the two tables that store it, likes, passes, blocks and
matches with their store, photo order, identity verification from the first capture to
the stored row, re-verification limits, messaging, moderation cases with their audit log,
the three optimistic stores, ages and calendar days, and the framing of pairing tokens.

`dafny verify dfyconfig.toml` checks everything.

## How it is laid out

| files | what they hold |
|---|---|
| `Core`, `Transition`, `Window`, `Calendar` | sequences and strings, the transition-table kernel, sliding windows, `Date.UTC` (sections 21.4.1 and 21.4.3.4 of ECMA-262) |
| `GoalLedger`, `GoalStore`, `GoalSimulation` | the pure ledger, the class over two tables, and the simulation between them |
| `Interaction`, `InteractionAnswers`, `InteractionRuns`, `MatchRuns`, `InteractionStore`, `PhotoOrder`, `Discovery` | likes to matches, what each command answers, what every run keeps, the tables, the photo renumbering, who is shown to whom |
| `Identity`, `Likeness`, `Attempt`, `AttemptRuns`, `Reverification`, `Anomaly` | the identity machine, the verification decision, attempts, the limited re-verification command and the detector that reads its log |
| `AttemptRecords`, `AttemptStore`, `AttemptStoreRuns` | the JSON codecs of a stored attempt, its table, and what any run of statements keeps |
| `GenerationStores` | the three compare-and-set stores and interleaved clients |
| `Account`, `Audit`, `Moderation`, `CaseWork`, `CaseMerge`, `Decisions`, `CaseRuns`, `ReportDesk` | account standing, the audit log, cases, merges, decisions, runs of one case and of several over one table of reports |
| `Friction`, `Messaging`, `Conversations`, `Pairing`, `Age` | send limits, send permission, conversation states, token framing, ages |

Code that is written as expressions is modelled as functions; code that changes tables,
logs or accumulators is modelled as methods (of a class where it has fields) proved equal
to a function of the old state. Lifecycles keep their tables as data; each `…TableSays`
lemma shows that the event-by-event function used in proofs is what the kernel computes
from the table.

The state of an ordered pair in the interaction machine is derived from the ledgers
(`MatchRuns.StateOf`), because the code itself never feeds that machine.

Instants are integer milliseconds. Ids are strings. A clock, a generated id, the hash and
a distance band are parameters.

## What the code does that its own text does not say

Each of these is a lemma below, with the exact condition where there is one.

- `Date.UTC` takes a year from 0 to 99 for one of the twentieth century, so a clock in those years dates what is recorded under it (`Calendar.UtcTodayIs`, `GoalLedger.RecordAcceptedIff`), and a day written in them is refused though the table could hold it (`Calendar.ReadsNamedDays`, `GoalStore.StorableDayIff`).
- An event can be listed by `allowedEvents` and refused by `next` (`Transition.AllowedButRefused`).
- A pass that is live but past its thirty days still makes a second pass a conflict (`InteractionRuns.PassConflictIff`, `InteractionRuns.ExpiredPassOutlivesTheLike`).
- A like id used again after a withdrawal breaks the ledger's invariants (`InteractionRuns.RunKeepsLedgerIff`), and the match it leads to brings the withdrawn like back (`InteractionRuns.MatchRevivesNothingIff`, `InteractionRuns.ReusedIdRevivesWithdrawnLike`).
- A pass recorded over a matched pair, or a withdrawal of a like its match holds, leaves the match on a withdrawn like, and a match attempt can make a second match of the pair; the functions never look (`MatchRuns.StepKeepsMatchesIff`, `MatchRuns.PassOverAMatchLeavesIt`).
- The store supersedes an own live pass recorded by the time of the like, the domain one in effect at its clock; an expired pass and one recorded after the like make the two differ (`InteractionStore.StoreAndDomainSupersedeTheSame`).
- The store keeps a second withdrawal under a new key, the ledger ignores it (`GoalSimulation.RedundantWithdrawalIsStoredIff`). It stores a like id twice when one upsert repeats an id that is new to the pair (`InteractionStore.UpsertsRepeatNoLikeIff`).
- The re-verification comment says every refusal is recorded and that `reverify_requested` is legal from `review_required`; one refusal is not recorded, and the kernel has no such edge (`Reverification.UnloggedRefusalIff`, `Reverification.AcceptedIff`).
- The abuse detector says a subject's own demand is never in its log; one with a reason that belongs to another requester is, and counts as a demand against somebody else (`Anomaly.OwnDemandCountsIff`).
- A freeze needs its case to be lifted, but without one it is still undone by a block applied and then lifted (`Conversations.FreezeWithoutACaseIff`, `Conversations.BlockingUndoesAFreeze`).
- The instant named when the 30-day cap fires can still be inside the 24-hour cooldown (`Reverification.CapLiftsIntoCooldownIff`), and over a history above the cap the cap itself still holds there (`Reverification.CapBlocksUntilIff`). A cooldown signal carries 24 hours in its `cap` field.
- A captured check is a claim: an attempt can be submitted with every required check and one artefact on file (`AttemptRuns.SubmittedHoldsEnoughIff`, `AttemptRuns.ChecksNeedNotMatchEvidence`).
- A stored reason that holds `Date` values comes back with strings (`AttemptRecords.FieldKeptIff`); one terminal state can be patched over another (`AttemptStoreRuns.OutcomeReplacedIff`).
- A compare-and-set with a non-null expectation inserts when the row is absent, in two of the three stores (`GenerationStores.AppliesIff`).
- Reports folded into a case are never closed by its decision (`Decisions.MergedReportsAreNeverClosed`); one call that brings a new report twice lists it twice (`CaseMerge.ReportsListedOnceIff`); a report that opened a case is still `triaged` and can open another or be merged into another (`ReportDesk.RunListsOnceIff`).
- A reversal always lands on `active`, whatever stood before the sanction (`Decisions.ReversalRestoresIff`); a warning can be appealed and never reversed (`Decisions.AppealableButIrreversibleIff`); a suspension or a ban records the removals it was given (`Decisions.RemovalsRecordedIff`).
- A retry promised by the rate rule can be refused when the history holds more sends than the rule admits or names later ones (`Friction.PromisedRetryAdmittedIff`, `Friction.OverfullHistoryBreaksThePromise`).

## Model

| member | source | states |
|---|---|---|
| Transition.FirstLegal | packages/core/src/transition.ts:61-64 | the first row whose event and source state match, or none when no row does |
| Transition.OneRowDecides | packages/core/src/transition.ts:58-92 | an event with one row is answered by that row: no edge, failed guard, or its target |
| Transition.AllowedButRefused | packages/core/src/transition.ts:78-105 | `next` succeeds only on allowed events; an allowed event is refused exactly when its first legal row is guarded off and a later one is not |
| Transition.AllowedIffNext | packages/core/src/transition.ts:78-105 | on a table where no event has two rows for a state the two always agree |
| Transition.ShadowedRowExample | packages/core/src/transition.ts:78-105 | a concrete table on which they disagree |
| Calendar.DayFromYearClosedForm | packages/platform/src/age.ts:172-178 | the day number of 1 January as a sum of year lengths equals the closed formula |
| Calendar.MakeDayOfCivil | packages/platform/src/age.ts:172-178 | a day's own year, month and date rebuild the day, for every day number |
| Calendar.CivilOfMakeDay | packages/platform/src/age.ts:125-147 | a real calendar day is read back from its `Date.UTC` day unchanged |
| Calendar.CivilOrder | packages/platform/src/age.ts:171-187 | calendar order of real days is the order of their day numbers |
| Calendar.RoundTripIffReal | packages/platform/src/age.ts:125-147 | the `Date.UTC` round trip accepts exactly the real days of years 100 to 9999 |
| Calendar.EarlyYearsMapToTheTwentiethCentury | packages/platform/src/age.ts:125-147 | years 0 to 99 never survive the round trip |
| Calendar.ParseIsoIff | packages/platform/src/age.ts:115-132 | a text is read as a year, month and date exactly when it is that date written out in ten characters |
| Calendar.ReadsNamedDays | packages/dating/src/goal.ts:221-249 | a text passes both tests exactly when it names a real day of the years 100 to 9999, and is then that day |
| Calendar.UtcTodayIs | packages/dating/src/goal.ts:211-214 | the last midnight not after a clock in or after the year 100, and a day of the twentieth century for an earlier one |
| Age.ReadsExactlyPastRealDays | packages/platform/src/age.ts:125-153 | a date of birth is accepted exactly when it is a real day of those years before today |
| Age.AgeCountsBirthdays | packages/platform/src/age.ts:171-187 | the age is the one number of birthdays reached, 29 February counted on 1 March of common years |
| Age.UnbornIsZero | packages/platform/src/age.ts:183-185 | a day after today has age 0 |
| Age.ImplementationsAgree | packages/dating/src/profile.ts:118-147 | the profile's age and the platform's age are equal for every birth date not after today |
| Age.AgeNeverFalls | packages/platform/src/age.ts:171-187 | an age never falls while the clock advances |
| Age.GateRefusesExactlyMinors | packages/platform/src/age.ts:190-239 | the gate refuses exactly ages under 18, names the band that holds the age, and never throws |
| Window.NoWindowOverfull | packages/communication/src/friction.ts:56-84 | a history accepted by a limit holds at most that many instants in any window |
| Window.CapLiftsIff | packages/identity/src/verification-request.ts:259-274 | a cap fires until its earliest entry leaves the window, over any history, and lifts then exactly when fewer than the limit are later than that entry |
| Window.CapLiftsExactly | packages/identity/src/verification-request.ts:259-274 | over a history the cap accepted it lifts at exactly that instant |
| Friction.EarlyRetriesRefused | packages/communication/src/friction.ts:56-84 | every retry before `retryAfterMs` is refused by the same rule |
| Friction.AdmittedExactly | packages/communication/src/friction.ts:56-84 | admitted exactly while fewer than the limit lie in the window, and told how many are left |
| Friction.PromisedRetryAdmittedIff | packages/communication/src/friction.ts:56-84 | for any rule and history: the promised retry is admitted exactly when `used`, less the attempts at the oldest instant, plus those the history names for the meantime, is below the limit |
| Friction.OverfullHistoryBreaksThePromise | packages/communication/src/friction.ts:56-84 | a history above the limit for which the promised retry is refused |
| Messaging.VerdictIsSymmetric | packages/communication/src/permissions.ts:91-223 | the verdict, its rule, code and details are the same whichever participant sends |
| Messaging.CanSendIff | packages/communication/src/permissions.ts:91-223 | a send is authorised exactly with no block, an active match of this conversation, an active conversation and two users who may send |
| Messaging.FirstRuleAnswers | packages/communication/src/permissions.ts:91-223 | for any conversation and dependencies: allowed when none of the seven rules forbids it, else refused by the first that does, with that rule's code and detail |
| Messaging.BlockHidesTheRest | packages/communication/src/permissions.ts:91-101 | two blocked sends get one answer whatever else differs between them, and nothing else gets that answer |
| Messaging.SentIff | packages/communication/src/send.ts:61-98 | a send is accepted exactly when no rule forbids it, its body is not blank and at most 4000 characters, and fewer than 20 sends lie in the last minute and fewer than 10 starts in the last hour |
| Messaging.SendRefusalIs | packages/communication/src/send.ts:61-98 | which refusal it gets otherwise |
| Messaging.BlockedSendsCostNothing | packages/communication/src/send.ts:61-92 | sends tried under a block leave no trace in the history that paces later ones |
| Messaging.SendsArePaced | packages/communication/src/send.ts:61-92 | accepted sends of any run are paced by the burst rule |
| Messaging.NeverMoreThanTwentyAMinute | packages/communication/src/send.ts:85-92 | no 60-second window of any run holds more than 20 sends |
| Messaging.SendRetryIsExact | packages/communication/src/send.ts:85-92 | after any run the burst rule refuses until the promised instant and not at it |
| Conversations.ConversationTableSays | packages/communication/src/conversation.ts:64-111 | the conversation machine, event by event |
| Conversations.EndedForGood | packages/communication/src/conversation.ts:156-163 | an ended conversation stays ended, in the way it ended |
| Conversations.NothingElseReopens | packages/communication/src/conversation.ts:64-111 | only a named case or a block lifted from a live match reopens a conversation |
| Conversations.FreezeWithoutACaseIff | packages/communication/src/conversation.ts:72-111 | over every run that names no case, a frozen conversation is over exactly when somebody ended it, still frozen exactly when nobody ended or blocked it, and open exactly when nobody ended it and a block was lifted after the last one applied |
| Conversations.BlockingUndoesAFreeze | packages/communication/src/conversation.ts:72-87 | a block applied and lifted does reopen a frozen conversation |
| Conversations.BlockedLosesReadingOnly | packages/communication/src/permissions.ts:225-248 | a one-sided block stops both from sending and only the blocked one from reading |
| Pairing.DecimalValue | packages/moderation/src/pairing.ts:74-88 | the decimal length written is the length read |
| Pairing.FrameRoundTrip | packages/moderation/src/pairing.ts:74-88 | the length-prefixed frame parses back to its triple, whatever characters the parts hold |
| Pairing.MaterialInjective | packages/moderation/src/pairing.ts:74-88 | two triples give the hash the same input only when they are equal |
| Pairing.TokensMatchIff | packages/moderation/src/pairing.ts:74-117 | with a hash that does not collide, tokens are equal exactly for equal triples |
| GoalLedger.RecordingAddsOne | packages/dating/src/goal.ts:291-320 | recording adds one record for a new id and changes no other entry |
| GoalLedger.RecordAcceptedIff | packages/dating/src/goal.ts:221-320 | accepted exactly when the counterpart is not the owner and either the entry is on record or the text is a real day from the year 100 on, not after the UTC day of the recording |
| GoalLedger.CorrectingTouchesOne | packages/dating/src/goal.ts:330-378 | correcting appends to the named entry when its key is new and it still counts, and changes no other |
| GoalLedger.CorrectionAnswerIff | packages/dating/src/goal.ts:221-378 | which of four answers a correction gets: not found, conflict over a withdrawn date, a day that has not come, or accepted; a repeated key changes nothing |
| GoalLedger.WithdrawnStaysWithdrawn | packages/dating/src/goal.ts:330-378 | no correction makes a withdrawn date count again |
| GoalStore.Store.constructor | packages/database/src/store-goal.ts:159-165 | the two tables start empty and consistent |
| GoalStore.Store.AppendCompletedDate | packages/database/src/store-goal.ts:289-322 | one row per owner and entry; a replay changes nothing and is reported |
| GoalStore.Store.AppendDateCorrection | packages/database/src/store-goal.ts:324-385 | the correction row the statement selects, with `supersededOn`, and the day moved with it, or nothing |
| GoalStore.Store.FindLedger | packages/database/src/store-goal.ts:236-287 | the owner's rows in order, each with exactly its own corrections in append order, never a fault on consistent tables |
| GoalStore.GroupCorrections | packages/database/src/store-goal.ts:252-286 | the map built by the loop holds, for every entry, exactly that entry's corrections in order |
| GoalStore.OrderRowsSorts | packages/database/src/store-goal.ts:238-250 | the read is ordered by recording instant, then id, and permutes the owner's rows |
| GoalStore.StorableDayIff | packages/database/src/store-goal.ts:300-322 | a day can be stored exactly when it is a real day of the years 1 to 9999 written out |
| GoalStore.AppendCorrectionConsistent | packages/database/src/store-goal.ts:324-385 | an append keeps the tables consistent |
| GoalSimulation.StepIsSound | packages/dating/src/goal.ts:291-378 | one command applied to both sides keeps every entry in agreement and in chain |
| GoalSimulation.RunIsSound | packages/dating/src/goal.ts:291-378 | so does every run |
| GoalSimulation.NoDayFromTheFuture | packages/dating/src/goal.ts:221-378 | over every run, no day in any ledger, claimed or restated, lies after the UTC day on which it was stated |
| GoalSimulation.RecordedIff | packages/database/src/store-goal.ts:289-322 | after a recording an entry is on record exactly when it was before, or when its counterpart is not the owner, its day has come and its id fits the column |
| GoalSimulation.CorrectedIff | packages/database/src/store-goal.ts:324-385 | a correction reaches an entry on record exactly when the date counts, the key is new and fits, and a restated day has come; and what the entry then is |
| GoalSimulation.StoreSimulatesLedger | packages/database/src/store-goal.ts:236-385 | after any run the store reads back the ledger's entries and no others, same day, counterpart, instant and verdict, logs equal up to redundant withdrawals |
| GoalSimulation.StoredCountIsTheCount | packages/dating/src/goal.ts:265-290 | the count read off the store is the ledger's count, for every run and owner |
| GoalSimulation.RestatementsFormAChain | packages/database/src/store-goal.ts:324-385 | each `supersededOn` is the day stated just before, the first is the day claimed, the row holds the last, and nothing restates after a withdrawal |
| GoalSimulation.RedundantWithdrawalIsStoredIff | packages/database/src/store-goal.ts:339-352 | a further withdrawal changes nothing in the ledger and becomes a row of the store exactly when its text can be stored and its key is new |
| Interaction.ActiveBlockSymmetric | packages/dating/src/blocks.ts:66-82 | a block is active between two people in either order |
| Interaction.BlockHoldsUntilReleased | packages/dating/src/blocks.ts:48-82 | anybody can block anybody else; a placed block holds in both directions, and its release restores what stood before |
| Interaction.MatchedPairMovesOnlyByUnmatch | packages/dating/src/interaction.ts:73-95 | from `matched` only an unmatch and a repeated like are allowed |
| Interaction.MatchEventIff | packages/dating/src/interaction.ts:73-95 | a match needs `liked`, two distinct reciprocal current likes and no pass in effect |
| InteractionAnswers.InteractionTableSays | packages/dating/src/interaction.ts:73-95 | the interaction machine, event by event |
| InteractionAnswers.LikeAnswerIff | packages/dating/src/likes.ts:143-180 | which of five answers a like gets; a conflict exactly for another id over the pair's first standing like when that is not matched |
| InteractionAnswers.LikeEffectIs | packages/dating/src/likes.ts:161-196 | an accepted like is a replay, or one live row with its owner's passes in effect superseded and named |
| InteractionAnswers.PassAnswerIff | packages/dating/src/likes.ts:234-251 | which of three answers a pass gets |
| InteractionAnswers.PassEffectIs | packages/dating/src/likes.ts:252-258 | an accepted pass is a replay, or one live row from its own instant with its owner's standing like withdrawn |
| InteractionAnswers.ResolutionIff | packages/dating/src/interaction.ts:209-259 | what a match attempt comes to, for any ledger, in the order trigger, block, pass, reciprocity |
| InteractionAnswers.CreationIs | packages/dating/src/interaction.ts:238-259 | the match created, field by field, and exactly the rows it marks matched |
| InteractionAnswers.BlockEndsIff | packages/dating/src/interaction.ts:274-302 | a block ends a match exactly when it is between its two people and the match is not over; then by the system at that instant, closed by the actor on the blocker's side and by the target on the other |
| InteractionAnswers.UnmatchIff | packages/dating/src/interaction.ts:334-365 | which of three answers an unmatch gets, and what an accepted one leaves |
| InteractionAnswers.BlockedAfterReleaseIff | packages/dating/src/blocks.ts:61-82 | after a release a pair is blocked exactly when a block of another id stands between the two |
| InteractionRuns.RecordLikeKeepsIff | packages/dating/src/likes.ts:143-196 | an accepted like keeps the ledger invariant exactly when it is on record already or its id is new |
| InteractionRuns.RecordPassKeeps | packages/dating/src/likes.ts:234-258 | a recorded pass keeps it |
| InteractionRuns.WithdrawKeeps | packages/dating/src/likes.ts:204-216 | a withdrawal keeps it |
| InteractionRuns.ResolveKeeps | packages/dating/src/interaction.ts:209-259 | a match attempt keeps it |
| InteractionRuns.MatchCreatedFrom | packages/dating/src/interaction.ts:238-259 | a created match is founded on the two rows of the pair |
| InteractionRuns.StepKeepsLedgerIff | packages/dating/src/likes.ts:143-258 | a step keeps the invariant exactly when the row it adds, if any, has a new id; it always extends the history |
| InteractionRuns.RunKeepsLedgerIff | packages/dating/src/likes.ts:143-258 | over every run: one current like and one live pass per ordered pair, never both, and one row per id, exactly when every added like had a new id; then no withdrawn like is revived and earlier rows are a prefix with only their state changed |
| InteractionRuns.NewLikeKeepsIdsIff | packages/dating/src/likes.ts:143-196 | appending a like keeps ids unique exactly when its id is new |
| InteractionRuns.MatchRevivesNothingIff | packages/dating/src/interaction.ts:238-259 | a created match leaves every withdrawn like withdrawn exactly when no withdrawn row shares its id with the trigger or the counterpart's like |
| InteractionRuns.StepRevivesNothingIff | packages/dating/src/interaction.ts:209-365 | of all the steps only such a match brings a withdrawn like back |
| InteractionRuns.ReusedIdIsReached | packages/dating/src/likes.ts:143-216 | four commands from nothing reach a ledger with a withdrawn row whose id a current like carries |
| InteractionRuns.ReusedIdRevivesWithdrawnLike | packages/dating/src/interaction.ts:238-259 | matching on that ledger marks the withdrawn row matched |
| InteractionRuns.PassConflictIff | packages/dating/src/likes.ts:234-258 | a pass is a conflict exactly over another own live pass, in effect or not |
| InteractionRuns.ExpiredPassOutlivesTheLike | packages/dating/src/likes.ts:168-196 | a like over an expired pass leaves it live, so a later pass is refused |
| MatchRuns.StepKeepsMatchesIff | packages/dating/src/interaction.ts:209-365 | any step, allowed or not, keeps every live match founded on its two current likes, one match a pair, exactly when it is harmless: no new pass over and no second match of a matched pair, no withdrawn or stale-ended like that a live match holds |
| MatchRuns.RunKeepsMatchesIff | packages/dating/src/interaction.ts:209-365 | every world of a run has its live matches founded exactly when every step is harmless |
| MatchRuns.LegalIff | packages/dating/src/interaction.ts:73-95 | what the machine allows between two people, said of the likes, passes, blocks and matches on record |
| MatchRuns.WithdrawLikeKeepsMatchesIff | packages/dating/src/likes.ts:204-216 | a withdrawal keeps the matches sound exactly when no live match holds that like |
| MatchRuns.GatedIsHarmless | packages/dating/src/interaction.ts:73-95 | whatever the machine allows is harmless |
| MatchRuns.GatedRunKeepsMatches | packages/dating/src/interaction.ts:73-95 | so every run of allowed steps whose likes have new ids keeps ledger and matches sound |
| MatchRuns.LiveMatchHoldsBothLikes | packages/dating/src/interaction.ts:209-259 | a live match's like ids are exactly the pair's two current likes |
| MatchRuns.EndingWithdrawsBothLikes | packages/dating/src/interaction.ts:274-302 | a block between the two people of a live match is always taken, and ending a match by block or unmatch leaves no current like in either direction |
| MatchRuns.BlockEndsTheMatch | packages/dating/src/interaction.ts:274-302 | on a sound world, once an active block between the two people of a live match is applied the pair has no live match |
| MatchRuns.UnmatchEndsTheMatch | packages/dating/src/interaction.ts:334-365 | the same once either of the two unmatches |
| MatchRuns.UnmatchRetryReplays | packages/dating/src/interaction.ts:334-365 | a retried unmatch with the same key changes nothing |
| MatchRuns.UngatedPassKeepsMatchesIff | packages/dating/src/likes.ts:234-258 | a pass nobody gated keeps the matches sound exactly when the pair has no live match |
| MatchRuns.PassOverAMatchLeavesIt | packages/dating/src/likes.ts:234-258 | a pass recorded over a live match, which then holds a withdrawn like |
| MatchRuns.EitherLikeResolvesTheSame | packages/dating/src/interaction.ts:209-259 | either of two reciprocal likes resolves to the same id, participants and like ids |
| InteractionStore.PairKeyAgreesWithCanonicalPair | packages/database/src/pair-key.ts:14-16 | the key is the canonical pair joined by a bar, in either order |
| InteractionStore.PairKeyIdentifiesPair | packages/database/src/pair-key.ts:14-16 | ids without a bar share a key exactly when they are the same pair |
| InteractionStore.PairKeysCollideIff | packages/database/src/pair-key.ts:14-16 | for any ids: two pairs share a key exactly when they are one pair or an id of one contains the separator and the rest of an id of the other |
| InteractionStore.BarMakesPairKeysCollide | packages/database/src/pair-key.ts:14-16 | two such pairs |
| InteractionStore.CreatedMatchIsIdentified | packages/dating/src/interaction.ts:238-259 | a match the domain creates is stored under its own key with two like ids |
| InteractionStore.UpsertsKeepIdsApart | packages/database/src/store-interaction.ts:662-693 | whatever is upserted in any order, no two pairs share a match id |
| InteractionStore.UpsertsCollectEveryLike | packages/database/src/store-interaction-rows.ts:216-225 | any sequence of upserts leaves one row per pair whose like ids are the union of those sent |
| InteractionStore.UpsertOrderIrrelevant | packages/database/src/store-interaction-rows.ts:216-225 | order and repetition of the upserts do not matter |
| InteractionStore.MergeRepeatsNothingIff | packages/database/src/store-interaction-rows.ts:216-225 | one upsert over a list without repetitions leaves none exactly when every id it repeats was there already |
| InteractionStore.UpsertsRepeatNoLikeIff | packages/database/src/store-interaction-rows.ts:216-225 | any sequence of upserts stores no like id twice exactly when each upsert of the pair repeats only ids that earlier ones brought |
| InteractionStore.RepeatedIdIsStored | packages/database/src/store-interaction-rows.ts:216-225 | a first upsert that repeats an id stores it twice |
| InteractionStore.UpsertsNeverReviveAMatch | packages/database/src/store-interaction-rows.ts:216-225 | a row's end, standings and creation are never rewritten by an upsert |
| InteractionStore.InteractionTables.constructor | packages/database/src/store-interaction.ts:116-118 | the tables start empty |
| InteractionStore.InteractionTables.AppendLike | packages/database/src/store-interaction.ts:401-442 | exactly when a like is created, replayed or a conflict; only a created one supersedes the pass |
| InteractionStore.InteractionTables.AppendPass | packages/database/src/store-interaction.ts:446-471 | exactly when a pass is created, replayed or a conflict; no like changes |
| InteractionStore.InteractionTables.SupersedePass | packages/database/src/store-interaction.ts:479-483 | the move by pair is the move a like makes by id, and at most one row moves |
| InteractionStore.AtMostOneMoves | packages/database/src/store-interaction-rows.ts:228-237 | at most one own live pass matches the supersession |
| InteractionStore.InteractionTables.AppendBlock | packages/database/src/store-interaction.ts:509-543 | one active block per pair in either direction |
| InteractionStore.InteractionTables.LiftBlock | packages/database/src/store-interaction.ts:553-563 | only the named direction is lifted and every row stays |
| InteractionStore.InteractionTables.UpsertMatch | packages/database/src/store-interaction.ts:662-693 | the row for the pair after the upsert, merged when there was one; a match id of another pair is a fault only when there was none |
| InteractionStore.StoreAndDomainSupersedeTheSame | packages/database/src/store-interaction-rows.ts:120-122 | for any clock of the domain, store and domain supersede the same passes exactly when every own live pass is in effect at that clock just when it was recorded no later than the like |
| PhotoOrder.EveryOrderSafeIff | packages/database/src/store-interaction-rows.ts:186-197 | a renumbering is safe in every row order exactly when no target is held by another row |
| PhotoOrder.StagingSafeIff | packages/database/src/store-interaction-rows.ts:186-192 | the first statement is safe in every order exactly when no photo sits on another's staging position |
| PhotoOrder.LandingSafeIff | packages/database/src/store-interaction-rows.ts:193-197 | the second is safe exactly for at most 1000 photos |
| PhotoOrder.SortedListsMatchIff | packages/database/src/store-interaction.ts:266-276 | the sorted-list check passes exactly for permutations of the published set |
| PhotoOrder.OffsetCollides | packages/database/src/store-interaction-rows.ts:186-192 | a photo at position 1000 makes the first statement collide |
| PhotoOrder.PhotoTable.ReorderProfilePhotos | packages/database/src/store-interaction.ts:260-287 | accepted exactly for the published set when neither statement hits the index, which a small set never does; photo i ends at position i, and a failure changes nothing |
| PhotoOrder.PhotoTable.RunBothStatements | packages/database/src/store-interaction-rows.ts:186-197 | the two statements in any two row orders succeed exactly when visiting the rows one by one does |
| PhotoOrder.PhotoTable.SetEach | packages/database/src/store-interaction-rows.ts:186-197 | one statement row by row under the unique index: refused exactly when a row on the way collides |
| Discovery.CompatibilityIsMutual | packages/dating/src/preferences.ts:205-271 | both sides compute the same verdict, naming the same dimensions |
| Discovery.BucketingNeverHides | packages/dating/src/location.ts:79-123 | a distance within the limit is never filtered out, and a band is filtered exactly when every distance in it is beyond the limit |
| Discovery.FirstRule | packages/dating/src/discovery.ts:204-212 | the first rule that disqualifies, or none when none does |
| Discovery.NobodyUnverifiedIsShown | packages/dating/src/discovery.ts:204-217 | whatever rules are injected, nobody unverified is shown, and whom they let by is refused for that alone |
| Discovery.EligibleIff | packages/dating/src/discovery.ts:96-195 | eligible exactly when no reason disqualifies |
| Discovery.ReasonSays | packages/dating/src/discovery.ts:96-195 | what each of the sixteen reasons says of the two people and of what is on record between them |
| Discovery.SuitsIff | packages/dating/src/discovery.ts:160-194 | what the preference rules admit, said without the rules |
| Discovery.EligibleExactly | packages/dating/src/discovery.ts:96-217 | exactly who is shown to whom, said without the rules |
| Discovery.ShownCanBeLikedIff | packages/dating/src/likes.ts:143-196 | whoever is shown can be liked exactly when the viewer holds `like`; one live like is appended and passes stay |
| Discovery.LikedIsNotShownAgain | packages/dating/src/discovery.ts:148-152 | after that like the candidate is refused, with that reason |
| Discovery.PassedIsHiddenForThirtyDays | packages/dating/src/likes.ts:252-257 | whoever is shown, and is then passed by a viewer without a live pass there, is refused as passed for thirty days from the pass and eligible again from then on |
| Discovery.ShownLikeResolves | packages/dating/src/interaction.ts:209-259 | the match attempt that follows is refused only by the candidate's own pass in effect, and is a match exactly when liked back |
| Discovery.BlockStopsEverything | packages/dating/src/blocks.ts:66-82 | an active block in either direction stops showing, liking and matching for both people |
| Discovery.SelectEligibleCards | packages/dating/src/discovery.ts:224-260 | the page is the cards of the eligible candidates in the order they came |
| Discovery.CardIff | packages/dating/src/discovery.ts:224-260 | a candidate fills a place exactly when it is somebody else with a standing and a card who may be shown |
| Discovery.PagesShowOnlyTheAvailable | packages/dating/src/discovery.ts:224-260 | every card belongs to an available candidate other than the viewer |
| Identity.IdentityTableSays | packages/core/src/states/identity.ts:42-75 | the identity machine, event by event |
| Identity.VerifiedOnlyWithAuthority | packages/core/src/states/identity.ts:42-75 | `verified` is entered only on a confidence of at least 0.9 or by a named reviewer |
| Identity.ReviewLeftOnlyByReviewer | packages/core/src/states/identity.ts:42-75 | `review_required` is left only by a named reviewer |
| Likeness.PassIff | packages/identity/src/likeness.ts:120-235 | exactly what passes |
| Likeness.FailIff | packages/identity/src/likeness.ts:120-235 | exactly what fails |
| Likeness.PassConfidence | packages/identity/src/likeness.ts:120-235 | a pass carries a confidence the identity guard accepts |
| Likeness.VerdictsMissNothing | packages/identity/src/likeness.ts:120-235 | a pass or a fail had every required check reported |
| Likeness.UnresolvedIff | packages/identity/src/likeness.ts:120-235 | a required check is open exactly when it is not reported or its first result is inconclusive or not performed |
| Likeness.FindingsOnlySlowDown | packages/identity/src/likeness.ts:120-235 | more findings keep the answer or turn it into a review |
| Attempt.AttemptTableSays | packages/identity/src/verification-request.ts:104-175 | the attempt machine, event by event |
| Attempt.TrailingFailuresIs | packages/identity/src/verification-request.ts:549-559 | the run of failures at the end, and the attempt that ends it |
| Attempt.EscalateAfterRepeatedFailure | packages/identity/src/verification-request.ts:549-567 | the backwards loop escalates exactly at three failures in a row where the kernel allows it |
| AttemptRuns.CaptureKeeps | packages/identity/src/verification-request.ts:344-376 | a capture keeps one artefact per kind |
| AttemptRuns.CaptureReplacesItsKind | packages/identity/src/verification-request.ts:344-376 | when a capture is taken, and that it replaces its kind alone and adds its check |
| AttemptRuns.CaptureIs | packages/identity/src/verification-request.ts:344-376 | the artefact it adds, with its attempt, instant and expiry, and that nothing else of the attempt changes |
| AttemptRuns.CaptureRefusalIs | packages/identity/src/verification-request.ts:344-376 | a refused capture is rate limited exactly within fifteen minutes of one of its kind, and else out of turn |
| AttemptRuns.SubmitsIff | packages/identity/src/verification-request.ts:378-391 | an attempt is submitted exactly while capturing with the three required checks on it |
| AttemptRuns.ReviewVerdict | packages/identity/src/verification-request.ts:471-489 | a verdict is taken exactly in review under a name, and goes the way the person said |
| AttemptRuns.ExpiresIff | packages/identity/src/verification-request.ts:491-501 | an attempt expires exactly while live and past its day, is a conflict before it and has no edge otherwise |
| AttemptRuns.CompleteKeeps | packages/identity/src/verification-request.ts:422-469 | a provider result keeps the attempt invariant |
| AttemptRuns.RunKeepsAttempt | packages/identity/src/verification-request.ts:319-501 | over every run: one artefact per kind, all required checks once submitted, a decision exactly in decided states, passed and failed only as decided or by a named reviewer over a review |
| AttemptRuns.StartedIsSound | packages/identity/src/verification-request.ts:286-305 | a started attempt satisfies it and the identity is pending |
| AttemptRuns.StartedIff | packages/identity/src/verification-request.ts:249-305 | an attempt starts exactly when none is open, fewer than five started in the last day, and the identity is one that a first or a repeated verification may leave; and what it is then |
| AttemptRuns.ClosedAttemptsRest | packages/identity/src/verification-request.ts:79-175 | a closed attempt never moves |
| AttemptRuns.ResultMovesBothMachines | packages/identity/src/verification-request.ts:422-469 | a result is applied exactly when both machines can move; the attempt, the decision and the identity it then leaves |
| AttemptRuns.RunCaptures | packages/identity/src/verification-request.ts:344-376 | after every run the kinds on file and the checks done are those there before and those the accepted captures named |
| AttemptRuns.SubmittedHoldsEnoughIff | packages/identity/src/verification-request.ts:344-391 | from its start an attempt holds one artefact per kind captured, so a submitted one holds as many as required checks exactly when its captures named that many kinds |
| AttemptRuns.ChecksNeedNotMatchEvidence | packages/identity/src/verification-request.ts:344-391 | any distinct checks, the required ones among them, can be claimed with one selfie and the attempt submitted |
| AttemptRuns.StartsAreCapped | packages/identity/src/verification-request.ts:249-274 | over every run at most one open attempt and five starts in any 24 hours |
| AttemptRuns.RetryAtIsExact | packages/identity/src/verification-request.ts:259-274 | the daily cap refuses until `retryAt` and not from it |
| Reverification.Sinks.constructor | packages/identity/src/reverification.ts:154-157 | both logs start empty |
| Reverification.Sinks.Refuse | packages/identity/src/reverification.ts:245-259 | one refusal appended and returned |
| Reverification.Sinks.Raise | packages/identity/src/reverification.ts:264-286 | one signal appended, only for automated callers |
| Reverification.Sinks.CheckLimits | packages/identity/src/reverification.ts:347-381 | cap and cooldown with their signals and refusals |
| Reverification.Sinks.RequestReVerification | packages/identity/src/reverification.ts:240-395 | the answer and exactly what each log gains |
| Reverification.StrangersLearnNothing | packages/identity/src/reverification.ts:219-226 | without authority the answer and the trace do not depend on the subject |
| Reverification.WhoHasAuthority | packages/identity/src/reverification.ts:61-69 | the dating core never has authority; a subject's reasons are the subject's alone |
| Reverification.UnloggedRefusalIff | packages/identity/src/reverification.ts:383-394 | a refusal goes unrecorded exactly when every check passes and the kernel has no edge |
| Reverification.UnloggedRefusalExample | packages/identity/src/reverification.ts:383-394 | such a demand |
| Reverification.SignalIff | packages/identity/src/reverification.ts:264-286 | a signal is written exactly for an automated caller stopped by a limit |
| Reverification.AcceptedIff | packages/identity/src/reverification.ts:240-395 | accepted exactly for a reason the requester may give (a subject for themselves and only once expired), on a verified or expired identity, with no attempt in flight, fewer than three re-verifications in the last 30 days and none in the last 24 hours |
| Reverification.AnswerIs | packages/identity/src/reverification.ts:240-395 | the code of every refusal, in the order of the checks |
| Reverification.InFlightConflicts | packages/identity/src/reverification.ts:338-345 | an attempt in flight alone is a conflict with exactly one refusal logged |
| Reverification.RefusalLogged | packages/identity/src/reverification.ts:240-259 | every refusal but the kernel's is logged once, with its own code |
| Reverification.CapBlocksUntilIff | packages/identity/src/reverification.ts:355-365 | over any history the cap holds until its `blockedUntil`, and lifts then exactly when fewer than three of the counted re-verifications are later than the earliest |
| Reverification.CapIsExactAfterEveryRun | packages/identity/src/reverification.ts:340-381 | after every run of the command it lifts at exactly that instant |
| Reverification.CooldownBlocksUntil | packages/identity/src/reverification.ts:367-381 | the cooldown stops firing exactly at its `blockedUntil`, and nothing else then stops the demand |
| Reverification.CapLiftsIntoCooldownIff | packages/identity/src/reverification.ts:347-381 | at the cap's instant the demand goes through exactly when the cap has lifted and the newest re-verification is a day old |
| Reverification.CapLiftsIntoACooldown | packages/identity/src/reverification.ts:347-381 | a history over which the cap lifts into the cooldown |
| Reverification.RunKeepsRecord | packages/identity/src/reverification.ts:340-381 | every run keeps the history paced and spaced |
| Reverification.StepRecords | packages/identity/src/reverification.ts:240-395 | a step of a run adds a re-verification exactly for an accepted demand, at its own instant and in flight |
| Reverification.InFlightHoldsDemands | packages/identity/src/reverification.ts:338-345 | while one attempt stays in flight no demand of any run is accepted |
| Reverification.NobodyIsHounded | packages/identity/src/reverification.ts:340-381 | at most three in any 30 days and any two at least 24 hours apart |
| Anomaly.MaxSeverity | packages/identity/src/anomaly.ts:263-274 | the loop returns the highest severity present |
| Anomaly.ProposedReviewStopsThePass | packages/identity/src/anomaly.ts:293-312 | a review is proposed exactly when a finding rises to one, and then nobody passes on those findings |
| Anomaly.ProposalIs | packages/identity/src/anomaly.ts:293-312 | a proposal keeps exactly the findings that rise to a review and names the first of the worst of them |
| Anomaly.DetectReverificationAbuse | packages/identity/src/anomaly.ts:330-375 | the grouping loops report every actor with a counted refusal, in order, with the demands and distinct targets |
| Anomaly.ActorsIff | packages/identity/src/anomaly.ts:337-352 | the map holds each actor with a counted refusal once |
| Anomaly.ReportedIff | packages/identity/src/anomaly.ts:330-375 | an actor is reported exactly when one of their refusals counts, and once |
| Anomaly.FindingSays | packages/identity/src/anomaly.ts:330-375 | a finding counts exactly the actor's counted refusals and the different people they were about |
| Anomaly.RefusedDemandCountsIff | packages/identity/src/anomaly.ts:338-344 | a refused demand is counted exactly when a subject made it without authority |
| Anomaly.OwnDemandCountsIff | packages/identity/src/anomaly.ts:314-329 | a demand about oneself is counted exactly when its reason is not a subject's |
| AttemptRecords.UnchangedIffPlain | packages/database/src/store-verification-attempts-rows.ts:304-310 | exactly the plain JSON values survive serialisation |
| AttemptRecords.FieldAcceptedIff | packages/database/src/store-verification-attempts-rows.ts:97-288 | exactly which values each of the ten fields takes, in either form |
| AttemptRecords.ArtefactReadsAs | packages/database/src/store-verification-attempts-rows.ts:220-240 | an artefact is read with its seven fields and no other, its instants decoded |
| AttemptRecords.FieldTrip | packages/database/src/store-verification-attempts-rows.ts:271-288 | what a codec accepted, written and read by the same codec, is what it first produced |
| AttemptRecords.EnvelopeCodecIsFaithful | packages/database/src/store-verification-attempts-rows.ts:259-288 | the codec table is one the store can rely on |
| AttemptRecords.FieldKeptIff | packages/database/src/store-verification-attempts-rows.ts:161-171 | every field is kept, a reason exactly when it is plain JSON |
| AttemptRecords.FindingInstantsBecomeText | packages/identity/src/verification-request.ts:195-201 | a reason listing findings does not come back as it was |
| AttemptStore.AttemptTable.constructor | packages/database/src/store-verification-attempts.ts:121-126 | the table starts empty |
| AttemptStore.AttemptTable.Insert | packages/database/src/store-verification-attempts.ts:138-158 | the row inserted, or the refusal and no change |
| AttemptStore.AttemptTable.Find | packages/database/src/store-verification-attempts.ts:167-175 | the record, nothing, or a fault for an inconsistent row |
| AttemptStore.AttemptTable.FindOpenFor | packages/database/src/store-verification-attempts.ts:184-198 | the one open attempt, none, or a fault for two |
| AttemptStore.AttemptTable.Collect | packages/database/src/store-verification-attempts.ts:223-260 | the loop over the patch, in any key order, sorts it or refuses it |
| AttemptStore.AttemptTable.Send | packages/database/src/store-verification-attempts.ts:262-274 | one statement: refused, rejected or applied to one row |
| AttemptStore.AttemptTable.Update | packages/database/src/store-verification-attempts.ts:218-275 | the loop and the statement together |
| AttemptStoreRuns.DocumentTrip | packages/database/src/store-verification-attempts-rows.ts:312-350 | merging a patch into the document overwrites exactly the patched fields |
| AttemptStoreRuns.InsertedIsFound | packages/database/src/store-verification-attempts.ts:138-175 | an inserted attempt is found as given |
| AttemptStoreRuns.InsertAnswerIff | packages/database/src/store-verification-attempts.ts:138-165 | on a sound table: inserted exactly when every field reads, the state is one of the seven, the id is new and an open attempt finds none open for its user; and which refusal it gets otherwise |
| AttemptStoreRuns.PatchedIsFound | packages/database/src/store-verification-attempts.ts:218-275 | a patched attempt is found with exactly its patched fields overwritten |
| AttemptStoreRuns.AppliedIff | packages/database/src/store-verification-attempts.ts:218-275 | on a sound table: `true` exactly when the patch is not empty, every key reads, the row exists, a named state is in the vocabulary and the row is not a closed one given an open state |
| AttemptStoreRuns.FoundAfterRun | packages/database/src/store-verification-attempts.ts:138-275 | over every run of statements an attempt is found as it was, overwritten by its own applied patches in order, a patch being applied exactly under that condition |
| AttemptStoreRuns.FoundAfterInsertAndRun | packages/database/src/store-verification-attempts.ts:138-275 | and so from its insert on |
| AttemptStoreRuns.ClosesAt | packages/database/src/store-verification-attempts.ts:262-274 | the instant a patch closes an attempt at |
| AttemptStoreRuns.RefusedIff | packages/database/src/store-verification-attempts.ts:200-217 | `false` means no row, or a closed attempt asked to take an open state |
| AttemptStoreRuns.OutcomeReplacedIff | packages/database/src/store-verification-attempts.ts:262-274 | the outcome of a closed attempt changes exactly by a readable patch naming another terminal state |
| AttemptStoreRuns.OutcomeCanBeReplaced | packages/database/src/store-verification-attempts.ts:262-274 | a pass overwritten by a failure, keeping the closing instant |
| AttemptStoreRuns.RunKeepsSound | packages/database/src/store-verification-attempts.ts:138-275 | every run: `closed_at` set exactly for terminal states, one open attempt per user, readable documents |
| AttemptStoreRuns.ClosedNeverReopens | packages/database/src/store-verification-attempts.ts:200-275 | a closed attempt keeps its closing instant and a terminal state |
| AttemptStoreRuns.FindNeverFaults | packages/database/src/store-verification-attempts-rows.ts:431-453 | no reachable row is read as inconsistent or unreadable |
| AttemptStoreRuns.ReadableIff | packages/database/src/store-verification-attempts-rows.ts:431-453 | a row is read exactly when it is closed just when its state is terminal and everything in it reads |
| AttemptStoreRuns.FindOpenForIsUnique | packages/database/src/store-verification-attempts.ts:177-198 | a user never has two open attempts |
| GenerationStores.AccountStandingStore.Find | packages/database/src/store-account-standing.ts:194-209 | the row and its generation |
| GenerationStores.AccountStandingStore.Upsert | packages/database/src/store-account-standing.ts:242-300 | fault, insert, apply with the generation raised by one, or refuse |
| GenerationStores.IdentityStore.Insert | packages/database/src/store-users-identity.ts:214-221 | the first generation, or a conflict |
| GenerationStores.IdentityStore.Update | packages/database/src/store-users-identity.ts:251-271 | applied exactly on the expected generation |
| GenerationStores.RiskStore.UpsertAssessment | packages/database/src/store-risk.ts:433-467 | a fault for an invalid last signal, else inserted at generation 1, applied on the expected generation, or refused |
| GenerationStores.AppliesIff | packages/database/src/store-account-standing.ts:260-292 | exactly when a write is applied, and the generation it leaves |
| GenerationStores.FaultsIff | packages/database/src/store-account-standing.ts:242-260 | exactly which writes are faults, and the generation a first row carries |
| GenerationStores.NoUpdateIsLost | packages/database/src/store-users-identity.ts:236-271 | for any interleaving of reads, writes and deletes, the applied writes of a key whose row is not deleted form a chain, each computed from the row it replaced, with rising generations, ending in the stored row |
| GenerationStores.OneWinnerPerGeneration | packages/database/src/store-users-identity.ts:236-250 | of two writers on one generation one wins and the other changes nothing |
| GenerationStores.NullOnlyInserts | packages/database/src/store-risk.ts:426-431 | a client that read nothing never overwrites |
| GenerationStores.DeletionBreaksTheChain | packages/database/src/store-risk.ts:447-458 | a run in which a deleted and rewritten row is overwritten by a client that never saw it |
| Account.AccountTableSays | packages/core/src/states/account.ts:29-45 | the account machine, event by event |
| Account.LeftIff | packages/core/src/states/account.ts:93-110 | exactly what a set of removals leaves in each standing, capability by capability |
| Account.ReportAndBlockSurvive | packages/core/src/states/account.ts:52-110 | no state and no removals take away reporting or blocking |
| Audit.AuditLog.constructor | packages/moderation/src/audit.ts:85-87 | the log starts empty at sequence 0 |
| Audit.AuditLog.Append | packages/moderation/src/audit.ts:90-95 | one row at the end, numbered by its position |
| Audit.AuditLog.ByActor | packages/moderation/src/audit.ts:99-101 | exactly the actor's rows, in order |
| Audit.AuditLog.BySubject | packages/moderation/src/audit.ts:102-104 | exactly the subject's rows, in order |
| Audit.AuditLog.ByEntity | packages/moderation/src/audit.ts:105-107 | exactly the entity's rows, in order |
| Audit.AuditLog.ForCase | packages/moderation/src/audit.ts:108-110 | exactly the case's rows, in order |
| Audit.FilterAscends | packages/moderation/src/audit.ts:99-110 | a projection keeps the order of the log |
| Moderation.StrongerIsDueSooner | packages/moderation/src/queue.ts:11-24 | a stronger priority is due sooner |
| Moderation.StrongestIsGreatest | packages/moderation/src/report.ts:391-396 | the reduce is the greatest priority of the reasons |
| Moderation.ReportTableSays | packages/moderation/src/report.ts:105-147 | the report machine, event by event |
| Moderation.CaseTableSays | packages/moderation/src/case.ts:57-97 | the case machine, event by event |
| Moderation.OpensSound | packages/moderation/src/case.ts:485-542 | every case opens sound, naming each piece of evidence once exactly when the report it opens from does |
| Moderation.OpensIff | packages/moderation/src/case.ts:247-542 | exactly which intakes open a case |
| Moderation.OpenedIs | packages/moderation/src/case.ts:247-542 | the case each kind of intake opens: its subject, origin, queue, priority, reports and evidence |
| CaseWork.OpenAndRecord | packages/moderation/src/case.ts:247-542 | the case opened, with the row of the snapshot it captured and its own row, or a refusal and none |
| CaseWork.OpeningRowsAre | packages/moderation/src/case.ts:485-542 | the rows an opening writes |
| Moderation.CampaignNeverTurnsOnItsTarget | packages/moderation/src/case.ts:394-423 | a campaign case is about one of several distinct reporters and never about the target |
| Moderation.DistinctIffFull | packages/moderation/src/case.ts:416-423 | the set-size test says exactly that no reporter is named twice |
| CaseWork.AssignCase | packages/moderation/src/case.ts:579-622 | the case assigned and one audit row, or a refusal and none |
| CaseWork.StartCaseReview | packages/moderation/src/case.ts:624-665 | the review started and one audit row, or a refusal and none |
| CaseWork.EscalateCase | packages/moderation/src/case.ts:667-709 | the case escalated and one audit row, or a refusal and none |
| CaseWork.ReopenCase | packages/moderation/src/case.ts:711-766 | the case reopened without its decision and one audit row, or a refusal and none |
| CaseWork.WorkedIff | packages/moderation/src/case.ts:549-766 | exactly when each of the four commands is taken and with which code it is refused, the state it leads to, what else it changes, and its one row |
| CaseWork.WorkKeepsCase | packages/moderation/src/case.ts:579-766 | these keep a case sound and lose nothing |
| CaseWork.AddMissingIsUnion | packages/moderation/src/case.ts:855-859 | the inner loop is a union that keeps order and repeats nothing |
| CaseWork.FoldAll | packages/moderation/src/case.ts:815-861 | the loop over the reports, stopping at the first it refuses |
| CaseWork.MergeReports | packages/moderation/src/case.ts:786-921 | the merged case, the merged reports and the audit rows, each at its own clock reading, or a refusal and none |
| CaseMerge.MergesIff | packages/moderation/src/case.ts:793-844 | exactly when a merge is accepted |
| CaseMerge.MergeRefusalIs | packages/moderation/src/case.ts:793-844 | why a merge is refused: by whom, into what, and then by the first report that stands elsewhere |
| CaseMerge.MergeCollects | packages/moderation/src/case.ts:775-785 | every report is merged and listed at the clock's next reading, the evidence is the union, the priority the strongest |
| CaseMerge.MergeRowsAre | packages/moderation/src/case.ts:876-905 | the rows a merge writes: one a moved report in order, then one for the case |
| CaseMerge.MergeKeepsCase | packages/moderation/src/case.ts:863-875 | a merge keeps a case sound and only grows it |
| CaseMerge.ReplayedMergeIsIdempotent | packages/moderation/src/case.ts:821-832 | merging the same reports again changes only the time of the last update |
| CaseMerge.ReportsListedOnceIff | packages/moderation/src/case.ts:852-854 | each report stays listed once exactly when one call does not bring a new report twice |
| CaseMerge.RepeatedReportIsListedTwice | packages/moderation/src/case.ts:852-854 | a call that does |
| Decisions.DecisionIff | packages/moderation/src/decision.ts:118-228 | exactly which decisions are accepted, action by action |
| Decisions.DecisionRefusalIs | packages/moderation/src/decision.ts:118-228 | the code of every refusal, in the order of the checks |
| Decisions.ReversalRestoresIff | packages/moderation/src/decision.ts:250-289 | a reversal lands on `active`, so it restores the earlier standing exactly when that was `active` |
| Decisions.ReversedSuspensionLosesTheRestriction | packages/moderation/src/decision.ts:250-289 | a suspension of a restricted account, reversed: the restriction is gone |
| Decisions.ReversedIsNotAppealable | packages/moderation/src/decision.ts:583-591 | an answered decision and its answer are not appealable |
| Decisions.AppealableButIrreversibleIff | packages/moderation/src/decision.ts:583-591 | of the unanswered decisions exactly the warnings can never be reversed |
| Decisions.RemovalsRecordedIff | packages/moderation/src/decision.ts:78-228 | an accepted decision records removals exactly when it is a sanction given some; "named for a restriction, empty otherwise" holds exactly for the other actions or an empty list |
| Decisions.SuspensionMayNameRemovals | packages/moderation/src/decision.ts:78-79 | a suspension that records removals |
| Decisions.Decide | packages/moderation/src/decision.ts:312-461 | the decision, the resolved case and two audit rows, each at its own clock reading, or a refusal and none |
| Decisions.RulingIff | packages/moderation/src/decision.ts:312-347 | exactly which rulings are taken on a case, and the code of each refusal |
| Decisions.RulingIs | packages/moderation/src/decision.ts:329-461 | a ruling records a decision about the case's own subject by the one who took it, with the standing it leads to and reversing nothing; the case is resolved by it; both rows name that subject |
| Decisions.DecisionKeepsCase | packages/moderation/src/decision.ts:349-362 | a decision resolves its case and leaves the rest of it |
| Decisions.ReverseDecision | packages/moderation/src/decision.ts:486-567 | the new decision and one audit row, or a refusal and none |
| Decisions.ReversalIff | packages/moderation/src/decision.ts:486-520 | exactly which reversals are taken: of a sanction, while the account stands where it put it |
| Decisions.ReversalIs | packages/moderation/src/decision.ts:520-567 | a reversal records a clearance of the reversed decision's subject that names that decision and leads to `active` |
| Decisions.CloseReportsWithDecision | packages/moderation/src/decision.ts:603-652 | the closed reports and one audit row each, at the clock's next reading |
| Decisions.ClosedIff | packages/moderation/src/decision.ts:612-640 | exactly the triaged and escalated reports are closed, in order, dismissed by a clearance |
| Decisions.ClosingRowsAre | packages/moderation/src/decision.ts:640-652 | the row each closed report leaves |
| Decisions.MergedReportsAreNeverClosed | packages/moderation/src/decision.ts:598-640 | reports folded into a case are never closed by its decision |
| CaseRuns.RunKeepsDesk | packages/moderation/src/case.ts:485-921 | over every run: resolved exactly with a decision, due by its priority, priority never weaker, nothing lost, no new repetition of evidence, audit log only growing and numbered by position |
| CaseRuns.OpenedCasesStaySound | packages/moderation/src/case.ts:247-542 | the same from the opening of any case, whose row the log goes on holding; evidence is named once exactly when the report it opened from did |
| CaseRuns.AutomationWorksNothing | packages/moderation/src/case.ts:549-567 | an automated actor changes no case |
| CaseRuns.EscalatedIsALeads | packages/moderation/src/decision.ts:309-328 | only a lead moves an escalated case, and only a decision in review resolves one |
| CaseRuns.RefusalsLeaveNoTrace | packages/moderation/src/case.ts:786-844 | a refused step changes neither the case nor the log |
| ReportDesk.StepListsOnceIff | packages/moderation/src/case.ts:330-366 | with several cases over one table of reports, a step leaves each report in at most one case exactly when it puts in none that another case lists |
| ReportDesk.RunListsOnceIff | packages/moderation/src/case.ts:330-861 | over every run no report is in two cases exactly when no opening and no merge ever put in one that another case listed |
| ReportDesk.SharedReportsAreTriaged | packages/moderation/src/case.ts:330-366 | whatever gets shared is a report some case lists and that is still `triaged` |
| ReportDesk.TriagedReportOpensTwoCases | packages/moderation/src/case.ts:330-366 | any triaged report with evidence opens a second case |
| ReportDesk.OpenedReportMergesElsewhere | packages/moderation/src/case.ts:815-854 | or goes into an open case about the same person |
| ReportDesk.MergedStayWhereTheyAre | packages/moderation/src/case.ts:821-854 | over every run a merged report is never touched again, and the case it was merged into goes on listing it |

## Left out

- Events, message wording, rationale strings and the `detail` fields of errors and audit rows: data that no rule reads back.
- UTF-16: strings are sequences of Dafny characters, and ordering compares them one by one; surrogate pairs are not distinguished.
- Doubles: confidences are exact rationals with a separate case for what is not finite; the hours of the cooldown are a real division.
- Invalid `Date` values outside the stores that test for them, and the range limit of `Date`, are not modelled.
- Postgres: each store method is one atomic operation on in-memory tables; uuid casts, foreign keys, cascades and driver errors are not modelled.
- MatchRuns.GatedRunKeepsMatches: its steps are the ones the interaction machine allows; RunKeepsMatchesIff is the statement for any steps.
- GenerationStores.NoUpdateIsLost: says nothing of a key whose row was deleted; DeletionBreaksTheChain shows why.
- AttemptRuns.StartsAreCapped: a subject's attempts are kept oldest first, where the command is handed them newest first; the command only counts and takes a minimum.
- GoalStore.Store.AppendCompletedDate: a date in another form that the `::date` cast takes is a fault here; the product writes ISO days.
- GoalStore.Store.AppendDateCorrection: the same for a restated day.
- AttemptRecords.FieldTrip: instants are read in the ISO form that `toISOString` writes; other text that `new Date` parses is refused here.
- AttemptRecords.EnvelopeCodecIsFaithful: the same.
- `submitReport` is not modelled: ReportDesk takes a submitted report as given. Cases and reports that are not in its tables cannot be named by its steps.
- `updateMatch`, `updateLike`, the threshold tests of `detectIdentityAnomalies`, `appendSignal` and `findSignalsFor`, `validatePreferences`, profile completeness, evidence access and `triageReport`: easier members of the same kinds.
- The disposition of a conversation that `unmatch` returns is a constant and is not modelled.
- Distances: the band is an input; the trigonometry behind it and a negative or infinite limit are not modelled.
- The hash of a pairing token is a parameter.
