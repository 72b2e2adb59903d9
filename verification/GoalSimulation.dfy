/**
 * The store simulates the aggregate: commands run against both, entry by entry, and
 * the store's extra column makes the chain of claims walkable.
 */
module GoalSimulation {
  import opened Core
  import opened Calendar
  import opened GoalLedger
  import opened GoalStore

  // ----------------------------------------------------------------- the relation --

  function ToDomain(v: View): Correction {
    if v.kind == KindWithdrawn then Correction.Withdrawn(v.key, v.at)
    else Restated(v.key, v.at, if v.occurredOn.Some? then v.occurredOn.value else "")
  }

  /** Equal, but for further withdrawals the store keeps on an entry already withdrawn. */
  predicate UpToRedundantWithdrawals(domain: seq<Correction>, stored: seq<View>) {
    |domain| <= |stored|
    && (forall i :: 0 <= i < |domain| ==> domain[i] == ToDomain(stored[i]))
    && (forall i :: |domain| <= i < |stored| ==> stored[i].kind == KindWithdrawn)
    && (|domain| < |stored| ==> HasWithdrawal(domain))
  }

  predicate EntryAgrees(record: Option<Record>, row: Option<DateRow>, stored: seq<View>) {
    (record.Some? <==> row.Some?)
    && (record.None? ==> stored == [])
    && (record.Some? ==>
          record.value.counterpartId == row.value.counterpartId
          && record.value.occurredOn == row.value.occurredOn
          && record.value.recordedAt == row.value.recordedAt
          && UpToRedundantWithdrawals(record.value.corrections, stored))
  }

  /** The day stated by the end of a log that began with the claim `first`. */
  function DayStated(first: string, log: seq<View>): string {
    if log == [] then first
    else if log[|log| - 1].kind == KindRestated && log[|log| - 1].occurredOn.Some? then log[|log| - 1].occurredOn.value
    else DayStated(first, log[..|log| - 1])
  }

  predicate HasWithdrawnView(log: seq<View>) {
    exists i :: 0 <= i < |log| && log[i].kind == KindWithdrawn
  }

  /** Each restatement replaced the day stated just before it, and none follows a withdrawal. */
  predicate Chained(first: string, log: seq<View>, current: string) {
    current == DayStated(first, log)
    && forall i :: 0 <= i < |log| && log[i].kind == KindRestated ==>
         log[i].occurredOn.Some? && log[i].supersededOn == Some(DayStated(first, log[..i])) && !HasWithdrawnView(log[..i])
  }

  /** `claims` remembers the day each entry was first recorded with. */
  datatype World = World(ledgers: map<string, Ledger>, tables: Tables, claims: map<(string, string), string>)

  function LedgerOf(w: World, owner: string): Ledger {
    if owner in w.ledgers then w.ledgers[owner] else Ledger(owner, [])
  }

  predicate AgreesAt(w: World, owner: string, entryId: string) {
    EntryAgrees(RecordFor(LedgerOf(w, owner).records, entryId), RowFor(w.tables.dates, owner, entryId),
                ViewsOf(w.tables.corrections, owner, entryId))
  }

  predicate ChainedAt(w: World, owner: string, entryId: string) {
    var row := RowFor(w.tables.dates, owner, entryId);
    row.Some? ==>
      (owner, entryId) in w.claims
      && Chained(w.claims[(owner, entryId)], ViewsOf(w.tables.corrections, owner, entryId), row.value.occurredOn)
  }

  ghost predicate Sound(w: World) {
    Consistent(w.tables)
    && (forall owner :: LedgerOf(w, owner).ownerId == owner && DistinctEntries(LedgerOf(w, owner).records))
    && (forall owner, entryId :: AgreesAt(w, owner, entryId) && ChainedAt(w, owner, entryId))
  }

  // ---------------------------------------------------------------------- commands --

  datatype Command =
    | DoRecord(owner: string, entry: NewDate)
    | DoCorrect(owner: string, entryId: string, correction: Correction)

  function RowOf(owner: string, entry: NewDate): DateRow {
    DateRow(owner, entry.entryId, entry.counterpartId, entry.occurredOn, entry.recordedAt)
  }

  /** A command the domain accepts is applied to both; a refusal or a store fault undoes it. */
  function Step(w: World, command: Command): World {
    match command
    case DoRecord(owner, entry) =>
      var d := RecordCompletedDate(LedgerOf(w, owner), entry);
      if d.Err? || DateFaults(RowOf(owner, entry)) then w
      else World(
        w.ledgers[owner := d.value],
        InsertDate(w.tables, RowOf(owner, entry)),
        if RowFor(w.tables.dates, owner, entry.entryId).Some? then w.claims
        else w.claims[(owner, entry.entryId) := entry.occurredOn])
    case DoCorrect(owner, entryId, correction) =>
      var d := CorrectCompletedDate(LedgerOf(w, owner), entryId, correction);
      if d.Err? || CorrectionFaults(w.tables, owner, entryId, correction) then w
      else World(w.ledgers[owner := d.value], AppendCorrection(w.tables, owner, entryId, correction), w.claims)
  }

  function Run(w: World, commands: seq<Command>): World
    decreases |commands|
  {
    if commands == [] then w else Run(Step(w, commands[0]), commands[1..])
  }

  // ------------------------------------------------------------------ preservation --

  lemma RecordStepAgrees(w: World, owner: string, entry: NewDate, o: string, e: string)
    requires Sound(w) && RecordCompletedDate(LedgerOf(w, owner), entry).Ok? && !DateFaults(RowOf(owner, entry))
    ensures AgreesAt(Step(w, DoRecord(owner, entry)), o, e) && ChainedAt(Step(w, DoRecord(owner, entry)), o, e)
  {
    var next := Step(w, DoRecord(owner, entry));
    assert AgreesAt(w, o, e) && ChainedAt(w, o, e) && AgreesAt(w, owner, entry.entryId);
    assert next.tables.corrections == w.tables.corrections;
    if RowFor(w.tables.dates, o, e).None? {
      NoRowNoViews(w.tables, w.tables.corrections, o, e);
    }
    FindRowAppend(w.tables.dates, RowOf(owner, entry), o, e);
    if o == owner {
      RecordingAddsOne(LedgerOf(w, owner), entry, e);
      assert LedgerOf(next, o) == RecordCompletedDate(LedgerOf(w, owner), entry).value;
    } else {
      assert LedgerOf(next, o) == LedgerOf(w, o);
    }
  }

  /** The store's tests on its own log are the domain's tests on its corrections. */
  lemma TestsAgree(w: World, owner: string, entryId: string, key: string)
    requires AgreesAt(w, owner, entryId) && RecordFor(LedgerOf(w, owner).records, entryId).Some?
    ensures var record := RecordFor(LedgerOf(w, owner).records, entryId).value;
            (Withdrawal(w.tables.corrections, owner, entryId) <==> !IsCounted(record))
            && (KeyUsed(record.corrections, key) ==> CorrectionKeyTaken(w.tables.corrections, owner, entryId, key))
            && (IsCounted(record) ==>
                  (KeyUsed(record.corrections, key) <==> CorrectionKeyTaken(w.tables.corrections, owner, entryId, key)))
  {
    var record := RecordFor(LedgerOf(w, owner).records, entryId).value;
    var stored := ViewsOf(w.tables.corrections, owner, entryId);
    ViewWithdrawal(w.tables.corrections, owner, entryId);
    ViewKeys(w.tables.corrections, owner, entryId, key);
    assert HasWithdrawal(record.corrections) <==> HasWithdrawnView(stored) by {
      if HasWithdrawal(record.corrections) {
        var i :| 0 <= i < |record.corrections| && record.corrections[i].Withdrawn?;
        assert stored[i].kind == KindWithdrawn;
      }
      if HasWithdrawnView(stored) {
        var i :| 0 <= i < |stored| && stored[i].kind == KindWithdrawn;
        if i < |record.corrections| { assert record.corrections[i].Withdrawn?; }
      }
    }
    if KeyUsed(record.corrections, key) {
      var i :| 0 <= i < |record.corrections| && record.corrections[i].key == key;
      assert stored[i].key == key;
    }
    if IsCounted(record) && CorrectionKeyTaken(w.tables.corrections, owner, entryId, key) {
      var i :| 0 <= i < |stored| && stored[i].key == key;
      assert record.corrections[i].key == key;
    }
  }

  lemma ExtendAgreement(domain: seq<Correction>, stored: seq<View>, c: Correction, v: View)
    requires UpToRedundantWithdrawals(domain, stored) && c == ToDomain(v)
    ensures !HasWithdrawal(domain) ==> UpToRedundantWithdrawals(domain + [c], stored + [v])
    ensures HasWithdrawal(domain) && v.kind == KindWithdrawn ==> UpToRedundantWithdrawals(domain, stored + [v])
  {
  }

  lemma ExtendChain(first: string, log: seq<View>, current: string, v: View)
    requires Chained(first, log, current)
    requires v.kind == KindRestated ==> v.occurredOn.Some? && v.supersededOn == Some(current) && !HasWithdrawnView(log)
    ensures Chained(first, log + [v], if v.kind == KindRestated then v.occurredOn.value else current)
  {
    var all := log + [v];
    assert all[..|log|] == log;
    forall i | 0 <= i < |all| && all[i].kind == KindRestated
      ensures all[i].occurredOn.Some? && all[i].supersededOn == Some(DayStated(first, all[..i])) && !HasWithdrawnView(all[..i])
    {
      if i < |log| { assert all[..i] == log[..i] && all[i] == log[i]; }
    }
  }

  /** What an applied correction leaves in the tables for the entry it names. */
  lemma {:induction false} AppendEffect(t: Tables, owner: string, entryId: string, c: Correction)
    requires CorrectionApplies(t, owner, entryId, c)
    ensures ViewsOf(AppendCorrection(t, owner, entryId, c).corrections, owner, entryId)
         == ViewsOf(t.corrections, owner, entryId) + [ToView(SelectedCorrection(t, owner, entryId, c).value)]
    ensures var row := RowFor(t.dates, owner, entryId).value;
            RowFor(AppendCorrection(t, owner, entryId, c).dates, owner, entryId)
            == Some(if c.Restated? then row.(occurredOn := c.occurredOn) else row)
  {
    ViewsAppend(t.corrections, SelectedCorrection(t, owner, entryId, c).value, owner, entryId);
    if c.Restated? { FindRowMoved(t.dates, owner, entryId, c.occurredOn, owner, entryId); }
  }

  /** The effect of a correction on the entry it names. */
  lemma CorrectedEntry(w: World, owner: string, entryId: string, c: Correction)
    requires Sound(w) && CorrectCompletedDate(LedgerOf(w, owner), entryId, c).Ok?
    requires !CorrectionFaults(w.tables, owner, entryId, c)
    ensures AgreesAt(Step(w, DoCorrect(owner, entryId, c)), owner, entryId)
  {
    var ledger, t := LedgerOf(w, owner), w.tables;
    assert AgreesAt(w, owner, entryId);
    assert LedgerOf(Step(w, DoCorrect(owner, entryId, c)), owner) == CorrectCompletedDate(ledger, entryId, c).value;
    var record := RecordFor(ledger.records, entryId).value;
    var stored := ViewsOf(t.corrections, owner, entryId);
    CorrectingTouchesOne(ledger, entryId, c, entryId);
    TestsAgree(w, owner, entryId, c.key);
    if CorrectionApplies(t, owner, entryId, c) {
      AppendEffect(t, owner, entryId, c);
      ExtendAgreement(record.corrections, stored, c, ToView(SelectedCorrection(t, owner, entryId, c).value));
    }
  }

  /** And the chain of that entry's restatements. */
  lemma CorrectedChain(w: World, owner: string, entryId: string, c: Correction)
    requires Sound(w) && CorrectCompletedDate(LedgerOf(w, owner), entryId, c).Ok?
    requires !CorrectionFaults(w.tables, owner, entryId, c)
    ensures ChainedAt(Step(w, DoCorrect(owner, entryId, c)), owner, entryId)
  {
    var t := w.tables;
    assert ChainedAt(w, owner, entryId);
    if CorrectionApplies(t, owner, entryId, c) {
      var row, stored := RowFor(t.dates, owner, entryId).value, ViewsOf(t.corrections, owner, entryId);
      AppendEffect(t, owner, entryId, c);
      ViewWithdrawal(t.corrections, owner, entryId);
      ExtendChain(w.claims[(owner, entryId)], stored, row.occurredOn, ToView(SelectedCorrection(t, owner, entryId, c).value));
    }
  }

  lemma UntouchedEntry(w: World, owner: string, entryId: string, c: Correction, o: string, e: string)
    requires Sound(w) && CorrectCompletedDate(LedgerOf(w, owner), entryId, c).Ok?
    requires !CorrectionFaults(w.tables, owner, entryId, c) && (o, e) != (owner, entryId)
    ensures AgreesAt(Step(w, DoCorrect(owner, entryId, c)), o, e) && ChainedAt(Step(w, DoCorrect(owner, entryId, c)), o, e)
  {
    var t := w.tables;
    var next := Step(w, DoCorrect(owner, entryId, c));
    assert AgreesAt(w, o, e) && ChainedAt(w, o, e);
    if o == owner {
      CorrectingTouchesOne(LedgerOf(w, owner), entryId, c, e);
      assert LedgerOf(next, o) == CorrectCompletedDate(LedgerOf(w, owner), entryId, c).value;
    } else {
      assert LedgerOf(next, o) == LedgerOf(w, o);
    }
    if CorrectionApplies(t, owner, entryId, c) {
      var inserted := SelectedCorrection(t, owner, entryId, c).value;
      ViewsAppend(t.corrections, inserted, o, e);
      assert ViewsOf(t.corrections, o, e) + [] == ViewsOf(t.corrections, o, e);
      if c.Restated? { FindRowMoved(t.dates, owner, entryId, c.occurredOn, o, e); }
    }
  }

  lemma LedgersStayDistinct(w: World, command: Command, owner: string)
    requires Sound(w)
    ensures LedgerOf(Step(w, command), owner).ownerId == owner && DistinctEntries(LedgerOf(Step(w, command), owner).records)
  {
    var next := Step(w, command);
    if next != w && owner == command.owner {
      match command {
        case DoRecord(_, entry) => RecordingAddsOne(LedgerOf(w, owner), entry, entry.entryId);
        case DoCorrect(_, entryId, c) => CorrectingTouchesOne(LedgerOf(w, owner), entryId, c, entryId);
      }
    } else {
      assert LedgerOf(next, owner) == LedgerOf(w, owner);
    }
  }

  lemma StepIsSound(w: World, command: Command)
    requires Sound(w)
    ensures Sound(Step(w, command))
  {
    var next := Step(w, command);
    forall owner
      ensures LedgerOf(next, owner).ownerId == owner && DistinctEntries(LedgerOf(next, owner).records)
    {
      LedgersStayDistinct(w, command, owner);
    }
    match command {
      case DoRecord(owner, entry) =>
        if next != w {
          InsertDateKeepsRows(w.tables, RowOf(owner, entry));
          forall o, e ensures AgreesAt(next, o, e) && ChainedAt(next, o, e) {
            RecordStepAgrees(w, owner, entry, o, e);
          }
        }
      case DoCorrect(owner, entryId, c) =>
        if next != w {
          AppendCorrectionConsistent(w.tables, owner, entryId, c);
          forall o, e ensures AgreesAt(next, o, e) && ChainedAt(next, o, e) {
            if (o, e) == (owner, entryId) {
              CorrectedEntry(w, owner, entryId, c);
              CorrectedChain(w, owner, entryId, c);
            } else {
              UntouchedEntry(w, owner, entryId, c, o, e);
            }
          }
        }
    }
  }

  const EMPTY := World(map[], Tables([], [], 0), map[])

  lemma EmptyIsSound()
    ensures Sound(EMPTY)
  {
  }

  lemma {:induction false} RunIsSound(w: World, commands: seq<Command>)
    requires Sound(w)
    ensures Sound(Run(w, commands))
    decreases |commands|
  {
    if commands != [] {
      StepIsSound(w, commands[0]);
      RunIsSound(Step(w, commands[0]), commands[1..]);
    }
  }

  // ------------------------------------------------------------------ main results --

  predicate EntryCounted(e: EntryView) {
    !HasWithdrawnView(e.corrections)
  }

  function StoredCount(entries: seq<EntryView>): nat {
    |Filter(entries, EntryCounted)|
  }

  lemma ReadsRow(t: Tables, owner: string, entryId: string)
    requires Consistent(t) && RowFor(t.dates, owner, entryId).Some?
    ensures ToEntry(t, RowFor(t.dates, owner, entryId).value) in ReadLedger(t, owner)
  {
    var d := RowFor(t.dates, owner, entryId).value;
    var mine := Filter(t.dates, (row: DateRow) => row.owner == owner);
    assert d in multiset(mine);
    assert d in multiset(OwnerRows(t.dates, owner));
    var i :| 0 <= i < |OwnerRows(t.dates, owner)| && OwnerRows(t.dates, owner)[i] == d;
    assert ReadLedger(t, owner)[i] == ToEntry(t, d);
  }

  lemma ReadEntryHasRow(t: Tables, owner: string, i: nat)
    requires Consistent(t) && i < |ReadLedger(t, owner)|
    ensures var e := ReadLedger(t, owner)[i];
            RowFor(t.dates, owner, e.entryId).Some? && e == ToEntry(t, RowFor(t.dates, owner, e.entryId).value)
  {
    var d := OwnerRows(t.dates, owner)[i];
    OwnerRowIsOwned(t.dates, owner, d);
    var j :| 0 <= j < |t.dates| && t.dates[j] == d;
    var found := RowFor(t.dates, owner, d.entryId);
    assert SameEntry(t.dates[j], owner, d.entryId);
    var k :| 0 <= k < |t.dates| && t.dates[k] == found.value;
    assert j == k;
  }

  /**
   * After any run, what the store reads back holds the aggregate's entries and no
   * others, each with the same counterpart, effective day, recording instant and
   * verdict, and a correction log equal up to redundant withdrawals.
   */
  lemma {:induction false} StoreSimulatesLedger(commands: seq<Command>, owner: string, entryId: string)
    ensures var w := Run(EMPTY, commands);
      var record := RecordFor(LedgerOf(w, owner).records, entryId);
      (record.Some? <==> exists i :: 0 <= i < |ReadLedger(w.tables, owner)| && ReadLedger(w.tables, owner)[i].entryId == entryId)
      && forall i :: 0 <= i < |ReadLedger(w.tables, owner)| && ReadLedger(w.tables, owner)[i].entryId == entryId ==>
           var e := ReadLedger(w.tables, owner)[i];
           record.Some? && e.occurredOn == record.value.occurredOn && e.counterpartId == record.value.counterpartId
           && e.recordedAt == record.value.recordedAt
           && UpToRedundantWithdrawals(record.value.corrections, e.corrections)
           && (EntryCounted(e) <==> IsCounted(record.value))
  {
    EmptyIsSound();
    RunIsSound(EMPTY, commands);
    var w := Run(EMPTY, commands);
    assert AgreesAt(w, owner, entryId);
    if RecordFor(LedgerOf(w, owner).records, entryId).Some? {
      ReadsRow(w.tables, owner, entryId);
      VerdictsAgree(w, owner, entryId);
    }
    forall i | 0 <= i < |ReadLedger(w.tables, owner)| && ReadLedger(w.tables, owner)[i].entryId == entryId
      ensures RowFor(w.tables.dates, owner, entryId).Some?
           && ReadLedger(w.tables, owner)[i] == ToEntry(w.tables, RowFor(w.tables.dates, owner, entryId).value)
    {
      ReadEntryHasRow(w.tables, owner, i);
    }
  }

  lemma {:induction false} VerdictsAgree(w: World, owner: string, entryId: string)
    requires AgreesAt(w, owner, entryId) && RecordFor(LedgerOf(w, owner).records, entryId).Some?
    ensures !HasWithdrawnView(ViewsOf(w.tables.corrections, owner, entryId))
       <==> IsCounted(RecordFor(LedgerOf(w, owner).records, entryId).value)
  {
    TestsAgree(w, owner, entryId, "");
    ViewWithdrawal(w.tables.corrections, owner, entryId);
  }

  lemma {:induction false} OrderKeepsDistinct(s: seq<DateRow>)
    requires DistinctBy(s, EntryIdOf)
    ensures DistinctBy(OrderRows(s), EntryIdOf)
  {
    if s != [] {
      OrderKeepsDistinct(s[1..]);
      var rest := OrderRows(s[1..]);
      forall i | 0 <= i < |rest| ensures rest[i].entryId != s[0].entryId {
        assert rest[i] in multiset(rest);
        assert rest[i] in s[1..];
      }
      InsertKeepsDistinct(s[0], rest);
    }
  }

  lemma {:induction false} InsertKeepsDistinct(x: DateRow, s: seq<DateRow>)
    requires DistinctBy(s, EntryIdOf) && forall i :: 0 <= i < |s| ==> s[i].entryId != x.entryId
    ensures DistinctBy(InsertRow(x, s), EntryIdOf)
  {
    if s != [] && !RowLeq(x, s[0]) {
      InsertKeepsDistinct(x, s[1..]);
      var rest := InsertRow(x, s[1..]);
      forall i | 0 <= i < |rest| ensures rest[i].entryId != s[0].entryId {
        assert rest[i] in multiset(rest);
        assert rest[i] == x || rest[i] in s[1..];
      }
    }
  }

  function EntryIdOf(d: DateRow): string {
    d.entryId
  }

  function ViewId(e: EntryView): string {
    e.entryId
  }

  function RecordId(r: Record): string {
    r.entryId
  }

  lemma {:induction false} OwnerRowsDistinct(dates: seq<DateRow>, owner: string)
    requires forall i, j :: 0 <= i < j < |dates| ==> !SameEntry(dates[j], dates[i].owner, dates[i].entryId)
    ensures DistinctBy(Filter(dates, (d: DateRow) => d.owner == owner), EntryIdOf)
  {
    if dates != [] {
      OwnerRowsDistinct(dates[1..], owner);
      var rest := Filter(dates[1..], (d: DateRow) => d.owner == owner);
      forall i | 0 <= i < |rest| && dates[0].owner == owner ensures rest[i].entryId != dates[0].entryId {
        assert rest[i] in dates[1..];
        var j :| 0 <= j < |dates[1..]| && dates[1..][j] == rest[i];
        assert dates[j + 1] == rest[i];
      }
    }
  }

  /** The count read off the store is the aggregate's count, after any run and for every owner. */
  lemma {:induction false} StoredCountIsTheCount(commands: seq<Command>, owner: string)
    ensures StoredCount(ReadLedger(Run(EMPTY, commands).tables, owner)) == CompletedDateCount(LedgerOf(Run(EMPTY, commands), owner))
  {
    EmptyIsSound();
    RunIsSound(EMPTY, commands);
    var w := Run(EMPTY, commands);
    var entries, records := ReadLedger(w.tables, owner), LedgerOf(w, owner).records;
    OwnerRowsDistinct(w.tables.dates, owner);
    OrderKeepsDistinct(Filter(w.tables.dates, (d: DateRow) => d.owner == owner));
    assert DistinctBy(entries, ViewId) by {
      assert forall i :: 0 <= i < |entries| ==> ViewId(entries[i]) == EntryIdOf(OwnerRows(w.tables.dates, owner)[i]);
    }
    FilterCountsKeys(entries, ViewId, EntryCounted);
    FilterCountsKeys(records, RecordId, IsCounted);
    forall id ensures id in KeysWhere(entries, ViewId, EntryCounted) <==> id in KeysWhere(records, RecordId, IsCounted) {
      CountedTogether(w, commands, owner, id);
    }
    assert KeysWhere(entries, ViewId, EntryCounted) == KeysWhere(records, RecordId, IsCounted);
  }

  lemma {:induction false} CountedTogether(w: World, commands: seq<Command>, owner: string, id: string)
    requires w == Run(EMPTY, commands) && Sound(w)
    ensures id in KeysWhere(ReadLedger(w.tables, owner), ViewId, EntryCounted)
       <==> id in KeysWhere(LedgerOf(w, owner).records, RecordId, IsCounted)
  {
    var entries, records := ReadLedger(w.tables, owner), LedgerOf(w, owner).records;
    StoreSimulatesLedger(commands, owner, id);
    if id in KeysWhere(entries, ViewId, EntryCounted) {
      var i :| 0 <= i < |entries| && EntryCounted(entries[i]) && ViewId(entries[i]) == id;
      var record := RecordFor(records, id).value;
      var j :| 0 <= j < |records| && records[j] == record;
      assert RecordId(records[j]) == id;
    }
    if id in KeysWhere(records, RecordId, IsCounted) {
      var j :| 0 <= j < |records| && IsCounted(records[j]) && RecordId(records[j]) == id;
      RecordIsFound(records, j);
      var i :| 0 <= i < |entries| && entries[i].entryId == id;
      assert ViewId(entries[i]) == id;
    }
  }

  /**
   * After any run each entry's restatements, in append order, form a chain from the
   * day first claimed to the day the row now says, and none follows a withdrawal.
   */
  lemma {:induction false} RestatementsFormAChain(commands: seq<Command>, owner: string, entryId: string)
    requires RowFor(Run(EMPTY, commands).tables.dates, owner, entryId).Some?
    ensures var w := Run(EMPTY, commands);
      (owner, entryId) in w.claims
      && Chained(w.claims[(owner, entryId)], ViewsOf(w.tables.corrections, owner, entryId),
                 RowFor(w.tables.dates, owner, entryId).value.occurredOn)
  {
    EmptyIsSound();
    RunIsSound(EMPTY, commands);
    assert ChainedAt(Run(EMPTY, commands), owner, entryId);
  }

  // ------------------------------------------------- what reaches the two sides --

  ghost predicate LedgerDaysHadCome(w: World, owner: string, entryId: string) {
    var record := RecordFor(LedgerOf(w, owner).records, entryId);
    record.Some? ==> DaysHadCome(record.value)
  }

  lemma StepKeepsDays(w: World, command: Command, owner: string, entryId: string)
    requires Sound(w) && LedgerDaysHadCome(w, owner, entryId)
    ensures LedgerDaysHadCome(Step(w, command), owner, entryId)
  {
    match command
    case DoRecord(o, entry) =>
      if Step(w, command) != w && o == owner { RecordingKeepsDays(LedgerOf(w, owner), entry, entryId); }
    case DoCorrect(o, named, c) =>
      if Step(w, command) != w && o == owner { CorrectingKeepsDays(LedgerOf(w, owner), named, c, entryId); }
  }

  lemma {:induction false} RunKeepsDays(w: World, commands: seq<Command>, owner: string, entryId: string)
    requires Sound(w) && LedgerDaysHadCome(w, owner, entryId)
    ensures LedgerDaysHadCome(Run(w, commands), owner, entryId)
    decreases |commands|
  {
    if commands != [] {
      StepIsSound(w, commands[0]);
      StepKeepsDays(w, commands[0], owner, entryId);
      RunKeepsDays(Step(w, commands[0]), commands[1..], owner, entryId);
    }
  }

  /**
   * After any run, on either side: the day an entry says, and each day restated on the
   * way, is a real one not after the UTC day on which it was said.
   */
  lemma {:induction false} NoDayFromTheFuture(commands: seq<Command>, owner: string, entryId: string)
    ensures var w := Run(EMPTY, commands);
            var record, row := RecordFor(LedgerOf(w, owner).records, entryId), RowFor(w.tables.dates, owner, entryId);
            (record.Some? <==> row.Some?)
            && (record.Some? ==>
                  DaysHadCome(record.value)
                  && HasCome(row.value.occurredOn, StatedAt(record.value.recordedAt, record.value.corrections)))
  {
    EmptyIsSound();
    RunIsSound(EMPTY, commands);
    RunKeepsDays(EMPTY, commands, owner, entryId);
    assert AgreesAt(Run(EMPTY, commands), owner, entryId);
  }

  /** A day that has come is one the column takes. */
  lemma ComeDaysAreStorable(text: string, at: int)
    requires HasCome(text, at)
    ensures StorableDay(text)
  {
    ReadsNamedDays(text);
    RoundTripIffReal(ParseIso(text).value);
  }

  /** Exactly when an entry is there after a recording: it was, or it was taken and its id fits the column. */
  lemma RecordedIff(w: World, owner: string, entry: NewDate)
    requires Sound(w)
    ensures var next := Step(w, DoRecord(owner, entry));
            RecordFor(LedgerOf(next, owner).records, entry.entryId).Some?
            <==> RecordFor(LedgerOf(w, owner).records, entry.entryId).Some?
                 || (entry.counterpartId != Some(owner) && HasCome(entry.occurredOn, entry.recordedAt) && 1 <= |entry.entryId| <= 200)
  {
    var ledger := LedgerOf(w, owner);
    assert ledger.ownerId == owner;
    RecordAcceptedIff(ledger, entry);
    if HasCome(entry.occurredOn, entry.recordedAt) { ComeDaysAreStorable(entry.occurredOn, entry.recordedAt); }
    if RecordCompletedDate(ledger, entry).Ok? { RecordingAddsOne(ledger, entry, entry.entryId); }
  }

  /** A correction a ledger would add: of a date that counts, under a new key, to a day that has come. */
  ghost predicate Adds(record: Record, c: Correction) {
    !HasKey(record.corrections, c.key) && !IsWithdrawn(record.corrections) && (c.Restated? ==> HasCome(c.occurredOn, c.at))
  }

  /** Exactly when a correction reaches an entry, and what the entry then is. */
  lemma CorrectedIff(w: World, owner: string, i: nat, c: Correction)
    requires Sound(w) && i < |LedgerOf(w, owner).records|
    ensures var record := LedgerOf(w, owner).records[i];
            var next := Step(w, DoCorrect(owner, record.entryId, c));
            RecordFor(LedgerOf(next, owner).records, record.entryId)
            == Some(if Adds(record, c) && record.entryId != "" && 1 <= |c.key| <= 200
                    then record.(corrections := record.corrections + [c],
                                 occurredOn := if c.Restated? then c.occurredOn else record.occurredOn)
                    else record)
  {
    var ledger := LedgerOf(w, owner);
    var record := ledger.records[i];
    RecordIsFound(ledger.records, i);
    CorrectionAnswerIff(ledger, i, c);
    UnknownEntryIff(ledger, record.entryId, c);
    if Adds(record, c) { SelectedWhenCounted(w, owner, record, c); }
    if CorrectCompletedDate(ledger, record.entryId, c).Ok? {
      CorrectingTouchesOne(ledger, record.entryId, c, record.entryId);
    }
    assert KeyUsed(record.corrections, c.key) <==> HasKey(record.corrections, c.key);
    assert HasWithdrawal(record.corrections) <==> IsWithdrawn(record.corrections);
  }

  /** The store's own tests on a correction the ledger would add. */
  lemma SelectedWhenCounted(w: World, owner: string, record: Record, c: Correction)
    requires Sound(w) && RecordFor(LedgerOf(w, owner).records, record.entryId) == Some(record) && Adds(record, c)
    ensures CorrectionFaults(w.tables, owner, record.entryId, c) <==> record.entryId == "" || !StorableText(c.key)
  {
    assert AgreesAt(w, owner, record.entryId);
    TestsAgree(w, owner, record.entryId, c.key);
    assert HasWithdrawal(record.corrections) <==> IsWithdrawn(record.corrections);
    if c.Restated? { ComeDaysAreStorable(c.occurredOn, c.at); }
  }

  lemma WithdrawnIsIgnored(w: World, owner: string, entryId: string, key: string, at: int)
    requires AgreesAt(w, owner, entryId) && RecordFor(LedgerOf(w, owner).records, entryId).Some?
    requires !IsCounted(RecordFor(LedgerOf(w, owner).records, entryId).value)
    ensures CorrectCompletedDate(LedgerOf(w, owner), entryId, Correction.Withdrawn(key, at)) == Ok(LedgerOf(w, owner))
    ensures RowFor(w.tables.dates, owner, entryId).Some?
  {
    TestsAgree(w, owner, entryId, key);
  }

  /** What a withdrawal adds to the stored log. */
  lemma {:induction false} WithdrawalStored(t: Tables, owner: string, entryId: string, key: string, at: int)
    requires RowFor(t.dates, owner, entryId).Some?
    ensures ViewsOf(AppendCorrection(t, owner, entryId, Correction.Withdrawn(key, at)).corrections, owner, entryId)
         == ViewsOf(t.corrections, owner, entryId)
            + if CorrectionKeyTaken(t.corrections, owner, entryId, key) then [] else [View(key, KindWithdrawn, at, None, None)]
  {
    ViewsAppend(t.corrections, SelectedCorrection(t, owner, entryId, Correction.Withdrawn(key, at)).value, owner, entryId);
  }

  lemma IgnoredStep(w: World, owner: string, entryId: string, c: Correction)
    requires CorrectCompletedDate(LedgerOf(w, owner), entryId, c) == Ok(LedgerOf(w, owner))
    ensures LedgerOf(Step(w, DoCorrect(owner, entryId, c)), owner) == LedgerOf(w, owner)
    ensures Step(w, DoCorrect(owner, entryId, c)).tables
         == if CorrectionFaults(w.tables, owner, entryId, c) then w.tables else AppendCorrection(w.tables, owner, entryId, c)
  {
  }

  /**
   * A further withdrawal of a withdrawn entry changes nothing in the ledger; the store
   * keeps it exactly when its text can be stored and its key is new, so the two logs
   * are not always equal.
   */
  lemma {:induction false} RedundantWithdrawalIsStoredIff(w: World, owner: string, entryId: string, key: string, at: int)
    requires Sound(w) && RecordFor(LedgerOf(w, owner).records, entryId).Some?
    requires !IsCounted(RecordFor(LedgerOf(w, owner).records, entryId).value)
    ensures var next := Step(w, DoCorrect(owner, entryId, Correction.Withdrawn(key, at)));
            var before, after := ViewsOf(w.tables.corrections, owner, entryId), ViewsOf(next.tables.corrections, owner, entryId);
            LedgerOf(next, owner) == LedgerOf(w, owner)
            && after == before
                        + if entryId != "" && StorableText(key) && !CorrectionKeyTaken(w.tables.corrections, owner, entryId, key)
                          then [View(key, KindWithdrawn, at, None, None)] else []
  {
    assert AgreesAt(w, owner, entryId);
    WithdrawnIsIgnored(w, owner, entryId, key, at);
    IgnoredStep(w, owner, entryId, Correction.Withdrawn(key, at));
    WithdrawalStored(w.tables, owner, entryId, key, at);
  }
}
