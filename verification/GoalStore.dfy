/**
 * The completed-date tables of `packages/database/src/store-goal.ts`: an entry row
 * whose day is rewritten by a restatement, and an append-only correction log that
 * keeps the day each restatement replaced.
 */
module GoalStore {
  import opened Core
  import opened Calendar
  import opened GoalLedger

  datatype DateRow = DateRow(
    owner: string, entryId: string, counterpartId: Option<string>, occurredOn: string, recordedAt: int)

  datatype Kind = KindWithdrawn | KindRestated

  datatype CorrectionRow = CorrectionRow(
    owner: string, entryId: string, key: string, kind: Kind,
    occurredOn: Option<string>, supersededOn: Option<string>, at: int, seqNo: nat)

  datatype Tables = Tables(dates: seq<DateRow>, corrections: seq<CorrectionRow>, nextSeq: nat)

  /** A correction as `findLedger` returns it. */
  datatype View = View(key: string, kind: Kind, at: int, occurredOn: Option<string>, supersededOn: Option<string>)

  datatype EntryView = EntryView(
    entryId: string, counterpartId: Option<string>, occurredOn: string, recordedAt: int, corrections: seq<View>)

  // --------------------------------------------------------------- constraints --

  /** `CHECK (char_length(...) BETWEEN 1 AND 200)`. */
  predicate StorableText(s: string) {
    1 <= |s| <= 200
  }

  /** Text the `::date` cast accepts, of the one format the product writes. */
  predicate StorableDay(s: string) {
    var p := ParseIso(s);
    p.Some? && p.value.year >= 1 && RealDay(p.value.year, p.value.month - 1, p.value.day)
  }

  /** Exactly the written days of the years 1 to 9999: earlier than the ledger takes them. */
  lemma StorableDayIff(s: string)
    ensures StorableDay(s)
       <==> exists p :: Writable(p) && 1 <= p.year && RealDay(p.year, p.month - 1, p.day) && s == WriteIso(p)
  {
    if StorableDay(s) { ParseIsoIff(s, ParseIso(s).value); }
    if p :| Writable(p) && 1 <= p.year && RealDay(p.year, p.month - 1, p.day) && s == WriteIso(p) { ParseIsoIff(s, p); }
  }

  predicate DaysFitKind(c: CorrectionRow) {
    c.kind == KindRestated <==> (c.occurredOn.Some? && c.supersededOn.Some?)
  }

  predicate SameEntry(d: DateRow, owner: string, entryId: string) {
    d.owner == owner && d.entryId == entryId
  }

  predicate OfEntry(c: CorrectionRow, owner: string, entryId: string) {
    c.owner == owner && c.entryId == entryId
  }

  predicate Consistent(t: Tables) {
    (forall i, j :: 0 <= i < j < |t.dates| ==> !SameEntry(t.dates[j], t.dates[i].owner, t.dates[i].entryId))
    && (forall i, j :: 0 <= i < j < |t.corrections| ==>
          t.corrections[i].seqNo < t.corrections[j].seqNo
          && !(OfEntry(t.corrections[j], t.corrections[i].owner, t.corrections[i].entryId)
               && t.corrections[i].key == t.corrections[j].key))
    && (forall i :: 0 <= i < |t.corrections| ==>
          DaysFitKind(t.corrections[i]) && t.corrections[i].seqNo < t.nextSeq
          && RowFor(t.dates, t.corrections[i].owner, t.corrections[i].entryId).Some?)
  }

  // ------------------------------------------------------------------- queries --

  function RowFor(dates: seq<DateRow>, owner: string, entryId: string): Option<DateRow> {
    Find(dates, (d: DateRow) => SameEntry(d, owner, entryId))
  }

  predicate CorrectionKeyTaken(corrections: seq<CorrectionRow>, owner: string, entryId: string, key: string) {
    exists i :: 0 <= i < |corrections| && OfEntry(corrections[i], owner, entryId) && corrections[i].key == key
  }

  predicate Withdrawal(corrections: seq<CorrectionRow>, owner: string, entryId: string) {
    exists i :: 0 <= i < |corrections| && OfEntry(corrections[i], owner, entryId) && corrections[i].kind == KindWithdrawn
  }

  function ToView(c: CorrectionRow): View {
    View(c.key, c.kind, c.at, c.occurredOn, c.supersededOn)
  }

  /** One entry's corrections, in append order. */
  function ViewsOf(corrections: seq<CorrectionRow>, owner: string, entryId: string): seq<View> {
    if corrections == [] then []
    else
      var last := corrections[|corrections| - 1];
      ViewsOf(corrections[..|corrections| - 1], owner, entryId)
      + if OfEntry(last, owner, entryId) then [ToView(last)] else []
  }

  /** The correction log of one owner; its append order is its `seq` order. */
  function OwnerLog(corrections: seq<CorrectionRow>, owner: string): (r: seq<CorrectionRow>)
    ensures forall c :: c in r ==> c in corrections && c.owner == owner
  {
    if corrections == [] then []
    else
      var last := corrections[|corrections| - 1];
      OwnerLog(corrections[..|corrections| - 1], owner) + if last.owner == owner then [last] else []
  }

  predicate RowLeq(a: DateRow, b: DateRow) {
    a.recordedAt < b.recordedAt || (a.recordedAt == b.recordedAt && StringLeq(a.entryId, b.entryId))
  }

  /** `ORDER BY recorded_at, entry_id`. */
  function InsertRow(x: DateRow, s: seq<DateRow>): (r: seq<DateRow>)
    ensures multiset(r) == multiset(s) + multiset{x}
  {
    if s == [] then [x]
    else if RowLeq(x, s[0]) then [x] + s
    else
      assert s == [s[0]] + s[1..];
      [s[0]] + InsertRow(x, s[1..])
  }

  function OrderRows(s: seq<DateRow>): (r: seq<DateRow>)
    ensures multiset(r) == multiset(s)
  {
    if s == [] then []
    else
      assert s == [s[0]] + s[1..];
      InsertRow(s[0], OrderRows(s[1..]))
  }

  function OwnerRows(dates: seq<DateRow>, owner: string): seq<DateRow> {
    OrderRows(Filter(dates, (d: DateRow) => d.owner == owner))
  }

  function ToEntry(t: Tables, d: DateRow): EntryView {
    EntryView(d.entryId, d.counterpartId, d.occurredOn, d.recordedAt, ViewsOf(t.corrections, d.owner, d.entryId))
  }

  /** What `findLedger` answers. */
  function ReadLedger(t: Tables, owner: string): seq<EntryView> {
    Map(OwnerRows(t.dates, owner), (d: DateRow) => ToEntry(t, d))
  }

  // ---------------------------------------------------------------- statements --

  /** `INSERT … ON CONFLICT (owner_id, entry_id) DO NOTHING`. */
  function InsertDate(t: Tables, row: DateRow): Tables {
    if RowFor(t.dates, row.owner, row.entryId).Some? then t else t.(dates := t.dates + [row])
  }

  /** The correction row a statement would insert, `None` when its SELECT yields nothing. */
  function SelectedCorrection(t: Tables, owner: string, entryId: string, c: Correction): Option<CorrectionRow> {
    var d := RowFor(t.dates, owner, entryId);
    if d.None? then None
    else if c.Withdrawn? then Some(CorrectionRow(owner, entryId, c.key, KindWithdrawn, None, None, c.at, t.nextSeq))
    else if Withdrawal(t.corrections, owner, entryId) then None
    else Some(CorrectionRow(owner, entryId, c.key, KindRestated, Some(c.occurredOn), Some(d.value.occurredOn), c.at, t.nextSeq))
  }

  predicate CorrectionApplies(t: Tables, owner: string, entryId: string, c: Correction) {
    SelectedCorrection(t, owner, entryId, c).Some? && !CorrectionKeyTaken(t.corrections, owner, entryId, c.key)
  }

  function MoveDay(dates: seq<DateRow>, owner: string, entryId: string, day: string): seq<DateRow> {
    Map(dates, (d: DateRow) => if SameEntry(d, owner, entryId) then d.(occurredOn := day) else d)
  }

  function AppendCorrection(t: Tables, owner: string, entryId: string, c: Correction): Tables {
    if !CorrectionApplies(t, owner, entryId, c) then t
    else Tables(
      if c.Restated? then MoveDay(t.dates, owner, entryId, c.occurredOn) else t.dates,
      t.corrections + [SelectedCorrection(t, owner, entryId, c).value],
      t.nextSeq + 1)
  }

  /** Refused with a fault: by a guard of the method, a cast or a CHECK. */
  predicate DateFaults(row: DateRow) {
    !StorableText(row.entryId) || !StorableDay(row.occurredOn)
  }

  predicate CorrectionFaults(t: Tables, owner: string, entryId: string, c: Correction) {
    entryId == "" || c.key == "" || (c.Restated? && !StorableDay(c.occurredOn))
    || (SelectedCorrection(t, owner, entryId, c).Some? && !StorableText(c.key))
  }

  // ------------------------------------------------------------------ the store --

  class Store {
    var dates: seq<DateRow>
    var corrections: seq<CorrectionRow>
    var nextSeq: nat

    function State(): Tables
      reads this
    {
      Tables(dates, corrections, nextSeq)
    }

    constructor ()
      ensures State() == Tables([], [], 0) && Consistent(State())
    {
      dates, corrections, nextSeq := [], [], 0;
    }

    method AppendCompletedDate(row: DateRow) returns (r: Result<bool, Code>)
      requires Consistent(State())
      modifies this
      ensures Consistent(State())
      ensures r.Err? <==> DateFaults(row)
      ensures State() == if DateFaults(row) then old(State()) else InsertDate(old(State()), row)
      ensures r.Ok? ==> r.value == RowFor(old(dates), row.owner, row.entryId).None?
    {
      if !StorableText(row.entryId) || !StorableDay(row.occurredOn) {
        return Err(ValidationFailed);
      }
      if RowFor(dates, row.owner, row.entryId).Some? {
        return Ok(false);
      }
      InsertDateKeepsRows(State(), row);
      dates := dates + [row];
      return Ok(true);
    }

    /** Two statements: the log row first, then — only if it was written — the entry's day. */
    method AppendDateCorrection(owner: string, entryId: string, c: Correction) returns (r: Result<bool, Code>)
      requires Consistent(State())
      modifies this
      ensures Consistent(State())
      ensures r.Err? <==> CorrectionFaults(old(State()), owner, entryId, c)
      ensures State() == if r.Err? then old(State()) else AppendCorrection(old(State()), owner, entryId, c)
      ensures r.Ok? ==> r.value == CorrectionApplies(old(State()), owner, entryId, c)
    {
      if entryId == "" || c.key == "" || (c.Restated? && !StorableDay(c.occurredOn)) {
        return Err(ValidationFailed);
      }
      var selected := SelectedCorrection(State(), owner, entryId, c);
      if selected.Some? && !StorableText(c.key) {
        return Err(ValidationFailed);
      }
      if selected.None? || CorrectionKeyTaken(corrections, owner, entryId, c.key) {
        return Ok(false);
      }
      AppendCorrectionConsistent(State(), owner, entryId, c);
      corrections := corrections + [selected.value];
      nextSeq := nextSeq + 1;
      if c.Restated? {
        dates := MoveDay(dates, owner, entryId, c.occurredOn);
      }
      return Ok(true);
    }

    /** Two ordered reads, grouped by entry in a map. A row of the wrong kind would be a fault. */
    method FindLedger(owner: string) returns (r: Result<seq<EntryView>, Code>)
      requires Consistent(State())
      ensures r == Ok(ReadLedger(State(), owner))
    {
      var entries := OwnerRows(dates, owner);
      LogFitsKinds(State(), owner);
      var grouped := GroupCorrections(owner, OwnerLog(corrections, owner));
      var result := AttachViews(State(), owner, grouped.value, entries);
      return Ok(result);
    }
  }

  lemma {:induction false} LogFitsKinds(t: Tables, owner: string)
    requires Consistent(t)
    ensures var log := OwnerLog(t.corrections, owner);
            forall i :: 0 <= i < |log| ==> DaysFitKind(log[i]) && log[i].owner == owner
  {
    var log := OwnerLog(t.corrections, owner);
    forall i | 0 <= i < |log| ensures DaysFitKind(log[i]) && log[i].owner == owner {
      assert log[i] in log;
      var k :| 0 <= k < |t.corrections| && t.corrections[k] == log[i];
    }
  }

  predicate Grouped(t: Tables, owner: string, grouped: map<string, seq<View>>, entryId: string) {
    Group(grouped, entryId) == ViewsOf(OwnerLog(t.corrections, owner), owner, entryId)
  }

  lemma AttachedRow(t: Tables, owner: string, grouped: map<string, seq<View>>, d: DateRow)
    requires d in OwnerRows(t.dates, owner) && Grouped(t, owner, grouped, d.entryId)
    ensures EntryView(d.entryId, d.counterpartId, d.occurredOn, d.recordedAt, Group(grouped, d.entryId)) == ToEntry(t, d)
  {
    OwnerRowIsOwned(t.dates, owner, d);
    OwnerLogKeepsViews(t.corrections, owner, d.entryId);
  }

  method AttachViews(ghost t: Tables, ghost owner: string, grouped: map<string, seq<View>>, entries: seq<DateRow>)
    returns (result: seq<EntryView>)
    requires entries == OwnerRows(t.dates, owner) && forall id :: Grouped(t, owner, grouped, id)
    ensures result == ReadLedger(t, owner)
  {
    result := [];
    for i := 0 to |entries|
      invariant |result| == i
      invariant forall k :: 0 <= k < i ==> result[k] == ToEntry(t, entries[k])
    {
      var d := entries[i];
      assert Grouped(t, owner, grouped, d.entryId);
      AttachedRow(t, owner, grouped, d);
      result := result + [EntryView(d.entryId, d.counterpartId, d.occurredOn, d.recordedAt, Group(grouped, d.entryId))];
    }
    assert result == ReadLedger(t, owner);
  }

  function Group(grouped: map<string, seq<View>>, entryId: string): seq<View> {
    if entryId in grouped then grouped[entryId] else []
  }

  method GroupCorrections(owner: string, log: seq<CorrectionRow>) returns (r: Result<map<string, seq<View>>, Code>)
    requires forall i :: 0 <= i < |log| ==> DaysFitKind(log[i]) && log[i].owner == owner
    ensures r.Ok? && forall id :: Group(r.value, id) == ViewsOf(log, owner, id)
  {
    var grouped: map<string, seq<View>> := map[];
    for i := 0 to |log|
      invariant forall id :: Group(grouped, id) == ViewsOf(log[..i], owner, id)
    {
      var row := log[i];
      assert log[..i + 1][..i] == log[..i] && log[..i + 1][i] == row;
      if (row.kind == KindRestated) != (row.occurredOn.Some? && row.supersededOn.Some?) {
        return Err(ValidationFailed);
      }
      if row.entryId in grouped {
        grouped := grouped[row.entryId := grouped[row.entryId] + [ToView(row)]];
      } else {
        grouped := grouped[row.entryId := [ToView(row)]];
      }
    }
    assert log[..|log|] == log;
    return Ok(grouped);
  }

  lemma OwnerRowIsOwned(dates: seq<DateRow>, owner: string, d: DateRow)
    requires d in OwnerRows(dates, owner)
    ensures d in dates && d.owner == owner
  {
    assert d in multiset(OwnerRows(dates, owner));
    assert d in multiset(Filter(dates, (row: DateRow) => row.owner == owner));
  }

  lemma {:induction false} ViewsAppend(corrections: seq<CorrectionRow>, row: CorrectionRow, owner: string, entryId: string)
    ensures ViewsOf(corrections + [row], owner, entryId)
         == ViewsOf(corrections, owner, entryId) + if OfEntry(row, owner, entryId) then [ToView(row)] else []
  {
    assert (corrections + [row])[..|corrections|] == corrections;
  }

  lemma {:induction false} OwnerLogKeepsViews(corrections: seq<CorrectionRow>, owner: string, entryId: string)
    ensures ViewsOf(OwnerLog(corrections, owner), owner, entryId) == ViewsOf(corrections, owner, entryId)
  {
    if corrections != [] {
      var rest, last := corrections[..|corrections| - 1], corrections[|corrections| - 1];
      OwnerLogKeepsViews(rest, owner, entryId);
      ViewsAppend(OwnerLog(rest, owner), last, owner, entryId);
      assert OwnerLog(rest, owner) + [] == OwnerLog(rest, owner);
    }
  }

  ghost predicate OldestFirst(s: seq<DateRow>) {
    forall i, j :: 0 <= i < j < |s| ==> RowLeq(s[i], s[j])
  }

  lemma RowLeqOrder(a: DateRow, b: DateRow, c: DateRow)
    ensures RowLeq(a, b) || RowLeq(b, a)
    ensures RowLeq(a, b) && RowLeq(b, c) ==> RowLeq(a, c)
  {
    StringLeqTotal(a.entryId, b.entryId);
    if StringLeq(a.entryId, b.entryId) && StringLeq(b.entryId, c.entryId) {
      StringLeqTransitive(a.entryId, b.entryId, c.entryId);
    }
  }

  lemma {:induction false} InsertRowOrdered(x: DateRow, s: seq<DateRow>)
    requires OldestFirst(s)
    ensures OldestFirst(InsertRow(x, s))
  {
    if s == [] {
    } else if RowLeq(x, s[0]) {
      forall j | 0 < j < |s| ensures RowLeq(x, s[j]) { RowLeqOrder(x, s[0], s[j]); }
    } else {
      InsertRowOrdered(x, s[1..]);
      RowLeqOrder(x, s[0], x);
      var rest := InsertRow(x, s[1..]);
      forall j | 0 <= j < |rest| ensures RowLeq(s[0], rest[j]) {
        assert rest[j] in multiset(rest);
        assert rest[j] == x || rest[j] in s[1..];
      }
    }
  }

  /** `findLedger` answers the owner's rows and no others, oldest first, ties by entry id. */
  lemma {:induction false} OrderRowsSorts(s: seq<DateRow>)
    ensures OldestFirst(OrderRows(s)) && multiset(OrderRows(s)) == multiset(s)
  {
    if s != [] {
      OrderRowsSorts(s[1..]);
      InsertRowOrdered(s[0], OrderRows(s[1..]));
    }
  }

  // ---------------------------------------------------------- effects, row by row --

  lemma {:induction false} FindRowAppend(dates: seq<DateRow>, row: DateRow, owner: string, entryId: string)
    ensures RowFor(dates + [row], owner, entryId)
         == if RowFor(dates, owner, entryId).Some? then RowFor(dates, owner, entryId)
            else if SameEntry(row, owner, entryId) then Some(row) else None
  {
    if dates == [] {
      assert dates + [row] == [row] && [row][1..] == [];
    } else {
      assert (dates + [row])[1..] == dates[1..] + [row];
      FindRowAppend(dates[1..], row, owner, entryId);
    }
  }

  lemma {:induction false} FindRowMoved(dates: seq<DateRow>, owner: string, entryId: string, day: string, o: string, e: string)
    ensures RowFor(MoveDay(dates, owner, entryId, day), o, e)
         == var before := RowFor(dates, o, e);
            if before.Some? && o == owner && e == entryId then Some(before.value.(occurredOn := day)) else before
  {
    if dates != [] {
      assert MoveDay(dates, owner, entryId, day)[1..] == MoveDay(dates[1..], owner, entryId, day);
      FindRowMoved(dates[1..], owner, entryId, day, o, e);
    }
  }

  lemma InsertDateKeepsRows(t: Tables, row: DateRow)
    requires Consistent(t)
    ensures Consistent(InsertDate(t, row))
  {
    if RowFor(t.dates, row.owner, row.entryId).None? {
      forall i | 0 <= i < |t.corrections|
        ensures RowFor(t.dates + [row], t.corrections[i].owner, t.corrections[i].entryId).Some?
      {
        FindRowAppend(t.dates, row, t.corrections[i].owner, t.corrections[i].entryId);
      }
    }
  }

  lemma AppendCorrectionConsistent(t: Tables, owner: string, entryId: string, c: Correction)
    requires Consistent(t)
    ensures Consistent(AppendCorrection(t, owner, entryId, c))
  {
    if CorrectionApplies(t, owner, entryId, c) {
      var after := AppendCorrection(t, owner, entryId, c);
      if c.Restated? {
        forall i | 0 <= i < |after.corrections|
          ensures RowFor(after.dates, after.corrections[i].owner, after.corrections[i].entryId).Some?
        {
          FindRowMoved(t.dates, owner, entryId, c.occurredOn, after.corrections[i].owner, after.corrections[i].entryId);
        }
      }
    }
  }

  lemma {:induction false} ViewKeys(corrections: seq<CorrectionRow>, owner: string, entryId: string, key: string)
    ensures CorrectionKeyTaken(corrections, owner, entryId, key)
       <==> exists i :: 0 <= i < |ViewsOf(corrections, owner, entryId)| && ViewsOf(corrections, owner, entryId)[i].key == key
  {
    if corrections != [] {
      var rest, last := corrections[..|corrections| - 1], corrections[|corrections| - 1];
      var was, now := ViewsOf(rest, owner, entryId), ViewsOf(corrections, owner, entryId);
      ViewKeys(rest, owner, entryId, key);
      assert forall i :: 0 <= i < |was| ==> now[i] == was[i];
      if CorrectionKeyTaken(rest, owner, entryId, key) {
        var i :| 0 <= i < |rest| && OfEntry(rest[i], owner, entryId) && rest[i].key == key;
        assert corrections[i] == rest[i];
      }
      if OfEntry(last, owner, entryId) { assert now[|was|] == ToView(last); }
    }
  }

  lemma {:induction false} ViewWithdrawal(corrections: seq<CorrectionRow>, owner: string, entryId: string)
    ensures Withdrawal(corrections, owner, entryId)
       <==> exists i :: 0 <= i < |ViewsOf(corrections, owner, entryId)| && ViewsOf(corrections, owner, entryId)[i].kind == KindWithdrawn
  {
    if corrections != [] {
      var rest, last := corrections[..|corrections| - 1], corrections[|corrections| - 1];
      var was, now := ViewsOf(rest, owner, entryId), ViewsOf(corrections, owner, entryId);
      ViewWithdrawal(rest, owner, entryId);
      assert forall i :: 0 <= i < |was| ==> now[i] == was[i];
      if Withdrawal(rest, owner, entryId) {
        var i :| 0 <= i < |rest| && OfEntry(rest[i], owner, entryId) && rest[i].kind == KindWithdrawn;
        assert corrections[i] == rest[i];
      }
      if OfEntry(last, owner, entryId) { assert now[|was|] == ToView(last); }
    }
  }

  lemma {:induction false} NoRowNoViews(t: Tables, corrections: seq<CorrectionRow>, owner: string, entryId: string)
    requires Consistent(t) && corrections <= t.corrections && RowFor(t.dates, owner, entryId).None?
    ensures ViewsOf(corrections, owner, entryId) == []
  {
    if corrections != [] {
      var n := |corrections| - 1;
      assert corrections[n] == t.corrections[n];
      assert RowFor(t.dates, t.corrections[n].owner, t.corrections[n].entryId).Some?;
      NoRowNoViews(t, corrections[..n], owner, entryId);
    }
  }
}
