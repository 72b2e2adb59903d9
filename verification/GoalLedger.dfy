/** The completed-date aggregate of `packages/dating/src/goal.ts`. */
module GoalLedger {
  import opened Core
  import opened Calendar

  datatype Correction =
    | Withdrawn(key: string, at: int)
    | Restated(key: string, at: int, occurredOn: string)

  datatype Record = Record(
    entryId: string, counterpartId: Option<string>, occurredOn: string, recordedAt: int, corrections: seq<Correction>)

  datatype Ledger = Ledger(ownerId: string, records: seq<Record>)

  datatype NewDate = NewDate(entryId: string, counterpartId: Option<string>, occurredOn: string, recordedAt: int)

  /** A real day, written as `YYYY-MM-DD`, that has happened by `at`. */
  predicate ValidOccurredOn(occurredOn: string, at: int) {
    var p := ParseIso(occurredOn);
    p.Some? && RoundTrips(p.value) && UtcDay(p.value.year, p.value.month - 1, p.value.day) <= UtcToday(at)
  }

  predicate HasWithdrawal(corrections: seq<Correction>) {
    exists i :: 0 <= i < |corrections| && corrections[i].Withdrawn?
  }

  predicate IsCounted(record: Record) {
    !HasWithdrawal(record.corrections)
  }

  function CompletedDateCount(ledger: Ledger): nat {
    |Filter(ledger.records, IsCounted)|
  }

  function RecordFor(records: seq<Record>, entryId: string): Option<Record> {
    Find(records, (r: Record) => r.entryId == entryId)
  }

  function RecordCompletedDate(ledger: Ledger, entry: NewDate): Result<Ledger, Code> {
    if entry.counterpartId == Some(ledger.ownerId) then Err(ValidationFailed)
    else if RecordFor(ledger.records, entry.entryId).Some? then Ok(ledger)
    else if !ValidOccurredOn(entry.occurredOn, entry.recordedAt) then Err(ValidationFailed)
    else Ok(ledger.(records := ledger.records +
              [Record(entry.entryId, entry.counterpartId, entry.occurredOn, entry.recordedAt, [])]))
  }

  predicate KeyUsed(corrections: seq<Correction>, key: string) {
    exists i :: 0 <= i < |corrections| && corrections[i].key == key
  }

  function Replace(records: seq<Record>, entryId: string, now: Record): seq<Record> {
    Map(records, (r: Record) => if r.entryId == entryId then now else r)
  }

  function CorrectCompletedDate(ledger: Ledger, entryId: string, correction: Correction): Result<Ledger, Code> {
    var found := RecordFor(ledger.records, entryId);
    if found.None? then Err(NotFound)
    else
      var record := found.value;
      if KeyUsed(record.corrections, correction.key) then Ok(ledger)
      else if !IsCounted(record) then (if correction.Restated? then Err(Conflict) else Ok(ledger))
      else if correction.Restated? && !ValidOccurredOn(correction.occurredOn, correction.at) then Err(ValidationFailed)
      else
        var corrected := record.(
          corrections := record.corrections + [correction],
          occurredOn := if correction.Restated? then correction.occurredOn else record.occurredOn);
        Ok(ledger.(records := Replace(ledger.records, entryId, corrected)))
  }

  // ------------------------------------------------------------ the aggregate --

  ghost predicate DistinctEntries(records: seq<Record>) {
    forall i, j :: 0 <= i < j < |records| ==> records[i].entryId != records[j].entryId
  }

  lemma RecordIsFound(records: seq<Record>, i: nat)
    requires DistinctEntries(records) && i < |records|
    ensures RecordFor(records, records[i].entryId) == Some(records[i])
  {
    var found := RecordFor(records, records[i].entryId);
    var j :| 0 <= j < |records| && records[j] == found.value;
    assert i == j;
  }

  /** What recording changes, entry by entry: only a new id, and only if it was absent. */
  lemma RecordingAddsOne(ledger: Ledger, entry: NewDate, entryId: string)
    requires DistinctEntries(ledger.records) && RecordCompletedDate(ledger, entry).Ok?
    ensures var after := RecordCompletedDate(ledger, entry).value;
            DistinctEntries(after.records) && after.ownerId == ledger.ownerId
    ensures RecordFor(RecordCompletedDate(ledger, entry).value.records, entryId)
         == var before := RecordFor(ledger.records, entryId);
            if before.None? && entryId == entry.entryId
            then Some(Record(entry.entryId, entry.counterpartId, entry.occurredOn, entry.recordedAt, []))
            else before
  {
    FindAppend(ledger.records, Record(entry.entryId, entry.counterpartId, entry.occurredOn, entry.recordedAt, []), entryId);
  }

  lemma {:induction false} FindAppend(records: seq<Record>, r: Record, entryId: string)
    ensures RecordFor(records + [r], entryId)
         == if RecordFor(records, entryId).Some? then RecordFor(records, entryId)
            else if r.entryId == entryId then Some(r) else None
  {
    if records == [] {
      assert records + [r] == [r] && [r][1..] == [];
    } else {
      assert (records + [r])[1..] == records[1..] + [r];
      FindAppend(records[1..], r, entryId);
    }
  }

  /** What correcting changes, entry by entry: one more correction on the named entry, or nothing. */
  lemma CorrectingTouchesOne(ledger: Ledger, entryId: string, correction: Correction, other: string)
    requires DistinctEntries(ledger.records) && CorrectCompletedDate(ledger, entryId, correction).Ok?
    ensures var after := CorrectCompletedDate(ledger, entryId, correction).value;
            DistinctEntries(after.records) && after.ownerId == ledger.ownerId
    ensures RecordFor(CorrectCompletedDate(ledger, entryId, correction).value.records, other)
         == var before := RecordFor(ledger.records, other);
            if other == entryId && !KeyUsed(before.value.corrections, correction.key) && IsCounted(before.value)
            then Some(before.value.(
                   corrections := before.value.corrections + [correction],
                   occurredOn := if correction.Restated? then correction.occurredOn else before.value.occurredOn))
            else before
  {
    var before := RecordFor(ledger.records, entryId).value;
    var corrected := before.(
      corrections := before.corrections + [correction],
      occurredOn := if correction.Restated? then correction.occurredOn else before.occurredOn);
    ReplaceFind(ledger.records, entryId, corrected, other);
    var after := Replace(ledger.records, entryId, corrected);
    assert forall i :: 0 <= i < |after| ==> after[i].entryId == ledger.records[i].entryId;
  }

  lemma {:induction false} ReplaceFind(records: seq<Record>, entryId: string, now: Record, other: string)
    requires now.entryId == entryId
    ensures RecordFor(Replace(records, entryId, now), other)
         == if other == entryId && RecordFor(records, other).Some? then Some(now) else RecordFor(records, other)
  {
    var after := Replace(records, entryId, now);
    if records != [] {
      assert after[1..] == Replace(records[1..], entryId, now);
      ReplaceFind(records[1..], entryId, now, other);
    }
  }

  /** A withdrawn date stays withdrawn: no accepted command makes it count again. */
  lemma WithdrawnStaysWithdrawn(ledger: Ledger, entryId: string, correction: Correction, other: string)
    requires DistinctEntries(ledger.records) && CorrectCompletedDate(ledger, entryId, correction).Ok?
    requires RecordFor(ledger.records, other).Some? && !IsCounted(RecordFor(ledger.records, other).value)
    ensures RecordFor(CorrectCompletedDate(ledger, entryId, correction).value.records, other) == RecordFor(ledger.records, other)
  {
    CorrectingTouchesOne(ledger, entryId, correction, other);
  }

  // ----------------------------------------------------------- what is accepted --

  /**
   * The last day a reader with this clock takes: the UTC day of the instant. In the years
   * 0 to 99 of the clock it is a day of the twentieth century, because `Date.UTC` reads
   * the clock's own year so.
   */
  function LastDayOf(at: int): int {
    var today := DayOfInstant(at);
    if 0 <= YearOf(today) <= 99 then MakeDay(1900 + YearOf(today), MonthOf(today), DateOf(today)) else today
  }

  /** A real day of the years 100 to 9999, written out, and not after the clock's. */
  ghost predicate HasCome(text: string, at: int) {
    exists day :: NamesDay(text, day) && day <= LastDayOf(at)
  }

  lemma ValidIffHasCome(text: string, at: int)
    ensures ValidOccurredOn(text, at) <==> HasCome(text, at)
  {
    ReadsNamedDays(text);
    UtcTodayIs(at);
  }

  ghost predicate OnRecord(ledger: Ledger, entryId: string) {
    exists i :: 0 <= i < |ledger.records| && ledger.records[i].entryId == entryId
  }

  /** Exactly when a date is taken: somebody else's, and on record already or a day that has come. */
  lemma RecordAcceptedIff(ledger: Ledger, entry: NewDate)
    ensures RecordCompletedDate(ledger, entry).Ok?
       <==> entry.counterpartId != Some(ledger.ownerId)
            && (OnRecord(ledger, entry.entryId) || HasCome(entry.occurredOn, entry.recordedAt))
    ensures RecordCompletedDate(ledger, entry).Err? ==> RecordCompletedDate(ledger, entry) == Err(ValidationFailed)
    ensures RecordCompletedDate(ledger, entry).Ok? && OnRecord(ledger, entry.entryId) ==> RecordCompletedDate(ledger, entry).value == ledger
  {
    ValidIffHasCome(entry.occurredOn, entry.recordedAt);
  }

  ghost predicate HasKey(corrections: seq<Correction>, key: string) {
    exists c :: c in corrections && c.key == key
  }

  ghost predicate IsWithdrawn(corrections: seq<Correction>) {
    exists c :: c in corrections && c.Withdrawn?
  }

  /** The answer to a correction, code by code, in terms of the entry it names. */
  lemma CorrectionAnswerIff(ledger: Ledger, i: nat, c: Correction)
    requires DistinctEntries(ledger.records) && i < |ledger.records|
    ensures var log, r := ledger.records[i].corrections, CorrectCompletedDate(ledger, ledger.records[i].entryId, c);
            (r == Err(Conflict) <==> c.Restated? && !HasKey(log, c.key) && IsWithdrawn(log))
            && (r == Err(ValidationFailed) <==> c.Restated? && !HasKey(log, c.key) && !IsWithdrawn(log) && !HasCome(c.occurredOn, c.at))
            && (r.Err? ==> r.error == Conflict || r.error == ValidationFailed)
  {
    RecordIsFound(ledger.records, i);
    if c.Restated? { ValidIffHasCome(c.occurredOn, c.at); }
    var log := ledger.records[i].corrections;
    assert KeyUsed(log, c.key) <==> HasKey(log, c.key);
    assert HasWithdrawal(log) <==> IsWithdrawn(log);
  }

  lemma UnknownEntryIff(ledger: Ledger, entryId: string, c: Correction)
    ensures CorrectCompletedDate(ledger, entryId, c) == Err(NotFound) <==> !OnRecord(ledger, entryId)
  {
  }

  // ------------------------------------------------------- no day from the future --

  /** The instant at which the day a record now says was stated. */
  function StatedAt(recordedAt: int, corrections: seq<Correction>): int {
    if corrections == [] then recordedAt
    else
      var last := corrections[|corrections| - 1];
      if last.Restated? then last.at else StatedAt(recordedAt, corrections[..|corrections| - 1])
  }

  /** The day said now, and every day said on the way, had come when it was said. */
  ghost predicate DaysHadCome(record: Record) {
    HasCome(record.occurredOn, StatedAt(record.recordedAt, record.corrections))
    && forall i :: 0 <= i < |record.corrections| && record.corrections[i].Restated? ==>
         HasCome(record.corrections[i].occurredOn, record.corrections[i].at)
  }

  lemma RestatedDaysHadCome(record: Record, c: Correction)
    requires DaysHadCome(record) && (c.Restated? ==> HasCome(c.occurredOn, c.at))
    ensures DaysHadCome(record.(corrections := record.corrections + [c],
                                occurredOn := if c.Restated? then c.occurredOn else record.occurredOn))
  {
    assert (record.corrections + [c])[..|record.corrections|] == record.corrections;
  }

  lemma RecordingKeepsDays(ledger: Ledger, entry: NewDate, entryId: string)
    requires DistinctEntries(ledger.records) && RecordCompletedDate(ledger, entry).Ok?
    requires RecordFor(ledger.records, entryId).Some? ==> DaysHadCome(RecordFor(ledger.records, entryId).value)
    ensures var after := RecordCompletedDate(ledger, entry).value;
            RecordFor(after.records, entryId).Some? ==> DaysHadCome(RecordFor(after.records, entryId).value)
  {
    RecordingAddsOne(ledger, entry, entryId);
    RecordAcceptedIff(ledger, entry);
  }

  lemma CorrectingKeepsDays(ledger: Ledger, named: string, c: Correction, entryId: string)
    requires DistinctEntries(ledger.records) && CorrectCompletedDate(ledger, named, c).Ok?
    requires RecordFor(ledger.records, entryId).Some? ==> DaysHadCome(RecordFor(ledger.records, entryId).value)
    ensures var after := CorrectCompletedDate(ledger, named, c).value;
            RecordFor(after.records, entryId).Some? ==> DaysHadCome(RecordFor(after.records, entryId).value)
  {
    CorrectingTouchesOne(ledger, named, c, entryId);
    if RecordFor(ledger.records, entryId).Some? && entryId == named {
      var record := RecordFor(ledger.records, entryId).value;
      if !KeyUsed(record.corrections, c.key) && IsCounted(record) {
        if c.Restated? { ValidIffHasCome(c.occurredOn, c.at); }
        RestatedDaysHadCome(record, c);
      }
    }
  }
}
