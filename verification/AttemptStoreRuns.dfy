/** What holds of the attempts table after any sequence of its statements. */
module AttemptStoreRuns {
  import opened Core
  import opened AttemptRecords
  import opened AttemptStore

  // ------------------------------------------------------------------ the invariant --

  predicate SoundColumns(id: Json, row: Row) {
    ReadText(id).Some? && ReadText(row.userId).Some? && InVocabulary(row.state)
    && ReadInstant(row.openedAt) == Some(row.openedAt)
    && ReadTextOrNull(row.providerReference) == Some(row.providerReference)
  }

  /** `closed_at` is set exactly when the state is terminal. */
  predicate ClosedIffTerminal(row: Row) {
    row.closedAt.Some? <==> Terminal(row.state)
  }

  predicate SoundRow(codec: Codec, id: Json, row: Row) {
    SoundColumns(id, row) && DocumentReads(codec, row.checks) && ClosedIffTerminal(row)
  }

  predicate OneOpenEach(rows: Table) {
    forall a, b :: a in rows && b in rows && a != b && rows[a].closedAt.None? && rows[b].closedAt.None? ==>
                     rows[a].userId != rows[b].userId
  }

  predicate ColumnsSound(rows: Table) {
    forall id :: id in rows ==> SoundColumns(id, rows[id]) && ClosedIffTerminal(rows[id])
  }

  predicate DocumentsSound(codec: Codec, rows: Table) {
    forall id :: id in rows ==> DocumentReads(codec, rows[id].checks)
  }

  predicate Sound(codec: Codec, rows: Table) {
    ColumnsSound(rows) && DocumentsSound(codec, rows) && OneOpenEach(rows)
  }

  lemma RowOfSound(codec: Codec, rows: Table, id: Json)
    requires Sound(codec, rows) && id in rows
    ensures SoundRow(codec, id, rows[id])
  {
  }

  /** A sound table stays sound when one sound row is written that keeps each user to one open attempt. */
  lemma WriteKeepsSound(codec: Codec, rows: Table, id: Json, row: Row)
    requires Sound(codec, rows) && SoundRow(codec, id, row) && OneOpenEach(rows[id := row])
    ensures Sound(codec, rows[id := row])
  {
    ColumnsWritten(rows, id, row);
    DocumentsWritten(codec, rows, id, row);
  }

  lemma ColumnsWritten(rows: Table, id: Json, row: Row)
    requires ColumnsSound(rows) && SoundColumns(id, row) && ClosedIffTerminal(row)
    ensures ColumnsSound(rows[id := row])
  {
  }

  lemma DocumentsWritten(codec: Codec, rows: Table, id: Json, row: Row)
    requires DocumentsSound(codec, rows) && DocumentReads(codec, row.checks)
    ensures DocumentsSound(codec, rows[id := row])
  {
  }

  /** Fields as they read back: each as its codec produced it, the reason as JSON. */
  function ReadBack(fields: map<EnvelopeKey, Json>): map<EnvelopeKey, Json> {
    map e | e in fields :: Stored(e, fields[e])
  }

  /** A record with a patch's own fields overwritten and no others. */
  function Overwritten(record: Record, p: Patch): Record {
    record.(state := if p.state.Some? then p.state.value else record.state,
            providerReference := if p.reference.Some? then p.reference.value else record.providerReference,
            envelope := record.envelope + ReadBack(p.document))
  }

  // ------------------------------------------------------------------------ documents --

  /** The fields written to the document are the ones given, each serialised. */
  lemma WrittenFields(fields: map<Key, Json>)
    requires forall k :: k in fields ==> fields[k] != Undefined
    ensures Stringify(Obj(fields)).fields.Keys == fields.Keys
    ensures forall k :: k in fields ==> Stringify(Obj(fields)).fields[k] == Stringify(fields[k])
  {
  }

  /** Every value here came out of its codec. */
  ghost predicate FromCodec(codec: Codec, fields: map<EnvelopeKey, Json>) {
    forall e :: e in fields ==> exists v :: codec(e, v) == Some(fields[e])
  }

  lemma FieldWritten(codec: Codec, fields: map<EnvelopeKey, Json>, e: EnvelopeKey)
    requires Faithful(codec) && FromCodec(codec, fields) && e in fields
    ensures fields[e] != Undefined && codec(e, Stringify(fields[e])) == Some(Stored(e, fields[e]))
  {
    var v :| codec(e, v) == Some(fields[e]);
    assert codec(e, v).Some?;
  }

  lemma FieldsWritten(codec: Codec, fields: map<EnvelopeKey, Json>)
    requires Faithful(codec) && FromCodec(codec, fields)
    ensures Stringify(Obj(ByName(fields))).fields.Keys == ByName(fields).Keys
    ensures forall e :: e in fields ==>
              codec(e, Stringify(Obj(ByName(fields))).fields[Env(e)]) == Some(Stored(e, fields[e]))
  {
    forall e | e in fields ensures fields[e] != Undefined && codec(e, Stringify(fields[e])) == Some(Stored(e, fields[e])) {
      FieldWritten(codec, fields, e);
    }
    WrittenFields(ByName(fields));
    forall e | e in fields ensures Env(e) in ByName(fields) {}
  }

  /** A document overwritten by readable fields reads, and reads as the two records overwritten. */
  lemma MergeReads(codec: Codec, document: map<Key, Json>, written: map<Key, Json>, fields: map<EnvelopeKey, Json>)
    requires DocumentReads(codec, document) && (forall k :: k in written <==> k.Env? && k.field in fields)
    requires forall e :: e in fields ==> codec(e, written[Env(e)]) == Some(Stored(e, fields[e]))
    ensures DocumentReads(codec, document + written)
    ensures DecodeDocument(codec, document + written) == DecodeDocument(codec, document) + ReadBack(fields)
  {
    forall e: EnvelopeKey
      ensures codec(e, (document + written)[Env(e)]) == if e in fields then Some(Stored(e, fields[e])) else codec(e, document[Env(e)])
    {
      assert Env(e) in written <==> e in fields;
    }
  }

  /** Writing fields into a readable document and decoding it gives the old fields overwritten by the new. */
  lemma DocumentTrip(codec: Codec, document: map<Key, Json>, fields: map<EnvelopeKey, Json>)
    requires Faithful(codec) && FromCodec(codec, fields) && DocumentReads(codec, document)
    ensures DocumentReads(codec, document + Stringify(Obj(ByName(fields))).fields)
    ensures DecodeDocument(codec, document + Stringify(Obj(ByName(fields))).fields)
         == DecodeDocument(codec, document) + ReadBack(fields)
  {
    FieldsWritten(codec, fields);
    MergeReads(codec, document, Stringify(Obj(ByName(fields))).fields, fields);
  }

  lemma StringifyWith(fields: map<Key, Json>, key: Key, v: Json)
    requires v != Undefined
    ensures Stringify(Obj(fields[key := v])).fields == Stringify(Obj(fields)).fields[key := Stringify(v)]
  {
  }

  /** The fields of an attempt, serialised, without the version. */
  function WrittenBody(envelope: map<EnvelopeKey, Json>): map<Key, Json> {
    Stringify(Obj(ByName(envelope))).fields
  }

  predicate BodyReads(codec: Codec, body: map<Key, Json>, envelope: map<EnvelopeKey, Json>) {
    (forall k :: k in body ==> k.Env?)
    && forall e: EnvelopeKey :: e in envelope && Env(e) in body && codec(e, body[Env(e)]) == Some(Stored(e, envelope[e]))
  }

  lemma WrittenBodyReads(codec: Codec, envelope: map<EnvelopeKey, Json>)
    requires Faithful(codec) && FromCodec(codec, envelope) && forall e: EnvelopeKey :: e in envelope
    ensures BodyReads(codec, WrittenBody(envelope), envelope)
  {
    FieldsWritten(codec, envelope);
    forall e: EnvelopeKey ensures Env(e) in ByName(envelope) { assert e in envelope; }
  }

  lemma VersionedBodyReads(codec: Codec, body: map<Key, Json>, envelope: map<EnvelopeKey, Json>)
    requires BodyReads(codec, body, envelope)
    ensures DocumentReads(codec, body[SchemaVersion := Number(1.0)])
    ensures DecodeDocument(codec, body[SchemaVersion := Number(1.0)]) == ReadBack(envelope)
  {
  }

  lemma NewDocument(codec: Codec, envelope: map<EnvelopeKey, Json>)
    requires Faithful(codec) && FromCodec(codec, envelope) && forall e: EnvelopeKey :: e in envelope
    ensures DocumentReads(codec, ToDocument(envelope)) && DecodeDocument(codec, ToDocument(envelope)) == ReadBack(envelope)
  {
    WrittenBodyReads(codec, envelope);
    VersionedBodyReads(codec, WrittenBody(envelope), envelope);
    StringifyWith(ByName(envelope), SchemaVersion, Number(1.0));
  }

  // --------------------------------------------------------------------------- insert --

  lemma ReadsFromCodec(codec: Codec, source: map<Key, Json>)
    requires Faithful(codec) && AttemptReads(codec, source)
    ensures FromCodec(codec, ReadAttempt(codec, source).envelope)
    ensures forall e: EnvelopeKey :: e in ReadAttempt(codec, source).envelope
  {
    var envelope := ReadAttempt(codec, source).envelope;
    forall e | e in envelope ensures exists v :: codec(e, v) == Some(envelope[e]) {
      assert codec(e, source[Env(e)]) == Some(envelope[e]);
    }
  }

  lemma NewRowReads(codec: Codec, record: Record)
    requires Faithful(codec) && FromCodec(codec, record.envelope) && forall e: EnvelopeKey :: e in record.envelope
    requires ReadText(record.verificationId).Some? && ReadText(record.subjectId).Some? && InVocabulary(record.state)
    requires ReadText(record.state).Some? && ReadInstant(record.startedAt) == Some(record.startedAt)
    requires ReadTextOrNull(record.providerReference) == Some(record.providerReference)
    ensures SoundRow(codec, record.verificationId, RowFor(record))
    ensures ToRecord(codec, record.verificationId, RowFor(record)) == Some(record.(envelope := ReadBack(record.envelope)))
  {
    NewDocument(codec, record.envelope);
  }

  /** An accepted attempt is found exactly as it was given, and every other row as before. */
  lemma InsertedIsFound(codec: Codec, rows: Table, source: map<Key, Json>)
    requires Faithful(codec) && InsertRefusal(codec, rows, source).None?
    ensures var record, next := ReadAttempt(codec, source), Inserted(codec, rows, source);
            var id := record.verificationId;
            SoundRow(codec, id, next[id])
            && ToRecord(codec, id, next[id]) == Some(record.(envelope := ReadBack(record.envelope)))
            && id !in rows && next == rows[id := next[id]]
  {
    ReadsFromCodec(codec, source);
    NewRowReads(codec, ReadAttempt(codec, source));
  }

  lemma OneOpenInserted(rows: Table, id: Json, row: Row)
    requires OneOpenEach(rows) && id !in rows && (row.closedAt.None? ==> !HasOpen(rows, row.userId))
    ensures OneOpenEach(rows[id := row])
  {
  }

  lemma InsertedRow(codec: Codec, rows: Table, source: map<Key, Json>)
    requires InsertRefusal(codec, rows, source).None?
    ensures var record := ReadAttempt(codec, source);
            Inserted(codec, rows, source) == rows[record.verificationId := RowFor(record)] && record.verificationId !in rows
            && (RowFor(record).closedAt.None? ==> !HasOpen(rows, RowFor(record).userId))
  {
  }

  lemma InsertKeepsSound(codec: Codec, rows: Table, source: map<Key, Json>)
    requires Faithful(codec) && Sound(codec, rows) && InsertRefusal(codec, rows, source).None?
    ensures Sound(codec, Inserted(codec, rows, source))
  {
    var record := ReadAttempt(codec, source);
    InsertedRow(codec, rows, source);
    InsertedIsFound(codec, rows, source);
    OneOpenInserted(rows, record.verificationId, RowFor(record));
    WriteKeepsSound(codec, rows, record.verificationId, RowFor(record));
  }

  // --------------------------------------------------------------------------- update --

  lemma PatchFromCodec(codec: Codec, patch: map<Key, Json>)
    requires PatchReads(codec, patch)
    ensures FromCodec(codec, ReadPatch(codec, patch).document)
    ensures var reference := ReadPatch(codec, patch).reference; reference.Some? ==> ReadTextOrNull(reference.value) == reference
  {
    var fields := ReadPatch(codec, patch).document;
    forall e | e in fields ensures exists v :: codec(e, v) == Some(fields[e]) {
      assert codec(e, patch[Env(e)]) == Some(fields[e]);
    }
  }

  /** A patch as its readers produce it. */
  ghost predicate PatchIsRead(codec: Codec, p: Patch) {
    FromCodec(codec, p.document) && (p.reference.Some? ==> ReadTextOrNull(p.reference.value) == p.reference)
  }

  lemma PatchedColumns(id: Json, row: Row, p: Patch, now: int)
    requires SoundColumns(id, row) && ClosedIffTerminal(row) && !Reopens(row, p)
    requires p.state.Some? ==> InVocabulary(p.state.value)
    requires p.reference.Some? ==> ReadTextOrNull(p.reference.value) == p.reference
    ensures SoundColumns(id, Patched(row, p, now)) && ClosedIffTerminal(Patched(row, p, now))
  {
  }

  lemma VocabularyReads(state: Json)
    requires InVocabulary(state)
    ensures ReadText(state).Some?
  {
    assert forall s :: s in VOCABULARY ==> s != "";
  }

  lemma ColumnsRead(codec: Codec, id: Json, row: Row)
    requires SoundRow(codec, id, row)
    ensures ToRecord(codec, id, row)
         == Some(Record(id, row.userId, row.state, row.openedAt, row.providerReference, DecodeDocument(codec, row.checks)))
  {
    VocabularyReads(row.state);
  }

  lemma PatchedReads(codec: Codec, id: Json, row: Row, p: Patch, now: int)
    requires Faithful(codec) && SoundRow(codec, id, row) && PatchIsRead(codec, p) && !Reopens(row, p)
    requires p.state.Some? ==> InVocabulary(p.state.value)
    ensures SoundRow(codec, id, Patched(row, p, now)) && ToRecord(codec, id, row).Some?
    ensures ToRecord(codec, id, Patched(row, p, now)) == Some(Overwritten(ToRecord(codec, id, row).value, p))
  {
    DocumentTrip(codec, row.checks, p.document);
    PatchedColumns(id, row, p, now);
    ColumnsRead(codec, id, row);
    ColumnsRead(codec, id, Patched(row, p, now));
  }

  /** The row an applied patch is written to, and what let it be applied. */
  lemma UpdatedIs(codec: Codec, rows: Table, id: Json, patch: map<Key, Json>, now: int)
    requires UpdateAnswer(codec, rows, id, patch) == Ok(true)
    ensures PatchReads(codec, patch) && id in rows && !Reopens(rows[id], ReadPatch(codec, patch))
    ensures var state := ReadPatch(codec, patch).state; state.Some? ==> InVocabulary(state.value)
    ensures Updated(codec, rows, id, patch, now) == rows[id := Patched(rows[id], ReadPatch(codec, patch), now)]
  {
  }

  /** A row reads as another with a patch's fields overwritten. */
  ghost predicate FoundOverwritten(codec: Codec, id: Json, row: Row, next: Row, p: Patch) {
    SoundRow(codec, id, next) && ToRecord(codec, id, row).Some?
    && ToRecord(codec, id, next) == Some(Overwritten(ToRecord(codec, id, row).value, p))
  }

  lemma PatchIsFound(codec: Codec, id: Json, row: Row, patch: map<Key, Json>, now: int)
    requires Faithful(codec) && SoundRow(codec, id, row) && PatchReads(codec, patch) && !Reopens(row, ReadPatch(codec, patch))
    requires var state := ReadPatch(codec, patch).state; state.Some? ==> InVocabulary(state.value)
    ensures FoundOverwritten(codec, id, row, Patched(row, ReadPatch(codec, patch), now), ReadPatch(codec, patch))
  {
    PatchFromCodec(codec, patch);
    PatchedReads(codec, id, row, ReadPatch(codec, patch), now);
  }

  /** An applied patch overwrites exactly its own fields, of exactly one row. */
  lemma PatchedIsFound(codec: Codec, rows: Table, id: Json, patch: map<Key, Json>, now: int)
    requires Faithful(codec) && UpdateAnswer(codec, rows, id, patch) == Ok(true) && SoundRow(codec, id, rows[id])
    ensures var p, next := ReadPatch(codec, patch), Updated(codec, rows, id, patch, now);
            next == rows[id := Patched(rows[id], p, now)] && FoundOverwritten(codec, id, rows[id], Patched(rows[id], p, now), p)
  {
    UpdatedIs(codec, rows, id, patch, now);
    PatchIsFound(codec, id, rows[id], patch, now);
  }

  lemma OneOpenPatched(rows: Table, id: Json, row: Row)
    requires OneOpenEach(rows) && id in rows && row.userId == rows[id].userId && (row.closedAt.None? ==> rows[id].closedAt.None?)
    ensures OneOpenEach(rows[id := row])
  {
  }

  lemma AfterKeepsSound(codec: Codec, rows: Table, id: Json, p: Patch, now: int)
    requires Faithful(codec) && Sound(codec, rows) && PatchIsRead(codec, p)
    ensures Sound(codec, After(rows, id, p, now))
  {
    if Answer(rows, id, p) == Ok(true) {
      RowOfSound(codec, rows, id);
      PatchedReads(codec, id, rows[id], p, now);
      OneOpenPatched(rows, id, Patched(rows[id], p, now));
      WriteKeepsSound(codec, rows, id, Patched(rows[id], p, now));
    }
  }

  lemma UpdateKeepsSound(codec: Codec, rows: Table, id: Json, patch: map<Key, Json>, now: int)
    requires Faithful(codec) && Sound(codec, rows)
    ensures Sound(codec, Updated(codec, rows, id, patch, now))
  {
    if PatchReads(codec, patch) {
      PatchFromCodec(codec, patch);
      AfterKeepsSound(codec, rows, id, ReadPatch(codec, patch), now);
    }
  }

  /** The instant an attempt closes is written once. */
  lemma ClosedStaysClosed(codec: Codec, rows: Table, id: Json, patch: map<Key, Json>, now: int, any: Json)
    requires any in rows && rows[any].closedAt.Some?
    ensures any in Updated(codec, rows, id, patch, now) && Updated(codec, rows, id, patch, now)[any].closedAt == rows[any].closedAt
  {
  }

  /** An open attempt patched to a terminal state closes at the instant the patch gives, or at the statement's. */
  lemma ClosesAt(codec: Codec, rows: Table, id: Json, patch: map<Key, Json>, now: int)
    requires Faithful(codec) && UpdateAnswer(codec, rows, id, patch) == Ok(true)
    requires rows[id].closedAt.None? && State in patch && Terminal(patch[State])
    ensures Updated(codec, rows, id, patch, now)[id].closedAt
         == Some(if Env(UpdatedAt) in patch then codec(UpdatedAt, patch[Env(UpdatedAt)]).value.at.value else now)
  {
    var p := ReadPatch(codec, patch);
    assert p.state == Some(patch[State]);
    assert UpdatedAt in p.document <==> Env(UpdatedAt) in patch;
    if Env(UpdatedAt) in patch { assert codec(UpdatedAt, patch[Env(UpdatedAt)]).Some?; }
  }

  /** `false` means no such row, or a closed attempt asked to take an open state; nothing else. */
  lemma RefusedIff(codec: Codec, rows: Table, id: Json, patch: map<Key, Json>)
    requires Sound(codec, rows)
    ensures UpdateAnswer(codec, rows, id, patch) == Ok(false)
       <==> patch != map[] && PatchReads(codec, patch)
            && (id !in rows || (Terminal(rows[id].state) && State in patch && !Terminal(patch[State])))
  {
    if PatchReads(codec, patch) { SetsNothingIffEmpty(codec, patch); }
  }

  lemma TerminalIsVocabulary(state: Json)
    requires Terminal(state)
    ensures InVocabulary(state)
  {
    assert VOCABULARY[3] == "passed" && VOCABULARY[4] == "failed" && VOCABULARY[6] == "expired";
  }

  /**
   * What the guard does not protect. The outcome of a closed attempt is replaced exactly
   * by a readable patch that names another terminal state; an open state, the same
   * state and a patch without one leave it.
   */
  lemma OutcomeReplacedIff(codec: Codec, rows: Table, id: Json, patch: map<Key, Json>, now: int)
    requires id in rows && rows[id].closedAt.Some?
    ensures Updated(codec, rows, id, patch, now)[id].state != rows[id].state
       <==> PatchReads(codec, patch) && State in patch && Terminal(patch[State]) && patch[State] != rows[id].state
  {
    if PatchReads(codec, patch) {
      SetsNothingIffEmpty(codec, patch);
      if State in patch && Terminal(patch[State]) { TerminalIsVocabulary(patch[State]); }
    }
  }

  /** A pass overwritten by a failure. */
  lemma OutcomeCanBeReplaced(rows: Table, id: Json, now: int)
    requires id in rows && rows[id].state == Text("passed") && ClosedIffTerminal(rows[id])
    ensures var p := NO_PATCH.(state := Some(Text("failed")));
            Answer(rows, id, p) == Ok(true) && After(rows, id, p, now)[id].state == Text("failed")
            && After(rows, id, p, now)[id].closedAt == rows[id].closedAt
  {
    assert VOCABULARY[4] == "failed";
  }

  // ------------------------------------------------------------------ what is accepted --

  /** A non-empty string, an instant's ISO text included. */
  predicate IsText(v: Json) {
    (v.Text? && v.s != "") || v.Stamp?
  }

  predicate IsTextOrNothing(v: Json) {
    v == Null || v == Undefined || IsText(v)
  }

  predicate IsInstant(v: Json) {
    v.Stamp? || (v.Instant? && v.at.Some?)
  }

  predicate IsOneOf(state: Json, states: set<string>) {
    state.Text? && state.s in states
  }

  const OPEN_STATES := {"initiated", "capturing", "awaiting_provider", "manual_review"}
  const CLOSED_STATES := {"passed", "failed", "expired"}

  lemma StatesAre(state: Json)
    ensures InVocabulary(state) <==> IsOneOf(state, OPEN_STATES) || IsOneOf(state, CLOSED_STATES)
    ensures Terminal(state) <==> IsOneOf(state, CLOSED_STATES)
    ensures InVocabulary(state) ==> IsText(state)
  {
    var v := VOCABULARY;
    assert v[0] == "initiated" && v[1] == "capturing" && v[2] == "awaiting_provider" && v[3] == "passed" && v[4] == "failed"
      && v[5] == "manual_review" && v[6] == "expired";
  }

  /** What may stand under one key of a patch. */
  predicate MayPatch(codec: Codec, key: Key, v: Json) {
    (key.Env? && codec(key.field, v).Some?) || (key == State && IsText(v)) || (key == ProviderReference && IsTextOrNothing(v))
  }

  /**
   * A patch the table takes: something to set, every key one that may be patched and
   * readable, a row to set it on, and a state, if it names one, that the column knows and
   * that does not open an attempt already over.
   */
  predicate Takes(codec: Codec, rows: Table, id: Json, patch: map<Key, Json>) {
    patch != map[] && (forall k :: k in patch ==> MayPatch(codec, k, patch[k])) && id in rows
    && (State in patch ==>
          IsOneOf(patch[State], CLOSED_STATES)
          || (IsOneOf(patch[State], OPEN_STATES) && !IsOneOf(rows[id].state, CLOSED_STATES)))
  }

  lemma PatchReadsIff(codec: Codec, patch: map<Key, Json>)
    ensures PatchReads(codec, patch) <==> forall k :: k in patch ==> MayPatch(codec, k, patch[k])
  {
  }

  /** Exactly when a patch is applied; what is not is `false` or a fault. */
  lemma AppliedIff(codec: Codec, rows: Table, id: Json, patch: map<Key, Json>)
    requires ColumnsSound(rows)
    ensures UpdateAnswer(codec, rows, id, patch) == Ok(true) <==> Takes(codec, rows, id, patch)
    ensures UpdateAnswer(codec, rows, id, patch).Err? ==> UpdateAnswer(codec, rows, id, patch) == Err(Fault)
  {
    PatchReadsIff(codec, patch);
    if PatchReads(codec, patch) { SetsNothingIffEmpty(codec, patch); }
    if State in patch { StatesAre(patch[State]); }
    if id in rows { StatesAre(rows[id].state); }
  }

  /** What a readable patch is sorted into. */
  lemma SortedPatchIs(codec: Codec, patch: map<Key, Json>)
    requires PatchReads(codec, patch)
    ensures var p := ReadPatch(codec, patch);
            p.state == (if State in patch then Some(patch[State]) else None)
            && p.reference == (if ProviderReference !in patch then None
                               else if IsText(patch[ProviderReference]) then Some(patch[ProviderReference]) else Some(Null))
            && (forall e :: e in p.document <==> Env(e) in patch)
            && forall e :: e in p.document ==> codec(e, patch[Env(e)]) == Some(p.document[e])
  {
    assert State in patch ==> ReadPatchKey(codec, State, patch[State]).Some?;
    assert ProviderReference in patch ==> ReadPatchKey(codec, ProviderReference, patch[ProviderReference]).Some?;
    forall e | Env(e) in patch ensures codec(e, patch[Env(e)]).Some? {
      assert ReadPatchKey(codec, Env(e), patch[Env(e)]).Some?;
    }
  }

  /** A whole attempt: every field there and readable, and no stray one. */
  predicate IsAttempt(codec: Codec, source: map<Key, Json>) {
    (forall k :: k in source ==> k.Env? || k in {VerificationId, SubjectId, State, StartedAt, ProviderReference})
    && {VerificationId, SubjectId, State, StartedAt} <= source.Keys
    && IsText(source[VerificationId]) && IsText(source[SubjectId]) && IsText(source[State]) && IsInstant(source[StartedAt])
    && (ProviderReference in source ==> IsTextOrNothing(source[ProviderReference]))
    && forall e: EnvelopeKey :: Env(e) in source && codec(e, source[Env(e)]).Some?
  }

  lemma AttemptReadsIff(codec: Codec, source: map<Key, Json>)
    ensures AttemptReads(codec, source) <==> IsAttempt(codec, source)
  {
  }

  /** Some attempt of this user is not over. */
  predicate UserBusy(rows: Table, userId: Json) {
    exists id :: id in rows && rows[id].userId == userId && !IsOneOf(rows[id].state, CLOSED_STATES)
  }

  lemma RefusalOfWhole(codec: Codec, rows: Table, source: map<Key, Json>)
    requires IsAttempt(codec, source)
    ensures InsertRefusal(codec, rows, source)
         == if !InVocabulary(source[State]) then Some(Fault)
            else if source[VerificationId] in rows then Some(AttemptIdTaken)
            else if !Terminal(source[State]) && HasOpen(rows, source[SubjectId]) then Some(OpenAttemptExists)
            else None
  {
    AttemptReadsIff(codec, source);
  }

  /** A whole attempt in a state the column knows. */
  predicate IsStorable(codec: Codec, source: map<Key, Json>) {
    IsAttempt(codec, source) && (IsOneOf(source[State], OPEN_STATES) || IsOneOf(source[State], CLOSED_STATES))
  }

  lemma UnstorableFaults(codec: Codec, rows: Table, source: map<Key, Json>)
    ensures InsertRefusal(codec, rows, source) == Some(Fault) <==> !IsStorable(codec, source)
  {
    AttemptReadsIff(codec, source);
    if IsAttempt(codec, source) {
      RefusalOfWhole(codec, rows, source);
      StatesAre(source[State]);
    }
  }

  /** Which of the four answers an insert gets: a fault, or one of these. */
  lemma InsertAnswerIff(codec: Codec, rows: Table, source: map<Key, Json>)
    requires ColumnsSound(rows)
    ensures InsertRefusal(codec, rows, source) == Some(Fault) <==> !IsStorable(codec, source)
    ensures IsStorable(codec, source) ==>
              InsertRefusal(codec, rows, source)
              == if source[VerificationId] in rows then Some(AttemptIdTaken)
                 else if IsOneOf(source[State], OPEN_STATES) && UserBusy(rows, source[SubjectId]) then Some(OpenAttemptExists)
                 else None
  {
    UnstorableFaults(codec, rows, source);
    if IsStorable(codec, source) {
      RefusalOfWhole(codec, rows, source);
      StatesAre(source[State]);
      StatesDiffer(source[State]);
      BusyIff(rows, source[SubjectId]);
    }
  }

  lemma StatesDiffer(state: Json)
    ensures !(IsOneOf(state, OPEN_STATES) && IsOneOf(state, CLOSED_STATES))
  {
  }

  lemma BusyIff(rows: Table, userId: Json)
    requires ColumnsSound(rows)
    ensures HasOpen(rows, userId) <==> UserBusy(rows, userId)
  {
    forall id | id in rows ensures rows[id].closedAt.None? <==> !IsOneOf(rows[id].state, CLOSED_STATES) {
      StatesAre(rows[id].state);
    }
    if id :| id in rows && rows[id].userId == userId && rows[id].closedAt.None? {
      assert !IsOneOf(rows[id].state, CLOSED_STATES);
    }
    if id :| id in rows && rows[id].userId == userId && !IsOneOf(rows[id].state, CLOSED_STATES) {
      assert rows[id].closedAt.None?;
    }
  }

  /** What a whole attempt is read as. */
  lemma ReadAttemptIs(codec: Codec, source: map<Key, Json>)
    requires AttemptReads(codec, source)
    ensures var r := ReadAttempt(codec, source);
            r.verificationId == source[VerificationId] && r.subjectId == source[SubjectId] && r.state == source[State]
            && ReadInstant(source[StartedAt]) == Some(r.startedAt)
            && r.providerReference == (if ProviderReference in source && IsText(source[ProviderReference]) then source[ProviderReference] else Null)
            && forall e: EnvelopeKey :: e in r.envelope && codec(e, source[Env(e)]) == Some(r.envelope[e])
  {
    AttemptReadsIff(codec, source);
  }

  /** A row inserted closed carries the instant of its own last update; one inserted open carries none. */
  lemma InsertedClosesAt(codec: Codec, rows: Table, source: map<Key, Json>)
    requires Faithful(codec) && InsertRefusal(codec, rows, source).None?
    ensures var row := Inserted(codec, rows, source)[source[VerificationId]];
            row.closedAt == if IsOneOf(source[State], CLOSED_STATES) then codec(UpdatedAt, source[Env(UpdatedAt)]).value.at else None
  {
    ReadAttemptIs(codec, source);
    StatesAre(source[State]);
    assert codec(UpdatedAt, source[Env(UpdatedAt)]).Some?;
  }

  /** A row is read exactly when it is closed just when its state is terminal and everything in it is readable. */
  lemma ReadableIff(codec: Codec, id: Json, row: Row)
    ensures ToRecord(codec, id, row).Some?
       <==> (row.closedAt.Some? <==> IsOneOf(row.state, CLOSED_STATES))
            && IsText(id) && IsText(row.userId) && IsText(row.state) && IsInstant(row.openedAt) && IsTextOrNothing(row.providerReference)
            && (forall k :: k in row.checks ==> k == SchemaVersion || k.Env?)
            && SchemaVersion in row.checks && row.checks[SchemaVersion] == Number(1.0)
            && forall e: EnvelopeKey :: Env(e) in row.checks && codec(e, row.checks[Env(e)]).Some?
  {
    StatesAre(row.state);
  }

  // ------------------------------------------------------------------------------ runs --

  datatype Statement =
    | Insert(source: map<Key, Json>)
    | Update(id: Json, patch: map<Key, Json>, at: int)

  function Executed(codec: Codec, rows: Table, statement: Statement): Table {
    match statement
    case Insert(source) => if InsertRefusal(codec, rows, source).None? then Inserted(codec, rows, source) else rows
    case Update(id, patch, at) => Updated(codec, rows, id, patch, at)
  }

  function Run(codec: Codec, rows: Table, statements: seq<Statement>): Table
    decreases |statements|
  {
    if statements == [] then rows else Run(codec, Executed(codec, rows, statements[0]), statements[1..])
  }

  lemma ExecutedKeepsSound(codec: Codec, rows: Table, statement: Statement)
    requires Faithful(codec) && Sound(codec, rows)
    ensures Sound(codec, Executed(codec, rows, statement))
  {
    match statement
    case Insert(source) => if InsertRefusal(codec, rows, source).None? { InsertKeepsSound(codec, rows, source); }
    case Update(id, patch, at) => UpdateKeepsSound(codec, rows, id, patch, at);
  }

  /** Every table reached is sound: closed exactly when terminal, one open attempt per user, every document readable. */
  lemma {:induction false} RunKeepsSound(codec: Codec, rows: Table, statements: seq<Statement>)
    requires Faithful(codec) && Sound(codec, rows)
    ensures Sound(codec, Run(codec, rows, statements))
    decreases |statements|
  {
    if statements != [] {
      ExecutedKeepsSound(codec, rows, statements[0]);
      RunKeepsSound(codec, Executed(codec, rows, statements[0]), statements[1..]);
    }
  }

  lemma ExecutedKeepsClosed(codec: Codec, rows: Table, statement: Statement, id: Json)
    requires id in rows && rows[id].closedAt.Some?
    ensures id in Executed(codec, rows, statement) && Executed(codec, rows, statement)[id].closedAt == rows[id].closedAt
  {
    match statement
    case Insert(source) =>
    case Update(other, patch, at) => ClosedStaysClosed(codec, rows, other, patch, at, id);
  }

  /** A closed attempt keeps its closing instant, and a terminal state, for ever. */
  lemma {:induction false} ClosedNeverReopens(codec: Codec, rows: Table, statements: seq<Statement>, id: Json)
    requires Faithful(codec) && Sound(codec, rows) && id in rows && rows[id].closedAt.Some?
    ensures id in Run(codec, rows, statements) && Run(codec, rows, statements)[id].closedAt == rows[id].closedAt
    ensures Terminal(Run(codec, rows, statements)[id].state)
    decreases |statements|
  {
    if statements == [] {
      RowOfSound(codec, rows, id);
    } else {
      ExecutedKeepsSound(codec, rows, statements[0]);
      ExecutedKeepsClosed(codec, rows, statements[0], id);
      ClosedNeverReopens(codec, Executed(codec, rows, statements[0]), statements[1..], id);
    }
  }

  /** The patches of a run that the table took for one attempt, in order. */
  function AppliedPatches(codec: Codec, rows: Table, statements: seq<Statement>, id: Json): seq<Patch>
    decreases |statements|
  {
    if statements == [] then []
    else
      var rest := AppliedPatches(codec, Executed(codec, rows, statements[0]), statements[1..], id);
      match statements[0]
      case Insert(_) => rest
      case Update(other, patch, _) =>
        if other == id && PatchReads(codec, patch) && Takes(codec, rows, id, patch) then [ReadPatch(codec, patch)] + rest else rest
  }

  function OverwrittenAll(record: Record, patches: seq<Patch>): Record
    decreases |patches|
  {
    if patches == [] then record else OverwrittenAll(Overwritten(record, patches[0]), patches[1..])
  }

  lemma OtherRowsKept(codec: Codec, rows: Table, statement: Statement, id: Json)
    requires id in rows && (statement.Update? ==> statement.id != id || UpdateAnswer(codec, rows, id, statement.patch) != Ok(true))
    ensures id in Executed(codec, rows, statement) && Executed(codec, rows, statement)[id] == rows[id]
  {
  }

  /** One statement: the attempt is found overwritten by it if the table took it as a patch of this attempt, and as it was if not. */
  lemma FoundAfterOne(codec: Codec, rows: Table, statement: Statement, id: Json)
    requires Faithful(codec) && Sound(codec, rows) && id in rows
    ensures id in Executed(codec, rows, statement)
    ensures var next := Executed(codec, rows, statement);
            ToRecord(codec, id, rows[id]).Some?
            && ToRecord(codec, id, next[id])
               == if statement.Update? && statement.id == id && PatchReads(codec, statement.patch) && Takes(codec, rows, id, statement.patch)
                  then Some(Overwritten(ToRecord(codec, id, rows[id]).value, ReadPatch(codec, statement.patch)))
                  else ToRecord(codec, id, rows[id])
  {
    RowOfSound(codec, rows, id);
    ColumnsRead(codec, id, rows[id]);
    if statement.Update? { AppliedIff(codec, rows, id, statement.patch); }
    if statement.Update? && statement.id == id && UpdateAnswer(codec, rows, id, statement.patch) == Ok(true) {
      UpdatedIs(codec, rows, id, statement.patch, statement.at);
      PatchedIsFound(codec, rows, id, statement.patch, statement.at);
    } else {
      OtherRowsKept(codec, rows, statement, id);
    }
  }

  /** Whatever else is sent, an attempt is found as it was, overwritten by its own applied patches in order. */
  lemma {:induction false} FoundAfterRun(codec: Codec, rows: Table, statements: seq<Statement>, id: Json)
    requires Faithful(codec) && Sound(codec, rows) && id in rows
    ensures id in Run(codec, rows, statements) && ToRecord(codec, id, rows[id]).Some?
    ensures ToRecord(codec, id, Run(codec, rows, statements)[id])
         == Some(OverwrittenAll(ToRecord(codec, id, rows[id]).value, AppliedPatches(codec, rows, statements, id)))
    decreases |statements|
  {
    if statements == [] {
      RowOfSound(codec, rows, id);
      ColumnsRead(codec, id, rows[id]);
    } else {
      FoundAfterOne(codec, rows, statements[0], id);
      ExecutedKeepsSound(codec, rows, statements[0]);
      FoundAfterRun(codec, Executed(codec, rows, statements[0]), statements[1..], id);
    }
  }

  /** From its insert on: the attempt as given, its reason as JSON, overwritten by the patches applied to it. */
  lemma {:induction false} FoundAfterInsertAndRun(codec: Codec, rows: Table, source: map<Key, Json>, statements: seq<Statement>)
    requires Faithful(codec) && Sound(codec, rows) && InsertRefusal(codec, rows, source).None?
    ensures var record, after := ReadAttempt(codec, source), Run(codec, rows, [Insert(source)] + statements);
            var id := record.verificationId;
            id in after
            && ToRecord(codec, id, after[id])
               == Some(OverwrittenAll(record.(envelope := ReadBack(record.envelope)),
                                      AppliedPatches(codec, rows, [Insert(source)] + statements, id)))
  {
    assert ([Insert(source)] + statements)[1..] == statements;
    InsertedIsFound(codec, rows, source);
    InsertKeepsSound(codec, rows, source);
    FoundAfterRun(codec, Inserted(codec, rows, source), statements, ReadAttempt(codec, source).verificationId);
  }

  /** No row reached with the table's own codecs is ever read as inconsistent or unreadable. */
  lemma {:induction false} FindNeverFaults(statements: seq<Statement>, id: Json)
    requires id in Run(EnvelopeCodec, map[], statements)
    ensures ToRecord(EnvelopeCodec, id, Run(EnvelopeCodec, map[], statements)[id]).Some?
  {
    EnvelopeCodecIsFaithful();
    SoundRowsRead(EnvelopeCodec, statements, id);
  }

  lemma {:induction false} SoundRowsRead(codec: Codec, statements: seq<Statement>, id: Json)
    requires Faithful(codec) && id in Run(codec, map[], statements)
    ensures ToRecord(codec, id, Run(codec, map[], statements)[id]).Some?
  {
    RunKeepsSound(codec, map[], statements);
    ColumnsRead(codec, id, Run(codec, map[], statements)[id]);
  }

  /** `findOpenFor` never meets two rows. */
  lemma {:induction false} FindOpenForIsUnique(codec: Codec, statements: seq<Statement>, userId: Json)
    requires Faithful(codec)
    ensures |OpenFor(Run(codec, map[], statements), userId)| <= 1
  {
    RunKeepsSound(codec, map[], statements);
    OpenIsUnique(Run(codec, map[], statements), userId);
  }

  lemma OpenIsUnique(rows: Table, userId: Json)
    requires OneOpenEach(rows)
    ensures |OpenFor(rows, userId)| <= 1
  {
    var open := OpenFor(rows, userId);
    if id :| id in open {
      assert open == {id};
    }
  }
}
