/**
 * The attempts table (`store-verification-attempts.ts`): insert, find, the open
 * attempt of a user, and the patching update that closes an attempt once. The
 * codecs are a parameter; `AttemptRecords.EnvelopeCodec` is the table's own.
 */
module AttemptStore {
  import opened Core
  import opened AttemptRecords

  const VOCABULARY := ["initiated", "capturing", "awaiting_provider", "passed", "failed", "manual_review", "expired"]

  predicate InVocabulary(state: Json) {
    state.Text? && state.s in VOCABULARY
  }

  predicate Terminal(state: Json) {
    state.Text? && (state.s == "passed" || state.s == "failed" || state.s == "expired")
  }

  /** An attempt in the aggregate's own terms: five columns and the document's fields. */
  datatype Record = Record(
    verificationId: Json, subjectId: Json, state: Json, startedAt: Json, providerReference: Json,
    envelope: map<EnvelopeKey, Json>)

  datatype Row = Row(
    userId: Json, state: Json, checks: map<Key, Json>, providerReference: Json, openedAt: Json, closedAt: Option<int>)

  /** Keyed by `attempt_id`, the primary key. */
  type Table = map<Json, Row>

  datatype StoreFault = AttemptIdTaken | OpenAttemptExists | Fault

  // ---------------------------------------------------------------- a caller's value --

  function Field(source: map<Key, Json>, key: Key): Json {
    if key in source then source[key] else Undefined
  }

  predicate Supplied(key: Key) {
    key == VerificationId || key == SubjectId || key == StartedAt || key == State || key.Env?
  }

  /** Presence and shape of every field, and no other field. */
  predicate AttemptReads(codec: Codec, source: map<Key, Json>) {
    VerificationId in source && SubjectId in source && StartedAt in source && State in source
    && (forall e: EnvelopeKey :: Env(e) in source && codec(e, source[Env(e)]).Some?)
    && (forall k :: k in source ==> Supplied(k) || k == ProviderReference)
    && ReadText(source[VerificationId]).Some? && ReadText(source[SubjectId]).Some? && ReadText(source[State]).Some?
    && ReadInstant(source[StartedAt]).Some? && ReadTextOrNull(Field(source, ProviderReference)).Some?
  }

  function ReadAttempt(codec: Codec, source: map<Key, Json>): Record
    requires AttemptReads(codec, source)
  {
    Record(source[VerificationId], source[SubjectId], source[State], ReadInstant(source[StartedAt]).value,
           ReadTextOrNull(Field(source, ProviderReference)).value,
           map e: EnvelopeKey | true :: codec(e, source[Env(e)]).value)
  }

  // ------------------------------------------------------------------- the document --

  function ByName(fields: map<EnvelopeKey, Json>): map<Key, Json> {
    map e | e in fields :: Env(e) := fields[e]
  }

  function ToDocument(envelope: map<EnvelopeKey, Json>): map<Key, Json> {
    Stringify(Obj(ByName(envelope)[SchemaVersion := Number(1.0)])).fields
  }

  /** No stray key, no missing one, the version this code reads, and every field readable. */
  predicate DocumentReads(codec: Codec, document: map<Key, Json>) {
    (forall k :: k in document ==> k == SchemaVersion || k.Env?)
    && (forall e: EnvelopeKey :: Env(e) in document && codec(e, document[Env(e)]).Some?)
    && SchemaVersion in document && document[SchemaVersion] == Number(1.0)
  }

  function DecodeDocument(codec: Codec, document: map<Key, Json>): map<EnvelopeKey, Json>
    requires DocumentReads(codec, document)
  {
    map e: EnvelopeKey | true :: codec(e, document[Env(e)]).value
  }

  /** What `find` makes of a row: the whole record, or nothing for a row that disagrees with itself. */
  function ToRecord(codec: Codec, id: Json, row: Row): Option<Record> {
    if row.closedAt.None? == Terminal(row.state) then None
    else if ReadText(id).None? || ReadText(row.userId).None? || ReadText(row.state).None? || ReadInstant(row.openedAt).None? then None
    else if ReadTextOrNull(row.providerReference).None? || !DocumentReads(codec, row.checks) then None
    else Some(Record(id, row.userId, row.state, ReadInstant(row.openedAt).value, ReadTextOrNull(row.providerReference).value,
                     DecodeDocument(codec, row.checks)))
  }

  // --------------------------------------------------------------------------- insert --

  predicate HasOpen(rows: Table, userId: Json) {
    exists id :: id in rows && rows[id].userId == userId && rows[id].closedAt.None?
  }

  function InstantOr(v: Option<Json>, otherwise: int): int {
    if v.Some? && v.value.Instant? && v.value.at.Some? then v.value.at.value else otherwise
  }

  function RowFor(record: Record): Row
    requires UpdatedAt in record.envelope
  {
    Row(record.subjectId, record.state, ToDocument(record.envelope), record.providerReference, record.startedAt,
        if Terminal(record.state) then Some(InstantOr(Some(record.envelope[UpdatedAt]), 0)) else None)
  }

  function InsertRefusal(codec: Codec, rows: Table, source: map<Key, Json>): Option<StoreFault> {
    if !AttemptReads(codec, source) then Some(Fault)
    else
      var record := ReadAttempt(codec, source);
      if !InVocabulary(record.state) then Some(Fault)
      else if record.verificationId in rows then Some(AttemptIdTaken)
      else if !Terminal(record.state) && HasOpen(rows, record.subjectId) then Some(OpenAttemptExists)
      else None
  }

  function Inserted(codec: Codec, rows: Table, source: map<Key, Json>): Table
    requires InsertRefusal(codec, rows, source).None?
  {
    var record := ReadAttempt(codec, source);
    rows[record.verificationId := RowFor(record)]
  }

  // --------------------------------------------------------------------------- update --

  /** A patch sorted into the document and the columns it sets. */
  datatype Patch = Patch(document: map<EnvelopeKey, Json>, state: Option<Json>, reference: Option<Json>)

  const NO_PATCH := Patch(map[], None, None)

  /** What one key of a patch is read as; nothing for a fixed field, an unknown key or a value its reader refuses. */
  function ReadPatchKey(codec: Codec, key: Key, v: Json): Option<Json> {
    match key
    case Env(e) => codec(e, v)
    case State => ReadText(v)
    case ProviderReference => ReadTextOrNull(v)
    case _ => None
  }

  predicate PatchReads(codec: Codec, patch: map<Key, Json>) {
    forall k :: k in patch ==> ReadPatchKey(codec, k, patch[k]).Some?
  }

  function ReadPatch(codec: Codec, patch: map<Key, Json>): Patch
    requires PatchReads(codec, patch)
  {
    Patch(map e: EnvelopeKey | Env(e) in patch :: ReadPatchKey(codec, Env(e), patch[Env(e)]).value,
          if State in patch then ReadPatchKey(codec, State, patch[State]) else None,
          if ProviderReference in patch then ReadPatchKey(codec, ProviderReference, patch[ProviderReference]) else None)
  }

  /** The `WHERE` clause: a closed attempt takes no open state. */
  predicate Reopens(row: Row, p: Patch) {
    row.closedAt.Some? && p.state.Some? && !Terminal(p.state.value)
  }

  function PatchedInstant(p: Patch): Option<Json> {
    if UpdatedAt in p.document then Some(p.document[UpdatedAt]) else None
  }

  /** `COALESCE(closed_at, COALESCE($3, now()))` for a terminal state, `closed_at` for any other. */
  function ClosedBy(row: Row, p: Patch, now: int): Option<int> {
    if row.closedAt.Some? || p.state.None? || !Terminal(p.state.value) then row.closedAt
    else Some(InstantOr(PatchedInstant(p), now))
  }

  /** One row after the statement. */
  function Patched(row: Row, p: Patch, now: int): Row {
    Row(row.userId,
        if p.state.Some? then p.state.value else row.state,
        row.checks + Stringify(Obj(ByName(p.document))).fields,
        if p.reference.Some? then p.reference.value else row.providerReference,
        row.openedAt,
        ClosedBy(row, p, now))
  }

  /** What one statement answers; with nothing to set it is not a statement, and the database rejects it. */
  function Answer(rows: Table, id: Json, p: Patch): Result<bool, StoreFault> {
    if p == NO_PATCH then Err(Fault)
    else if id !in rows || Reopens(rows[id], p) then Ok(false)
    else if p.state.Some? && !InVocabulary(p.state.value) then Err(Fault)
    else Ok(true)
  }

  function After(rows: Table, id: Json, p: Patch, now: int): Table {
    if Answer(rows, id, p) == Ok(true) then rows[id := Patched(rows[id], p, now)] else rows
  }

  function UpdateAnswer(codec: Codec, rows: Table, id: Json, patch: map<Key, Json>): Result<bool, StoreFault> {
    if PatchReads(codec, patch) then Answer(rows, id, ReadPatch(codec, patch)) else Err(Fault)
  }

  function Updated(codec: Codec, rows: Table, id: Json, patch: map<Key, Json>, now: int): Table {
    if PatchReads(codec, patch) then After(rows, id, ReadPatch(codec, patch), now) else rows
  }

  /** One key of the patch, as the loop handles it. */
  function Assign(p: Patch, key: Key, value: Json): Patch {
    match key
    case Env(e) => p.(document := p.document[e := value])
    case State => p.(state := Some(value))
    case _ => p.(reference := Some(value))
  }

  lemma ReadPatchGrows(codec: Codec, patch: map<Key, Json>, key: Key, v: Json)
    requires PatchReads(codec, patch) && key !in patch && ReadPatchKey(codec, key, v).Some?
    ensures PatchReads(codec, patch[key := v])
    ensures ReadPatch(codec, patch[key := v]) == Assign(ReadPatch(codec, patch), key, ReadPatchKey(codec, key, v).value)
  {
    var p, longer := ReadPatch(codec, patch), ReadPatch(codec, patch[key := v]);
    assert longer.document == if key.Env? then p.document[key.field := ReadPatchKey(codec, key, v).value] else p.document;
  }

  /** The part of a patch a loop with these keys still to read has read. */
  function Without(patch: map<Key, Json>, keys: set<Key>): map<Key, Json> {
    map k | k in patch && k !in keys :: patch[k]
  }

  lemma NothingYet(codec: Codec, patch: map<Key, Json>)
    ensures PatchReads(codec, Without(patch, patch.Keys)) && ReadPatch(codec, Without(patch, patch.Keys)) == NO_PATCH
  {
  }

  lemma CollectStep(codec: Codec, patch: map<Key, Json>, keys: set<Key>, key: Key)
    requires keys <= patch.Keys && key in keys && PatchReads(codec, Without(patch, keys))
    requires ReadPatchKey(codec, key, patch[key]).Some?
    ensures PatchReads(codec, Without(patch, keys - {key}))
    ensures ReadPatch(codec, Without(patch, keys - {key}))
         == Assign(ReadPatch(codec, Without(patch, keys)), key, ReadPatchKey(codec, key, patch[key]).value)
  {
    assert Without(patch, keys - {key}) == Without(patch, keys)[key := patch[key]];
    ReadPatchGrows(codec, Without(patch, keys), key, patch[key]);
  }

  lemma SetsNothingIffEmpty(codec: Codec, patch: map<Key, Json>)
    requires PatchReads(codec, patch)
    ensures ReadPatch(codec, patch) == NO_PATCH <==> patch == map[]
  {
    if patch != map[] {
      var k :| k in patch;
      if k.Env? { assert k.field in ReadPatch(codec, patch).document; }
    }
  }

  function OpenFor(rows: Table, userId: Json): set<Json> {
    set id | id in rows && rows[id].userId == userId && rows[id].closedAt.None?
  }

  // ---------------------------------------------------------------------------- the store --

  class AttemptTable {
    var rows: Table

    constructor ()
      ensures rows == map[]
    {
      rows := map[];
    }

    method Insert(codec: Codec, source: map<Key, Json>) returns (refused: Option<StoreFault>)
      modifies this
      ensures refused == InsertRefusal(codec, old(rows), source)
      ensures refused.None? ==> rows == Inserted(codec, old(rows), source)
      ensures refused.Some? ==> rows == old(rows)
    {
      if !AttemptReads(codec, source) {
        return Some(Fault);
      }
      var record := ReadAttempt(codec, source);
      if !InVocabulary(record.state) {
        return Some(Fault);
      }
      if record.verificationId in rows {
        return Some(AttemptIdTaken);
      }
      if !Terminal(record.state) && HasOpen(rows, record.subjectId) {
        return Some(OpenAttemptExists);
      }
      rows := rows[record.verificationId := RowFor(record)];
      return None;
    }

    method Find(codec: Codec, id: Json) returns (r: Result<Option<Record>, StoreFault>)
      ensures id !in rows ==> r == Ok(None)
      ensures id in rows ==> r == if ToRecord(codec, id, rows[id]).Some? then Ok(ToRecord(codec, id, rows[id])) else Err(Fault)
    {
      if id !in rows {
        return Ok(None);
      }
      var record := ToRecord(codec, id, rows[id]);
      return if record.None? then Err(Fault) else Ok(record);
    }

    /** The user's one open attempt; two of them are a fault, not a choice. */
    method FindOpenFor(codec: Codec, userId: Json) returns (r: Result<Option<Record>, StoreFault>)
      ensures |OpenFor(rows, userId)| > 1 ==> r == Err(Fault)
      ensures OpenFor(rows, userId) == {} ==> r == Ok(None)
      ensures forall id :: OpenFor(rows, userId) == {id} ==>
                r == if ToRecord(codec, id, rows[id]).Some? then Ok(ToRecord(codec, id, rows[id])) else Err(Fault)
    {
      var open := OpenFor(rows, userId);
      if |open| > 1 {
        return Err(Fault);
      }
      if open == {} {
        return Ok(None);
      }
      var id :| id in open;
      r := Find(codec, id);
    }

    /** Sorts the patch's keys, in whatever order they come, into the document and the columns. */
    method Collect(codec: Codec, patch: map<Key, Json>) returns (sorted: Option<Patch>)
      ensures sorted.Some? <==> PatchReads(codec, patch)
      ensures sorted.Some? ==> sorted.value == ReadPatch(codec, patch)
    {
      var keys, p := patch.Keys, NO_PATCH;
      NothingYet(codec, patch);
      while keys != {}
        invariant keys <= patch.Keys
        invariant PatchReads(codec, Without(patch, keys)) && p == ReadPatch(codec, Without(patch, keys))
        decreases |keys|
      {
        var key :| key in keys;
        var value := ReadPatchKey(codec, key, patch[key]);
        if value.None? {
          return None;
        }
        CollectStep(codec, patch, keys, key);
        p, keys := Assign(p, key, value.value), keys - {key};
      }
      assert Without(patch, keys) == patch;
      return Some(p);
    }

    /** One statement: refused by its `WHERE`, rejected by the database, or applied to one row. */
    method Send(id: Json, p: Patch, now: int) returns (r: Result<bool, StoreFault>)
      modifies this
      ensures r == Answer(old(rows), id, p) && rows == After(old(rows), id, p, now)
    {
      if p.document == map[] && p.state.None? && p.reference.None? {
        return Err(Fault);
      }
      if id !in rows || (rows[id].closedAt.Some? && p.state.Some? && !Terminal(p.state.value)) {
        return Ok(false);
      }
      if p.state.Some? && !InVocabulary(p.state.value) {
        return Err(Fault);
      }
      rows := rows[id := Patched(rows[id], p, now)];
      return Ok(true);
    }

    method Update(codec: Codec, id: Json, patch: map<Key, Json>, now: int) returns (r: Result<bool, StoreFault>)
      modifies this
      ensures r == UpdateAnswer(codec, old(rows), id, patch)
      ensures rows == Updated(codec, old(rows), id, patch, now)
    {
      var sorted := Collect(codec, patch);
      if sorted.None? {
        return Err(Fault);
      }
      r := Send(id, sorted.value, now);
    }
  }
}
