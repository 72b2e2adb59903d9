/**
 * The codecs of the stored attempt (`store-verification-attempts-rows.ts`): what a
 * caller's value becomes in the `checks` document and what is read back from it.
 */
module AttemptRecords {
  import opened Core

  /** The ten fields kept in the `checks` document. */
  datatype EnvelopeKey =
    | UpdatedAt | ReVerification | Reason | ExpiresAt | SubmittedAt
    | CompletedChecks | Evidence | Confidence | Decision | ReviewerId

  /** Every field name the codecs mention; any other name is `Other`. */
  datatype Key =
    | Env(field: EnvelopeKey)
    | VerificationId | SubjectId | StartedAt | State | ProviderReference
    | SchemaVersion
    | CodeName | KindName | CapturedAt | StorageRef | Sensitivity | Digest
    | ValueName | BandName | Rationale | MissingChecks
    | Other(name: string)

  /**
   * A JavaScript value on its way to or from jsonb. `Stamp` is the ISO string an
   * instant is serialised to; `Instant(None)` is an invalid `Date`.
   */
  datatype Json =
    | Undefined
    | Null
    | Bool(b: bool)
    | Number(n: real)
    | NotFinite
    | Text(s: string)
    | Stamp(ms: int)
    | Instant(at: Option<int>)
    | List(items: seq<Json>)
    | Obj(fields: map<Key, Json>)
  {
    function At(key: Key): Json {
      if Obj? && key in fields then fields[key] else Undefined
    }
  }

  // ----------------------------------------------------------- serialisation --

  /** `JSON.stringify` and the parse that follows it. */
  function Stringify(v: Json): Json {
    match v
    case Undefined => Null
    case NotFinite => Null
    case Instant(at) => if at.Some? then Stamp(at.value) else Null
    case List(items) => List(seq(|items|, i requires 0 <= i < |items| => Stringify(items[i])))
    case Obj(fields) => Obj(map k | k in fields && fields[k] != Undefined :: Stringify(fields[k]))
    case _ => v
  }

  /** Nothing in it that JSON cannot carry. */
  predicate Plain(v: Json) {
    match v
    case Undefined => false
    case NotFinite => false
    case Instant(_) => false
    case List(items) => forall i :: 0 <= i < |items| ==> Plain(items[i])
    case Obj(fields) => forall k :: k in fields ==> Plain(fields[k])
    case _ => true
  }

  /** What comes back is plain, so a second trip changes nothing. */
  lemma {:induction false} StringifyIsPlain(v: Json)
    ensures Plain(Stringify(v))
  {
    match v
    case List(items) =>
      forall i | 0 <= i < |items| ensures Plain(Stringify(items[i])) { StringifyIsPlain(items[i]); }
    case Obj(fields) =>
      forall k | k in fields ensures Plain(Stringify(fields[k])) { StringifyIsPlain(fields[k]); }
    case _ =>
  }

  lemma {:induction false} PlainIsUnchanged(v: Json)
    requires Plain(v)
    ensures Stringify(v) == v
  {
    match v
    case List(items) =>
      forall i | 0 <= i < |items| ensures Stringify(items[i]) == items[i] { PlainIsUnchanged(items[i]); }
      assert Stringify(v).items == items;
    case Obj(fields) =>
      forall k | k in fields ensures Stringify(fields[k]) == fields[k] && fields[k] != Undefined { PlainIsUnchanged(fields[k]); }
      assert Stringify(v).fields == fields;
    case _ =>
  }

  /** Exactly the plain values survive the document unchanged. */
  lemma {:induction false} UnchangedIffPlain(v: Json)
    ensures Stringify(v) == v <==> Plain(v)
  {
    StringifyIsPlain(v);
    if Plain(v) { PlainIsUnchanged(v); }
  }

  // ------------------------------------------------------------------ readers --

  function ReadText(v: Json): Option<Json> {
    if (v.Text? && v.s != "") || v.Stamp? then Some(v) else None
  }

  function ReadInstant(v: Json): Option<Json> {
    match v
    case Instant(Some(ms)) => Some(v)
    case Stamp(ms) => Some(Instant(Some(ms)))
    case _ => None
  }

  function ReadBool(v: Json): Option<Json> {
    if v.Bool? then Some(v) else None
  }

  predicate Absent(v: Json) {
    v.Null? || v.Undefined?
  }

  function ReadAll(items: seq<Json>, read: Json -> Option<Json>): (r: Option<seq<Json>>)
    ensures r.Some? ==> |r.value| == |items| && forall i :: 0 <= i < |items| ==> read(items[i]) == Some(r.value[i])
    ensures r.None? ==> exists i :: 0 <= i < |items| && read(items[i]).None?
  {
    if items == [] then Some([])
    else
      var first, rest := read(items[0]), ReadAll(items[1..], read);
      if first.None? then None
      else if rest.None? then
        var i :| 0 <= i < |items[1..]| && read(items[1..][i]).None?;
        assert items[1..][i] == items[i + 1];
        None
      else Some([first.value] + rest.value)
  }

  function ReadList(v: Json, read: Json -> Option<Json>): Option<Json> {
    if !v.List? then None
    else
      var r := ReadAll(v.items, read);
      if r.None? then None else Some(List(r.value))
  }

  /** Only the discriminant of a reason is looked at; the rest is kept as it came. */
  function ReadReason(v: Json): Option<Json> {
    if v.Obj? && ReadText(v.At(CodeName)).Some? then Some(v) else None
  }

  function ReadConfidence(v: Json): Option<Json> {
    if v.Obj? && v.At(ValueName).Number? && ReadText(v.At(BandName)).Some?
    then Some(Obj(map[ValueName := v.At(ValueName), BandName := v.At(BandName)]))
    else None
  }

  function DecisionOf(verdict: Json, confidence: Json, rationale: Json, missing: Json): Json {
    Obj(map[Env(Decision) := verdict, Env(Confidence) := confidence, Rationale := rationale, MissingChecks := missing])
  }

  function ReadDecision(v: Json): Option<Json> {
    var verdict, confidence := ReadText(v.At(Env(Decision))), ReadConfidence(v.At(Env(Confidence)));
    var rationale, missing := ReadList(v.At(Rationale), ReadText), ReadList(v.At(MissingChecks), ReadText);
    if v.Obj? && verdict.Some? && confidence.Some? && rationale.Some? && missing.Some?
    then Some(DecisionOf(verdict.value, confidence.value, rationale.value, missing.value))
    else None
  }

  function ArtefactOf(kind: Json, owner: Json, captured: Json, ref: Json, sensitivity: Json, digest: Json, expires: Json): Json {
    Obj(map[KindName := kind, VerificationId := owner, CapturedAt := captured, StorageRef := ref,
            Sensitivity := sensitivity, Digest := digest, Env(ExpiresAt) := expires])
  }

  function ReadArtefact(v: Json): Option<Json> {
    var kind, owner, ref := ReadText(v.At(KindName)), ReadText(v.At(VerificationId)), ReadText(v.At(StorageRef));
    var sensitivity, digest := ReadText(v.At(Sensitivity)), ReadText(v.At(Digest));
    var captured, expires := ReadInstant(v.At(CapturedAt)), ReadInstant(v.At(Env(ExpiresAt)));
    if v.Obj? && kind.Some? && owner.Some? && ref.Some? && sensitivity.Some? && digest.Some? && captured.Some? && expires.Some?
    then Some(ArtefactOf(kind.value, owner.value, captured.value, ref.value, sensitivity.value, digest.value, expires.value))
    else None
  }

  predicate Nullable(key: EnvelopeKey) {
    key == SubmittedAt || key == Confidence || key == Decision || key == ReviewerId
  }

  function ReadTextOrNull(v: Json): Option<Json> {
    if Absent(v) then Some(Null) else ReadText(v)
  }

  type Codec = (EnvelopeKey, Json) -> Option<Json>

  /** What one field of the envelope accepts and turns it into; writing and reading share it. */
  function EnvelopeCodec(key: EnvelopeKey, v: Json): Option<Json> {
    if Nullable(key) && Absent(v) then Some(Null)
    else
      match key
      case UpdatedAt => ReadInstant(v)
      case ReVerification => ReadBool(v)
      case Reason => ReadReason(v)
      case ExpiresAt => ReadInstant(v)
      case SubmittedAt => ReadInstant(v)
      case CompletedChecks => ReadList(v, ReadText)
      case Evidence => ReadList(v, ReadArtefact)
      case Confidence => ReadConfidence(v)
      case Decision => ReadDecision(v)
      case ReviewerId => ReadText(v)
  }

  // ------------------------------------------------------------ what is accepted --

  predicate TextLike(v: Json) {
    v.Stamp? || (v.Text? && |v.s| > 0)
  }

  /** A valid `Date` of a caller or a driver, or the ISO string of one. */
  predicate InstantLike(v: Json) {
    v.Stamp? || (v.Instant? && v.at.Some?)
  }

  const ARTEFACT_TEXTS := {KindName, VerificationId, StorageRef, Sensitivity, Digest}
  const ARTEFACT_INSTANTS := {CapturedAt, Env(ExpiresAt)}

  predicate ArtefactLike(v: Json) {
    v.Obj? && ARTEFACT_TEXTS + ARTEFACT_INSTANTS <= v.fields.Keys
    && (forall k :: k in ARTEFACT_TEXTS ==> TextLike(v.fields[k]))
    && (forall k :: k in ARTEFACT_INSTANTS ==> InstantLike(v.fields[k]))
  }

  predicate ConfidenceLike(v: Json) {
    v.Obj? && {ValueName, BandName} <= v.fields.Keys && v.fields[ValueName].Number? && TextLike(v.fields[BandName])
  }

  predicate TextsLike(v: Json) {
    v.List? && forall i :: 0 <= i < |v.items| ==> TextLike(v.items[i])
  }

  predicate DecisionLike(v: Json) {
    v.Obj? && {Env(Decision), Env(Confidence), Rationale, MissingChecks} <= v.fields.Keys
    && TextLike(v.fields[Env(Decision)]) && ConfidenceLike(v.fields[Env(Confidence)])
    && TextsLike(v.fields[Rationale]) && TextsLike(v.fields[MissingChecks])
  }

  /** The values a field of an attempt may hold, in either of the forms it arrives in. */
  predicate FieldLike(key: EnvelopeKey, v: Json) {
    match key
    case UpdatedAt => InstantLike(v)
    case ReVerification => v.Bool?
    case Reason => v.Obj? && CodeName in v.fields && TextLike(v.fields[CodeName])
    case ExpiresAt => InstantLike(v)
    case SubmittedAt => v in {Null, Undefined} || InstantLike(v)
    case CompletedChecks => TextsLike(v)
    case Evidence => v.List? && forall i :: 0 <= i < |v.items| ==> ArtefactLike(v.items[i])
    case Confidence => v in {Null, Undefined} || ConfidenceLike(v)
    case Decision => v in {Null, Undefined} || DecisionLike(v)
    case ReviewerId => v in {Null, Undefined} || TextLike(v)
  }

  /** One value and its decoded form: an ISO string becomes the instant it writes, and nothing else changes. */
  predicate SameInstant(v: Json, r: Json) {
    r.Instant? && r.at.Some? && (v == r || v == Stamp(r.at.value))
  }

  lemma ReadListIff(v: Json, read: Json -> Option<Json>)
    ensures ReadList(v, read).Some? <==> v.List? && forall i :: 0 <= i < |v.items| ==> read(v.items[i]).Some?
  {
  }

  lemma TextsAccepted(v: Json)
    ensures ReadList(v, ReadText).Some? <==> TextsLike(v)
    ensures ReadList(v, ReadText).Some? ==> ReadList(v, ReadText) == Some(v)
  {
    ReadListIff(v, ReadText);
    if v.List? {
      assert forall i :: 0 <= i < |v.items| ==> (ReadText(v.items[i]).Some? <==> TextLike(v.items[i]));
      if ReadList(v, ReadText).Some? {
        assert ReadAll(v.items, ReadText).value == v.items;
      }
    }
  }

  lemma ConfidenceAccepted(v: Json)
    ensures ReadConfidence(v).Some? <==> ConfidenceLike(v)
    ensures ReadConfidence(v).Some? ==>
              ReadConfidence(v).value == Obj(map[ValueName := v.fields[ValueName], BandName := v.fields[BandName]])
  {
  }

  lemma DecisionAccepted(v: Json)
    ensures ReadDecision(v).Some? <==> DecisionLike(v)
    ensures ReadDecision(v).Some? ==>
              ReadDecision(v).value
              == Obj(map[Env(Decision) := v.fields[Env(Decision)], Env(Confidence) := ReadConfidence(v.fields[Env(Confidence)]).value,
                         Rationale := v.fields[Rationale], MissingChecks := v.fields[MissingChecks]])
  {
    ConfidenceAccepted(v.At(Env(Confidence)));
    TextsAccepted(v.At(Rationale));
    TextsAccepted(v.At(MissingChecks));
  }

  lemma ArtefactRead(v: Json)
    ensures ReadArtefact(v).Some? <==> ArtefactLike(v)
  {
  }

  /** An artefact is read with its seven fields and no other, its instants decoded. */
  lemma ArtefactReadsAs(v: Json)
    requires ReadArtefact(v).Some?
    ensures
      var r := ReadArtefact(v).value;
      r.Obj? && v.Obj? && r.fields.Keys == ARTEFACT_TEXTS + ARTEFACT_INSTANTS && r.fields.Keys <= v.fields.Keys
      && (forall k :: k in ARTEFACT_TEXTS ==> r.fields[k] == v.fields[k])
      && (forall k :: k in ARTEFACT_INSTANTS ==> SameInstant(v.fields[k], r.fields[k]))
  {
    ArtefactRead(v);
  }

  /** Exactly which values each field of the envelope takes. */
  lemma FieldAcceptedIff(key: EnvelopeKey, v: Json)
    ensures EnvelopeCodec(key, v).Some? <==> FieldLike(key, v)
  {
    match key
    case CompletedChecks => TextsAccepted(v);
    case Evidence =>
      ReadListIff(v, ReadArtefact);
      if v.List? { forall i | 0 <= i < |v.items| { ArtefactRead(v.items[i]); } }
    case Confidence => ConfidenceAccepted(v);
    case Decision => DecisionAccepted(v);
    case _ =>
  }

  /** And what it makes of them: decoded instants, null for what is absent, and the rest as it came. */
  lemma FieldReadsAs(key: EnvelopeKey, v: Json)
    requires EnvelopeCodec(key, v).Some?
    ensures
      var r := EnvelopeCodec(key, v).value;
      match key
      case UpdatedAt => SameInstant(v, r)
      case ExpiresAt => SameInstant(v, r)
      case SubmittedAt => if v in {Null, Undefined} then r == Null else SameInstant(v, r)
      case ReviewerId => r == if v == Undefined then Null else v
      case Evidence =>
        r.List? && |r.items| == |v.items| && forall i :: 0 <= i < |r.items| ==> ReadArtefact(v.items[i]) == Some(r.items[i])
      case Confidence => if v in {Null, Undefined} then r == Null else ReadConfidence(v) == Some(r)
      case Decision => if v in {Null, Undefined} then r == Null else ReadDecision(v) == Some(r)
      case _ => r == v
  {
    FieldAcceptedIff(key, v);
    if key == CompletedChecks { TextsAccepted(v); }
  }

  // --------------------------------------------------------------- round trips --

  lemma InstantTrip(v: Json)
    requires ReadInstant(v).Some?
    ensures ReadInstant(Stringify(ReadInstant(v).value)) == ReadInstant(v)
  {
  }

  lemma {:induction false} ListTrip(v: Json, read: Json -> Option<Json>)
    requires ReadList(v, read).Some?
    requires forall x :: x in v.items && read(x).Some? ==> read(Stringify(read(x).value)) == read(x)
    ensures ReadList(Stringify(ReadList(v, read).value), read) == ReadList(v, read)
  {
    var once := ReadAll(v.items, read).value;
    var twice := Stringify(List(once)).items;
    forall i | 0 <= i < |once| ensures read(twice[i]) == Some(once[i]) {
      assert v.items[i] in v.items;
    }
    assert ReadAll(twice, read).Some?;
    assert ReadAll(twice, read).value == once;
  }

  lemma ConfidenceTrip(v: Json)
    requires ReadConfidence(v).Some?
    ensures ReadConfidence(Stringify(ReadConfidence(v).value)) == ReadConfidence(v)
  {
  }

  lemma StringifyFields(fields: map<Key, Json>, after: map<Key, Json>)
    requires after.Keys == fields.Keys
    requires forall k :: k in fields ==> fields[k] != Undefined && after[k] == Stringify(fields[k])
    ensures Stringify(Obj(fields)) == Obj(after)
  {
    assert Stringify(Obj(fields)).fields == after;
  }

  lemma {:induction false} StringifyDecision(verdict: Json, confidence: Json, rationale: Json, missing: Json)
    requires ReadText(verdict).Some? && confidence.Obj? && rationale.List? && missing.List?
    ensures Stringify(DecisionOf(verdict, confidence, rationale, missing))
         == DecisionOf(verdict, Stringify(confidence), Stringify(rationale), Stringify(missing))
  {
    StringifyFields(DecisionOf(verdict, confidence, rationale, missing).fields,
                    DecisionOf(verdict, Stringify(confidence), Stringify(rationale), Stringify(missing)).fields);
  }

  lemma ReadsDecisionOf(verdict: Json, c: Json, r: Json, m: Json, confidence: Json, rationale: Json, missing: Json)
    requires ReadText(verdict).Some? && ReadConfidence(c) == Some(confidence)
    requires ReadList(r, ReadText) == Some(rationale) && ReadList(m, ReadText) == Some(missing)
    ensures ReadDecision(DecisionOf(verdict, c, r, m)) == Some(DecisionOf(verdict, confidence, rationale, missing))
  {
  }

  lemma DecisionTrip(v: Json)
    requires ReadDecision(v).Some?
    ensures ReadDecision(Stringify(ReadDecision(v).value)) == ReadDecision(v)
  {
    var verdict, confidence := ReadText(v.At(Env(Decision))).value, ReadConfidence(v.At(Env(Confidence))).value;
    var rationale, missing := ReadList(v.At(Rationale), ReadText).value, ReadList(v.At(MissingChecks), ReadText).value;
    ConfidenceTrip(v.At(Env(Confidence)));
    ListTrip(v.At(Rationale), ReadText);
    ListTrip(v.At(MissingChecks), ReadText);
    StringifyDecision(verdict, confidence, rationale, missing);
    ReadsDecisionOf(verdict, Stringify(confidence), Stringify(rationale), Stringify(missing), confidence, rationale, missing);
  }

  lemma {:induction false} StringifyArtefact(kind: Json, owner: Json, captured: Json, ref: Json, sensitivity: Json, digest: Json, expires: Json)
    requires ReadText(kind).Some? && ReadText(owner).Some? && ReadText(ref).Some? && ReadText(sensitivity).Some?
    requires ReadText(digest).Some? && captured.Instant? && expires.Instant?
    ensures Stringify(ArtefactOf(kind, owner, captured, ref, sensitivity, digest, expires))
         == ArtefactOf(kind, owner, Stringify(captured), ref, sensitivity, digest, Stringify(expires))
  {
    StringifyFields(ArtefactOf(kind, owner, captured, ref, sensitivity, digest, expires).fields,
                    ArtefactOf(kind, owner, Stringify(captured), ref, sensitivity, digest, Stringify(expires)).fields);
  }

  lemma ReadsArtefactOf(
    kind: Json, owner: Json, c: Json, ref: Json, sensitivity: Json, digest: Json, e: Json, captured: Json, expires: Json)
    requires ReadText(kind).Some? && ReadText(owner).Some? && ReadText(ref).Some? && ReadText(sensitivity).Some?
    requires ReadText(digest).Some? && ReadInstant(c) == Some(captured) && ReadInstant(e) == Some(expires)
    ensures ReadArtefact(ArtefactOf(kind, owner, c, ref, sensitivity, digest, e))
         == Some(ArtefactOf(kind, owner, captured, ref, sensitivity, digest, expires))
  {
  }

  lemma ArtefactTrip(v: Json)
    requires ReadArtefact(v).Some?
    ensures ReadArtefact(Stringify(ReadArtefact(v).value)) == ReadArtefact(v)
  {
    var captured, expires := ReadInstant(v.At(CapturedAt)).value, ReadInstant(v.At(Env(ExpiresAt))).value;
    StringifyArtefact(v.At(KindName), v.At(VerificationId), captured, v.At(StorageRef), v.At(Sensitivity), v.At(Digest), expires);
    InstantTrip(v.At(CapturedAt));
    InstantTrip(v.At(Env(ExpiresAt)));
    ReadsArtefactOf(v.At(KindName), v.At(VerificationId), Stringify(captured), v.At(StorageRef), v.At(Sensitivity), v.At(Digest),
                    Stringify(expires), captured, expires);
  }

  /** What a field reads as after it has been written to the document. */
  function Stored(key: EnvelopeKey, v: Json): Json {
    if key == Reason then Stringify(v) else v
  }

  /**
   * The round trip of one field: whatever a codec accepted is written, read back by
   * the same codec, and is the value it first produced; a reason comes back as JSON.
   */
  lemma FieldTrip(key: EnvelopeKey, v: Json)
    requires EnvelopeCodec(key, v).Some?
    ensures EnvelopeCodec(key, Stringify(EnvelopeCodec(key, v).value)) == Some(Stored(key, EnvelopeCodec(key, v).value))
  {
    if !(Nullable(key) && Absent(v)) {
      match key
      case Confidence => ConfidenceTrip(v);
      case Decision => DecisionTrip(v);
      case CompletedChecks => ListTrip(v, ReadText);
      case Evidence =>
        forall x | x in v.items && ReadArtefact(x).Some? ensures ReadArtefact(Stringify(ReadArtefact(x).value)) == ReadArtefact(x) {
          ArtefactTrip(x);
        }
        ListTrip(v, ReadArtefact);
      case _ =>
    }
  }

  /** What the store needs of its codecs. */
  ghost predicate Faithful(codec: Codec) {
    && (forall key, v :: codec(key, v).Some? ==>
          codec(key, v).value != Undefined
          && codec(key, Stringify(codec(key, v).value)) == Some(Stored(key, codec(key, v).value)))
    && (forall v :: codec(UpdatedAt, v).Some? ==> codec(UpdatedAt, v).value.Instant? && codec(UpdatedAt, v).value.at.Some?)
  }

  lemma EnvelopeCodecIsFaithful()
    ensures Faithful(EnvelopeCodec)
  {
    forall key, v | EnvelopeCodec(key, v).Some?
      ensures EnvelopeCodec(key, v).value != Undefined
      ensures EnvelopeCodec(key, Stringify(EnvelopeCodec(key, v).value)) == Some(Stored(key, EnvelopeCodec(key, v).value))
    {
      FieldTrip(key, v);
    }
  }

  /** The one field that may not survive: a reason is kept exactly when it is plain JSON. */
  lemma {:induction false} FieldKeptIff(key: EnvelopeKey, v: Json)
    requires EnvelopeCodec(key, v).Some?
    ensures Stored(key, EnvelopeCodec(key, v).value) == EnvelopeCodec(key, v).value <==> key != Reason || Plain(v)
  {
    UnchangedIffPlain(v);
  }

  /** An attempt opened because of findings comes back with its findings' instants as strings. */
  lemma FindingInstantsBecomeText(reason: Json, finding: Json)
    requires EnvelopeCodec(Reason, reason) == Some(reason) && reason.At(Other("findings")) == List([finding])
    requires finding.Obj? && Other("detectedAt") in finding.fields && finding.fields[Other("detectedAt")].Instant?
    ensures Stored(Reason, reason) != reason
  {
    assert !Plain(finding.fields[Other("detectedAt")]);
    assert !Plain([finding][0]);
    assert !Plain(reason.fields[Other("findings")]);
    UnchangedIffPlain(reason);
  }
}
