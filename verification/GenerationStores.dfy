/**
 * The three compare-and-set stores: account standing (`store-account-standing.ts`),
 * identity state (`store-users-identity.ts`) and risk assessments (`store-risk.ts`).
 */
module GenerationStores {
  import opened Core

  datatype Versioned<P> = Versioned(payload: P, generation: int)

  datatype Kind = StandingTable | IdentityTable | RiskTable

  datatype Outcome<P> = Applied(row: Versioned<P>) | Refused | Faulted

  /** `INSERT … ON CONFLICT DO UPDATE … WHERE generation = expected`, on the row of one key. */
  function CompareAndSet<P>(cell: Option<Versioned<P>>, payload: P, first: int, expected: Option<int>): Outcome<P> {
    if cell.None? then Applied(Versioned(payload, first))
    else if expected == Some(cell.value.generation) then Applied(Versioned(payload, cell.value.generation + 1))
    else Refused
  }

  /** What a write does to the row of its key; `first` is the generation the caller's row carries. */
  function Written<P>(kind: Kind, cell: Option<Versioned<P>>, payload: P, first: int, expected: Option<int>): Outcome<P> {
    match kind
    case StandingTable =>
      if first < 1 || (expected.Some? && expected.value < 1) then Faulted
      else CompareAndSet(cell, payload, first, expected)
    case RiskTable => CompareAndSet(cell, payload, 1, expected)
    case IdentityTable =>
      if expected.None? then
        if first < 1 || cell.Some? then Faulted else Applied(Versioned(payload, first))
      else if expected.value < 1 then Faulted
      else if cell.Some? && expected.value == cell.value.generation then Applied(Versioned(payload, expected.value + 1))
      else Refused
  }

  function Cell<P>(rows: map<string, Versioned<P>>, key: string): Option<Versioned<P>> {
    if key in rows then Some(rows[key]) else None
  }

  function After<P>(rows: map<string, Versioned<P>>, key: string, outcome: Outcome<P>): map<string, Versioned<P>> {
    if outcome.Applied? then rows[key := outcome.row] else rows
  }

  // ---------------------------------------------------------------------- the stores --

  datatype Standing = Standing(
    state: string, capabilities: seq<string>, visibleInProduct: bool, caseId: Option<string>, decisionId: Option<string>,
    updatedAt: Option<int>)

  const ACCOUNT_STATES := ["active", "limited", "suspended", "banned"]

  /** `updatedAt` is `None` when it is not a valid instant. */
  predicate Acceptable(s: Standing) {
    s.state in ACCOUNT_STATES && s.updatedAt.Some?
  }

  /** A standing that can be stored names one of four states, at a valid instant. */
  lemma AcceptableIff(s: Standing)
    ensures Acceptable(s) <==> (s.state == "active" || s.state == "limited" || s.state == "suspended" || s.state == "banned") && s.updatedAt != None
  {
    var states := ACCOUNT_STATES;
    assert states[0] == "active" && states[1] == "limited" && states[2] == "suspended" && states[3] == "banned";
  }

  class AccountStandingStore {
    var rows: map<string, Versioned<Standing>>

    constructor ()
      ensures rows == map[]
    {
      rows := map[];
    }

    method Find(userId: string) returns (r: Option<Versioned<Standing>>)
      ensures r == Cell(rows, userId)
    {
      r := if userId in rows then Some(rows[userId]) else None;
    }

    /** `Err` is a thrown `StoreError`; `Ok` says whether the write was applied. */
    method Upsert(userId: string, standing: Standing, generation: int, expected: Option<int>) returns (r: Result<bool, Code>)
      modifies this
      ensures var outcome := if Acceptable(standing) then Written(StandingTable, old(Cell(rows, userId)), standing, generation, expected)
                             else Faulted;
              rows == After(old(rows), userId, outcome)
              && r == if outcome.Faulted? then Err(DependencyFailed) else Ok(outcome.Applied?)
    {
      if standing.state !in ACCOUNT_STATES {
        return Err(DependencyFailed);
      }
      if expected.Some? && expected.value < 1 {
        return Err(DependencyFailed);
      }
      if standing.updatedAt.None? {
        return Err(DependencyFailed);
      }
      if generation < 1 {
        return Err(DependencyFailed);
      }
      if userId !in rows {
        rows := rows[userId := Versioned(standing, generation)];
        return Ok(true);
      }
      if expected == Some(rows[userId].generation) {
        rows := rows[userId := Versioned(standing, rows[userId].generation + 1)];
        return Ok(true);
      }
      return Ok(false);
    }
  }

  datatype IdentityRecord = IdentityRecord(state: string, latestVerificationId: Option<string>, updatedAt: int)

  class IdentityStore {
    var rows: map<string, Versioned<IdentityRecord>>

    constructor ()
      ensures rows == map[]
    {
      rows := map[];
    }

    /** The first generation of a user; a second one is a conflict. */
    method Insert(userId: string, record: IdentityRecord, generation: int) returns (r: Result<(), Code>)
      modifies this
      ensures var outcome := Written(IdentityTable, old(Cell(rows, userId)), record, generation, None);
              rows == After(old(rows), userId, outcome)
              && (r.Ok? <==> outcome.Applied?)
              && (generation >= 1 && userId in old(rows) ==> r == Err(Conflict))
    {
      if generation < 1 {
        return Err(DependencyFailed);
      }
      if userId in rows {
        return Err(Conflict);
      }
      rows := rows[userId := Versioned(record, generation)];
      return Ok(());
    }

    method Update(userId: string, record: IdentityRecord, expected: int) returns (r: Result<bool, Code>)
      modifies this
      ensures var outcome := Written(IdentityTable, old(Cell(rows, userId)), record, expected, Some(expected));
              rows == After(old(rows), userId, outcome)
              && r == if outcome.Faulted? then Err(DependencyFailed) else Ok(outcome.Applied?)
    {
      if expected < 1 {
        return Err(DependencyFailed);
      }
      if userId in rows && rows[userId].generation == expected {
        rows := rows[userId := Versioned(record, rows[userId].generation + 1)];
        return Ok(true);
      }
      return Ok(false);
    }
  }

  /** A `Date | null`, which may also be a `Date` that is no instant. */
  datatype MaybeInstant = NoInstant | InvalidDate | Instant(ms: int)

  datatype Assessment = Assessment(assessmentId: string, state: string, lastSignalAt: MaybeInstant, detectors: seq<string>)

  class RiskStore {
    var rows: map<string, Versioned<Assessment>>

    constructor ()
      ensures rows == map[]
    {
      rows := map[];
    }

    /** `Err` is a thrown `StoreError`; `Ok` says whether the write was applied. */
    method UpsertAssessment(subjectId: string, assessment: Assessment, expected: Option<int>) returns (r: Result<bool, Code>)
      modifies this
      ensures var outcome := if assessment.lastSignalAt.InvalidDate? then Faulted
                             else Written(RiskTable, old(Cell(rows, subjectId)), assessment, 1, expected);
              rows == After(old(rows), subjectId, outcome)
              && r == if outcome.Faulted? then Err(DependencyFailed) else Ok(outcome.Applied?)
    {
      if assessment.lastSignalAt.InvalidDate? {
        return Err(DependencyFailed);
      }
      if subjectId !in rows {
        rows := rows[subjectId := Versioned(assessment, 1)];
        return Ok(true);
      }
      if expected == Some(rows[subjectId].generation) {
        rows := rows[subjectId := Versioned(assessment, rows[subjectId].generation + 1)];
        return Ok(true);
      }
      return Ok(false);
    }
  }

  // ------------------------------------------------------------------- one statement --

  /**
   * Exactly when a write that is no fault is applied. An expectation on a row that is not
   * there inserts in two of the stores and is refused in the third.
   */
  lemma AppliesIff<P>(kind: Kind, cell: Option<Versioned<P>>, payload: P, first: int, expected: Option<int>)
    requires !Written(kind, cell, payload, first, expected).Faulted?
    ensures Written(kind, cell, payload, first, expected).Applied?
       <==> if cell.Some? then expected == Some(cell.value.generation) else kind != IdentityTable || expected.None?
    ensures Written(kind, cell, payload, first, expected).Applied? && cell.Some? ==>
              Written(kind, cell, payload, first, expected).row == Versioned(payload, cell.value.generation + 1)
  {
  }

  /** Exactly which writes are faults: a generation below one, and a second first row of an identity. */
  lemma FaultsIff<P>(kind: Kind, cell: Option<Versioned<P>>, payload: P, first: int, expected: Option<int>)
    ensures Written(kind, cell, payload, first, expected).Faulted?
       <==> match kind
            case StandingTable => first < 1 || (expected.Some? && expected.value < 1)
            case RiskTable => false
            case IdentityTable => if expected.Some? then expected.value < 1 else first < 1 || cell.Some?
    ensures Written(kind, cell, payload, first, expected).Applied? && cell.None? ==>
              Written(kind, cell, payload, first, expected).row == Versioned(payload, if kind == RiskTable then 1 else first)
  {
  }

  // ---------------------------------------------------------------- interleaved clients --

  datatype Entry<P> = Entry(key: string, basis: Option<Versioned<P>>, written: Versioned<P>)

  /** The table, what each client last read of each key, and the writes applied so far. */
  datatype System<P> = System(
    rows: map<string, Versioned<P>>, seen: map<(nat, string), Versioned<P>>, log: seq<Entry<P>>)

  datatype Step<P> =
    | ReadRow(client: nat, key: string)
    | WriteRow(client: nat, key: string, payload: P, first: int)
    | DeleteRow(key: string)

  function SeenBy<P>(s: System<P>, client: nat, key: string): Option<Versioned<P>> {
    if (client, key) in s.seen then Some(s.seen[(client, key)]) else None
  }

  function ExpectedBy<P>(seen: Option<Versioned<P>>): Option<int> {
    if seen.Some? then Some(seen.value.generation) else None
  }

  /** A client writes on the strength of the row it last read, whatever happened since. */
  function StepSystem<P>(kind: Kind, s: System<P>, step: Step<P>): System<P> {
    match step
    case ReadRow(client, key) =>
      s.(seen := if key in s.rows then s.seen[(client, key) := s.rows[key]] else s.seen - {(client, key)})
    case WriteRow(client, key, payload, first) =>
      var basis := SeenBy(s, client, key);
      var outcome := Written(kind, Cell(s.rows, key), payload, first, ExpectedBy(basis));
      if outcome.Applied? then s.(rows := After(s.rows, key, outcome), log := s.log + [Entry(key, basis, outcome.row)]) else s
    case DeleteRow(key) => s.(rows := s.rows - {key})
  }

  /** A run in which the row of `key` is never deleted. */
  predicate NeverDeleted<P>(steps: seq<Step<P>>, key: string) {
    forall i :: 0 <= i < |steps| ==> !(steps[i].DeleteRow? && steps[i].key == key)
  }

  function RunSystem<P>(kind: Kind, s: System<P>, steps: seq<Step<P>>): System<P>
    decreases |steps|
  {
    if steps == [] then s else RunSystem(kind, StepSystem(kind, s, steps[0]), steps[1..])
  }

  /** A run takes its steps one after the other, the last on what the others left. */
  lemma {:induction false} LastStep<P>(kind: Kind, s: System<P>, steps: seq<Step<P>>, step: Step<P>)
    ensures RunSystem(kind, s, steps + [step]) == StepSystem(kind, RunSystem(kind, s, steps), step)
    decreases |steps|
  {
    if steps == [] {
      assert [] + [step] == [step];
    } else {
      assert (steps + [step])[1..] == steps[1..] + [step];
      LastStep(kind, StepSystem(kind, s, steps[0]), steps[1..], step);
    }
  }

  function EmptySystem<P>(): System<P> {
    System(map[], map[], [])
  }

  /** The writes of one key, oldest first. */
  function LogOf<P>(log: seq<Entry<P>>, key: string): seq<Entry<P>> {
    if log == [] then []
    else
      var last := log[|log| - 1];
      LogOf(log[..|log| - 1], key) + if last.key == key then [last] else []
  }

  /** The first write had nothing to replace; every later one was computed from the write just before it. */
  ghost predicate Chain<P>(log: seq<Entry<P>>) {
    (log != [] ==> log[0].basis.None?)
    && forall i :: 0 < i < |log| ==>
         log[i].basis == Some(log[i - 1].written) && log[i].written.generation == log[i - 1].written.generation + 1
  }

  ghost predicate Known<P>(log: seq<Entry<P>>, v: Versioned<P>) {
    exists i :: 0 <= i < |log| && log[i].written == v
  }

  ghost predicate KeyInv<P>(s: System<P>, key: string) {
    var log := LogOf(s.log, key);
    Chain(log) && Cell(s.rows, key) == if log == [] then None else Some(log[|log| - 1].written)
  }

  ghost predicate SeenInv<P>(s: System<P>, client: nat, key: string) {
    (client, key) in s.seen ==> Known(LogOf(s.log, key), s.seen[(client, key)])
  }

  ghost predicate KeySound<P>(s: System<P>, key: string) {
    KeyInv(s, key) && forall client :: SeenInv(s, client, key)
  }

  lemma {:induction false} LogOfAppend<P>(log: seq<Entry<P>>, e: Entry<P>, key: string)
    ensures LogOf(log + [e], key) == LogOf(log, key) + if e.key == key then [e] else []
  {
    assert (log + [e])[..|log|] == log;
  }

  /** Along a chain the generation rises by one a step, so no two writes share one. */
  lemma {:induction false} GenerationsRise<P>(log: seq<Entry<P>>, i: nat, j: nat)
    requires Chain(log) && i <= j < |log|
    ensures log[j].written.generation == log[i].written.generation + (j - i)
    decreases j
  {
    if i < j { GenerationsRise(log, i, j - 1); }
  }

  /** The generation stands for the row: a client whose generation matches has seen exactly the current row. */
  lemma MatchingGenerationIsTheRow<P>(log: seq<Entry<P>>, v: Versioned<P>)
    requires Chain(log) && Known(log, v) && v.generation == log[|log| - 1].written.generation
    ensures v == log[|log| - 1].written
  {
    var i :| 0 <= i < |log| && log[i].written == v;
    GenerationsRise(log, i, |log| - 1);
  }

  lemma WriteKeepsKey<P>(kind: Kind, s: System<P>, client: nat, key: string, payload: P, first: int)
    requires KeyInv(s, key) && SeenInv(s, client, key)
    ensures KeyInv(StepSystem(kind, s, WriteRow(client, key, payload, first)), key)
  {
    var basis, log := SeenBy(s, client, key), LogOf(s.log, key);
    var outcome := Written(kind, Cell(s.rows, key), payload, first, ExpectedBy(basis));
    if outcome.Applied? {
      LogOfAppend(s.log, Entry(key, basis, outcome.row), key);
      if log != [] { MatchingGenerationIsTheRow(log, basis.value); }
    }
  }

  lemma WriteLeavesOtherKeys<P>(kind: Kind, s: System<P>, client: nat, k: string, payload: P, first: int, key: string)
    requires k != key && KeyInv(s, key)
    ensures KeyInv(StepSystem(kind, s, WriteRow(client, k, payload, first)), key)
  {
    var next := StepSystem(kind, s, WriteRow(client, k, payload, first));
    assert Cell(next.rows, key) == Cell(s.rows, key);
    if next.log != s.log {
      LogOfAppend(s.log, next.log[|s.log|], key);
      assert next.log == s.log + [next.log[|s.log|]];
      assert LogOf(next.log, key) == LogOf(s.log, key);
    }
  }

  lemma KnownGrows<P>(log: seq<Entry<P>>, more: seq<Entry<P>>, v: Versioned<P>)
    requires Known(log, v)
    ensures Known(log + more, v)
  {
    var i :| 0 <= i < |log| && log[i].written == v;
    assert (log + more)[i].written == v;
  }

  lemma StepKeepsKey<P>(kind: Kind, s: System<P>, step: Step<P>, key: string)
    requires KeySound(s, key) && !(step.DeleteRow? && step.key == key)
    ensures KeyInv(StepSystem(kind, s, step), key)
  {
    match step
    case ReadRow(_, _) =>
    case WriteRow(client, k, payload, first) =>
      if k == key {
        assert SeenInv(s, client, key);
        WriteKeepsKey(kind, s, client, key, payload, first);
      } else {
        WriteLeavesOtherKeys(kind, s, client, k, payload, first, key);
      }
    case DeleteRow(k) =>
      assert Cell(s.rows - {k}, key) == Cell(s.rows, key);
  }

  lemma StepKeepsSeen<P>(kind: Kind, s: System<P>, step: Step<P>, client: nat, key: string)
    requires KeyInv(s, key) && SeenInv(s, client, key)
    ensures SeenInv(StepSystem(kind, s, step), client, key)
  {
    match step
    case ReadRow(_, _) =>
    case WriteRow(c, k, payload, first) =>
      var outcome := Written(kind, Cell(s.rows, k), payload, first, ExpectedBy(SeenBy(s, c, k)));
      if outcome.Applied? && (client, key) in s.seen {
        LogOfAppend(s.log, Entry(k, SeenBy(s, c, k), outcome.row), key);
        KnownGrows(LogOf(s.log, key), if k == key then [Entry(k, SeenBy(s, c, k), outcome.row)] else [], s.seen[(client, key)]);
      }
    case DeleteRow(_) =>
  }

  lemma {:induction false} RunKeepsKey<P>(kind: Kind, s: System<P>, steps: seq<Step<P>>, key: string)
    requires KeySound(s, key) && NeverDeleted(steps, key)
    ensures KeySound(RunSystem(kind, s, steps), key)
    decreases |steps|
  {
    if steps != [] {
      StepKeepsKey(kind, s, steps[0], key);
      forall client ensures SeenInv(StepSystem(kind, s, steps[0]), client, key) {
        StepKeepsSeen(kind, s, steps[0], client, key);
      }
      RunKeepsKey(kind, StepSystem(kind, s, steps[0]), steps[1..], key);
    }
  }

  /**
   * However clients interleave, and whatever is deleted elsewhere: the applied writes of
   * a key whose row is never deleted form a chain in which each was computed from the
   * very row it replaced, the stored row is the chain's end, and no generation was ever
   * written twice.
   */
  lemma {:induction false} NoUpdateIsLost<P>(kind: Kind, steps: seq<Step<P>>, key: string)
    requires NeverDeleted(steps, key)
    ensures var s := RunSystem(kind, EmptySystem(), steps);
            var log := LogOf(s.log, key);
            Chain(log) && Cell(s.rows, key) == (if log == [] then None else Some(log[|log| - 1].written))
            && forall i, j :: 0 <= i < j < |log| ==> log[i].written.generation < log[j].written.generation
  {
    var s := RunSystem(kind, EmptySystem<P>(), steps);
    RunKeepsKey(kind, EmptySystem<P>(), steps, key);
    var log := LogOf(s.log, key);
    forall i, j | 0 <= i < j < |log| ensures log[i].written.generation < log[j].written.generation {
      GenerationsRise(log, i, j);
    }
  }

  /** Two clients that both read the same generation: whoever writes first wins, and the other's write changes nothing. */
  lemma OneWinnerPerGeneration<P>(kind: Kind, s: System<P>, a: nat, b: nat, key: string, p: P, q: P, first: int)
    requires key in s.rows && SeenBy(s, a, key) == SeenBy(s, b, key) == Some(s.rows[key]) && s.rows[key].generation >= 1 && first >= 1
    ensures var won := StepSystem(kind, s, WriteRow(a, key, p, first));
            won.rows[key] == Versioned(p, s.rows[key].generation + 1)
            && StepSystem(kind, won, WriteRow(b, key, q, first)) == won
  {
  }

  /** A client that read nothing never overwrites anything. */
  lemma NullOnlyInserts<P>(kind: Kind, s: System<P>, client: nat, key: string, payload: P, first: int)
    requires SeenBy(s, client, key).None? && key in s.rows
    ensures StepSystem(kind, s, WriteRow(client, key, payload, first)) == s
  {
  }

  /** The run of a client that writes from a row deleted and written again behind its back. */
  function Deleted<P>(p: P, q: P): System<P> {
    var read := StepSystem(RiskTable, StepSystem(RiskTable, EmptySystem(), WriteRow(0, "k", p, 1)), ReadRow(1, "k"));
    StepSystem(RiskTable, StepSystem(RiskTable, read, DeleteRow("k")), WriteRow(2, "k", q, 1))
  }

  lemma DeletedIs<P>(p: P, q: P)
    ensures var first, second := Versioned(p, 1), Versioned(q, 1);
            Deleted(p, q) == System(map["k" := second], map[(1, "k") := first], [Entry("k", None, first), Entry("k", None, second)])
  {
    var written := StepSystem(RiskTable, EmptySystem(), WriteRow(0, "k", p, 1));
    assert written == System(map["k" := Versioned(p, 1)], map[], [Entry("k", None, Versioned(p, 1))]);
    var gone := StepSystem(RiskTable, StepSystem(RiskTable, written, ReadRow(1, "k")), DeleteRow("k"));
    assert gone == System(map[], map[(1, "k") := Versioned(p, 1)], [Entry("k", None, Versioned(p, 1))]);
  }

  /**
   * Why rows must not be deleted: a row deleted and written again starts at the same
   * generation, and a client of the first row then overwrites the second unseen.
   */
  lemma DeletionBreaksTheChain<P>(p: P, q: P, r: P)
    ensures var s := StepSystem(RiskTable, Deleted(p, q), WriteRow(1, "k", r, 1));
            Cell(Deleted(p, q).rows, "k") == Some(Versioned(q, 1)) && Cell(s.rows, "k") == Some(Versioned(r, 2))
            && |s.log| == 3 && s.log[2] == Entry("k", Some(Versioned(p, 1)), Versioned(r, 2))
  {
    DeletedIs(p, q);
  }
}
