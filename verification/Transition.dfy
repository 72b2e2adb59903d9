/**
 * The transition-table kernel (`packages/core/src/transition.ts`): a lifecycle is
 * a list of rows, and a row whose event and source state match is looked up
 * before its guard is asked.
 */
module Transition {
  import opened Core

  /** `from == None` means the row is legal from any state. */
  datatype Row<S(==), E(==), !C> =
    Row(event: E, from: Option<seq<S>>, to: S, guard: Option<C -> bool>)
  {
    predicate Legal(state: S, event: E) {
      this.event == event && (from == None || state in from.value)
    }

    predicate Passes(context: C) {
      guard == None || guard.value(context)
    }
  }

  /** `Array.prototype.find`: the first legal row, if any. */
  function FirstLegal<S(==), E(==), C>(rows: seq<Row<S, E, C>>, state: S, event: E): (i: Option<nat>)
    ensures i.Some? ==> i.value < |rows| && rows[i.value].Legal(state, event)
    ensures i.Some? ==> forall j :: 0 <= j < i.value ==> !rows[j].Legal(state, event)
    ensures i.None? ==> forall j :: 0 <= j < |rows| ==> !rows[j].Legal(state, event)
  {
    if rows == [] then None
    else if rows[0].Legal(state, event) then Some(0)
    else
      var rest := FirstLegal(rows[1..], state, event);
      if rest.Some? then Some(rest.value + 1) else None
  }

  function Next<S(==), E(==), C>(rows: seq<Row<S, E, C>>, state: S, event: E, context: C): Result<S, Code> {
    var i := FirstLegal(rows, state, event);
    if i.None? then Err(InvalidTransition)
    else if !rows[i.value].Passes(context) then Err(ValidationFailed)
    else Ok(rows[i.value].to)
  }

  /** `allowedEvents`: every row that is legal and passes, not only the first legal one. */
  predicate Allowed<S(==), E(==), C>(rows: seq<Row<S, E, C>>, state: S, event: E, context: C) {
    exists i :: 0 <= i < |rows| && rows[i].Legal(state, event) && rows[i].Passes(context)
  }

  /** No event has two rows that share a source state. */
  ghost predicate Deterministic<S(!new), E(!new), C(!new)>(rows: seq<Row<S, E, C>>) {
    forall i, j, s, e :: 0 <= i < j < |rows| ==> !(rows[i].Legal(s, e) && rows[j].Legal(s, e))
  }

  /** The three answers a single deciding row can give. */
  function Answer<S>(legal: bool, guard: bool, to: S): Result<S, Code> {
    if !legal then Err(InvalidTransition) else if !guard then Err(ValidationFailed) else Ok(to)
  }

  /** The answer of `next`, pinned by the one row that decides it. */
  lemma NextAt<S, E, C>(rows: seq<Row<S, E, C>>, i: nat, state: S, event: E, context: C)
    requires i < |rows| && rows[i].Legal(state, event)
    requires forall j :: 0 <= j < i ==> !rows[j].Legal(state, event)
    ensures Next(rows, state, event, context)
         == if rows[i].Passes(context) then Ok(rows[i].to) else Err(ValidationFailed)
  {
    var k := FirstLegal(rows, state, event);
    assert k.Some? && k.value == i;
  }

  /** An event with a single row is answered by that row alone. */
  lemma OneRowDecides<S, E, C>(rows: seq<Row<S, E, C>>, i: nat, state: S, event: E, context: C)
    requires i < |rows| && rows[i].event == event
    requires forall j :: 0 <= j < |rows| && j != i ==> rows[j].event != event
    ensures Next(rows, state, event, context)
         == Answer(rows[i].from == None || state in rows[i].from.value, rows[i].Passes(context), rows[i].to)
  {
    if rows[i].Legal(state, event) {
      NextAt(rows, i, state, event, context);
    } else {
      assert FirstLegal(rows, state, event).None?;
    }
  }

  /** Row `i` is looked up first and its guard fails, while the later row `j` passes. */
  ghost predicate Shadowed<S, E, C>(rows: seq<Row<S, E, C>>, i: nat, j: nat, state: S, event: E, context: C) {
    && i < j < |rows|
    && (forall k :: 0 <= k < i ==> !rows[k].Legal(state, event))
    && rows[i].Legal(state, event) && !rows[i].Passes(context)
    && rows[j].Legal(state, event) && rows[j].Passes(context)
  }

  /**
   * `allowedEvents` and `next` disagree on exactly one kind of table: an event is
   * listed as allowed and then refused when its first legal row is guarded off and
   * a later legal row is not.
   */
  lemma AllowedButRefused<S, E, C>(rows: seq<Row<S, E, C>>, state: S, event: E, context: C)
    ensures Next(rows, state, event, context).Ok? ==> Allowed(rows, state, event, context)
    ensures Allowed(rows, state, event, context) && Next(rows, state, event, context).Err?
       <==> (exists i, j :: Shadowed(rows, i, j, state, event, context))
  {
    var first := FirstLegal(rows, state, event);
    if Allowed(rows, state, event, context) && Next(rows, state, event, context).Err? {
      var j :| 0 <= j < |rows| && rows[j].Legal(state, event) && rows[j].Passes(context);
      assert Shadowed(rows, first.value, j, state, event, context);
    }
    if i, j :| Shadowed(rows, i, j, state, event, context) {
      NextAt(rows, i, state, event, context);
    }
  }

  /** On a deterministic table the two always agree. */
  lemma AllowedIffNext<S(!new), E(!new), C(!new)>(rows: seq<Row<S, E, C>>, state: S, event: E, context: C)
    requires Deterministic(rows)
    ensures Allowed(rows, state, event, context) <==> Next(rows, state, event, context).Ok?
  {
    AllowedButRefused(rows, state, event, context);
  }

  /** A table on which `allowedEvents` offers what `next` refuses. */
  lemma ShadowedRowExample()
    ensures var rows: seq<Row<bool, bool, bool>> :=
              [Row(true, None, true, Some(c => c)), Row(true, Some([false]), false, None)];
            Allowed(rows, false, true, false) && Next(rows, false, true, false) == Err(ValidationFailed)
  {
    var rows: seq<Row<bool, bool, bool>> :=
      [Row(true, None, true, Some(c => c)), Row(true, Some([false]), false, None)];
    assert rows[1].Legal(false, true) && rows[1].Passes(false);
    NextAt(rows, 0, false, true, false);
  }
}
