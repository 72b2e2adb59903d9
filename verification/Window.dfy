/**
 * Sliding windows over instants, shared by the message burst rule, the
 * verification-start cap and the re-verification cap: each filters a history to
 * the last `span` milliseconds and refuses once `limit` instants are in it.
 */
module Window {
  import opened Core

  /** How many instants lie in the half-open window `(lo, hi]`. */
  function CountIn(times: seq<int>, lo: int, hi: int): nat {
    if times == [] then 0
    else CountIn(times[..|times| - 1], lo, hi) + if lo < times[|times| - 1] <= hi then 1 else 0
  }

  /** How many instants lie after `lo`; the caps that do not look for future entries. */
  function CountAfter(times: seq<int>, lo: int): nat {
    if times == [] then 0
    else CountAfter(times[..|times| - 1], lo) + if lo < times[|times| - 1] then 1 else 0
  }

  /** The count is of places in the history, each once. */
  lemma {:induction false} CountInIs(times: seq<int>, lo: int, hi: int)
    ensures CountIn(times, lo, hi) == |set i | 0 <= i < |times| && lo < times[i] <= hi|
  {
    if times != [] {
      var n := |times| - 1;
      CountInIs(times[..n], lo, hi);
      var before, now := set i | 0 <= i < n && lo < times[..n][i] <= hi, set i | 0 <= i < |times| && lo < times[i] <= hi;
      assert now == before + if lo < times[n] <= hi then {n} else {};
    }
  }

  lemma {:induction false} CountAfterIs(times: seq<int>, lo: int)
    ensures CountAfter(times, lo) == |set i | 0 <= i < |times| && lo < times[i]|
  {
    if times != [] {
      var n := |times| - 1;
      CountAfterIs(times[..n], lo);
      var before, now := set i | 0 <= i < n && lo < times[..n][i], set i | 0 <= i < |times| && lo < times[i];
      assert now == before + if lo < times[n] then {n} else {};
    }
  }

  /** The earliest instant of `(lo, hi]`, the `reduce`/`Math.min` of the source. */
  function EarliestIn(times: seq<int>, lo: int, hi: int): (r: Option<int>)
    ensures r.None? <==> CountIn(times, lo, hi) == 0
    ensures r.None? ==> forall i :: 0 <= i < |times| ==> !(lo < times[i] <= hi)
    ensures r.Some? ==> r.value in times && lo < r.value <= hi
    ensures r.Some? ==> forall i :: 0 <= i < |times| && lo < times[i] <= hi ==> r.value <= times[i]
  {
    if times == [] then None else
      var last, rest := times[|times| - 1], EarliestIn(times[..|times| - 1], lo, hi);
      if !(lo < last <= hi) then rest
      else if rest == None || last < rest.value then Some(last)
      else rest
  }

  predicate AllAtMost(times: seq<int>, hi: int) {
    forall i :: 0 <= i < |times| ==> times[i] <= hi
  }

  /** In clock order, and every entry accepted while fewer than `limit` were in its own window. */
  predicate Paced(times: seq<int>, limit: nat, span: int) {
    times == [] ||
    (var rest, last := times[..|times| - 1], times[|times| - 1];
     Paced(rest, limit, span) && AllAtMost(rest, last) && CountIn(rest, last - span, last) < limit)
  }

  lemma {:induction false} PacedExtend(times: seq<int>, at: int, limit: nat, span: int)
    requires Paced(times, limit, span) && AllAtMost(times, at)
    requires CountIn(times, at - span, at) < limit
    ensures Paced(times + [at], limit, span)
  {
    assert (times + [at])[..|times|] == times;
  }

  /** A window whose start is later and whose end no entry passes holds no more. */
  lemma {:induction false} CountShrinks(times: seq<int>, lo: int, hi: int, lo': int, hi': int)
    requires lo' <= lo
    requires forall i :: 0 <= i < |times| && lo < times[i] <= hi ==> times[i] <= hi'
    ensures CountIn(times, lo, hi) <= CountIn(times, lo', hi')
  {
    if times != [] {
      CountShrinks(times[..|times| - 1], lo, hi, lo', hi');
    }
  }

  lemma {:induction false} CountAfterAppend(times: seq<int>, x: int, lo: int)
    ensures CountAfter(times + [x], lo) == CountAfter(times, lo) + if lo < x then 1 else 0
  {
    assert (times + [x])[..|times|] == times;
  }

  /** The unbounded count is the bounded one when nothing lies in the future. */
  lemma {:induction false} CountAfterIsCountIn(times: seq<int>, lo: int, hi: int)
    requires AllAtMost(times, hi)
    ensures CountAfter(times, lo) == CountIn(times, lo, hi)
  {
    if times != [] {
      CountAfterIsCountIn(times[..|times| - 1], lo, hi);
    }
  }

  lemma {:induction false} CountAfterShrinks(times: seq<int>, lo: int, lo': int)
    requires lo' <= lo
    ensures CountAfter(times, lo) <= CountAfter(times, lo')
  {
    if times != [] { CountAfterShrinks(times[..|times| - 1], lo, lo'); }
  }

  /** A paced history never holds more than `limit` instants in any window of `span`. */
  lemma {:induction false} NoWindowOverfull(times: seq<int>, limit: nat, span: int, at: int)
    requires Paced(times, limit, span)
    ensures CountIn(times, at - span, at) <= limit
  {
    if times != [] {
      var rest, last := times[..|times| - 1], times[|times| - 1];
      if at - span < last <= at {
        CountShrinks(rest, at - span, at, last - span, last);
      } else {
        NoWindowOverfull(rest, limit, span, at);
      }
    }
  }

  /** The earliest instant after `lo`. */
  function EarliestAfter(times: seq<int>, lo: int): (r: Option<int>)
    ensures r.None? <==> CountAfter(times, lo) == 0
    ensures r.None? ==> forall i :: 0 <= i < |times| ==> times[i] <= lo
    ensures r.Some? ==> r.value in times && lo < r.value
    ensures r.Some? ==> forall i :: 0 <= i < |times| && lo < times[i] ==> r.value <= times[i]
  {
    if times == [] then None else
      var last, rest := times[|times| - 1], EarliestAfter(times[..|times| - 1], lo);
      if last <= lo then rest
      else if rest == None || last < rest.value then Some(last)
      else rest
  }

  /** The latest instant after `lo`. */
  function LatestAfter(times: seq<int>, lo: int): (r: Option<int>)
    ensures r.None? ==> forall i :: 0 <= i < |times| ==> times[i] <= lo
    ensures r.Some? ==> r.value in times && lo < r.value
    ensures r.Some? ==> forall i :: 0 <= i < |times| && lo < times[i] ==> times[i] <= r.value
  {
    if times == [] then None else
      var last, rest := times[|times| - 1], LatestAfter(times[..|times| - 1], lo);
      if last <= lo then rest
      else if rest == None || rest.value < last then Some(last)
      else rest
  }

  /** No entry leaves the window before its earliest one does. */
  lemma {:induction false} CountAfterSteady(times: seq<int>, lo: int, lo': int)
    requires lo <= lo'
    requires forall i :: 0 <= i < |times| && lo < times[i] ==> lo' < times[i]
    ensures CountAfter(times, lo') == CountAfter(times, lo)
  {
    if times != [] { CountAfterSteady(times[..|times| - 1], lo, lo'); }
  }

  /** How many of the instants are `t` itself. */
  function CountAt(times: seq<int>, t: int): nat {
    if times == [] then 0 else CountAt(times[..|times| - 1], t) + if times[|times| - 1] == t then 1 else 0
  }

  /** Moving the start of a window to its earliest instant loses exactly the entries at that instant. */
  lemma {:induction false} EarliestLeaves(times: seq<int>, lo: int, t: int)
    requires lo < t && forall i :: 0 <= i < |times| && lo < times[i] ==> t <= times[i]
    ensures CountAfter(times, lo) == CountAt(times, t) + CountAfter(times, t)
  {
    if times != [] { EarliestLeaves(times[..|times| - 1], lo, t); }
  }

  /** A window split at its earliest instant and at `mid`: the entries at that instant, those up to `mid`, those after. */
  lemma {:induction false} EarliestSplits(times: seq<int>, lo: int, t: int, mid: int, hi: int)
    requires lo < t <= mid <= hi && forall i :: 0 <= i < |times| && lo < times[i] <= mid ==> t <= times[i]
    ensures CountIn(times, t, hi) == CountIn(times, lo, mid) - CountAt(times, t) + CountIn(times, mid, hi)
  {
    if times != [] { EarliestSplits(times[..|times| - 1], lo, t, mid, hi); }
  }

  lemma {:induction false} OccursAt(times: seq<int>, t: int)
    requires t in times
    ensures CountAt(times, t) > 0
  {
    var rest, last := times[..|times| - 1], times[|times| - 1];
    assert times == rest + [last];
    if last != t { OccursAt(rest, t); }
  }

  /**
   * A cap that fires now fires until its earliest entry leaves the window, and lifts at
   * that instant exactly when the entries at it are what holds the cap: without them
   * fewer than `limit` remain.
   */
  lemma CapLiftsIff(times: seq<int>, limit: nat, span: int, now: int, retry: int)
    requires limit > 0 && CountAfter(times, now - span) >= limit
    requires now <= retry <= EarliestAfter(times, now - span).value + span
    ensures var earliest := EarliestAfter(times, now - span).value;
            CountAfter(times, retry - span) < limit
            <==> retry == earliest + span && CountAfter(times, now - span) - CountAt(times, earliest) < limit
  {
    var earliest := EarliestAfter(times, now - span).value;
    if retry < earliest + span {
      CountAfterSteady(times, now - span, retry - span);
    } else {
      EarliestLeaves(times, now - span, earliest);
    }
  }

  /** Over a history the cap itself accepted, the entries at the earliest instant are what holds it. */
  lemma {:induction false} PacedIsTight(times: seq<int>, limit: nat, span: int, now: int)
    requires Paced(times, limit, span) && AllAtMost(times, now)
    requires CountAfter(times, now - span) >= limit > 0
    ensures CountAfter(times, now - span) - CountAt(times, EarliestAfter(times, now - span).value) < limit
  {
    OccursAt(times, EarliestAfter(times, now - span).value);
    CountAfterIsCountIn(times, now - span, now);
    NoWindowOverfull(times, limit, span, now);
  }

  /** So it lifts at exactly that instant. */
  lemma CapLiftsExactly(times: seq<int>, limit: nat, span: int, now: int, retry: int)
    requires limit > 0 && CountAfter(times, now - span) >= limit
    requires now <= retry <= EarliestAfter(times, now - span).value + span
    requires Paced(times, limit, span) && AllAtMost(times, now)
    ensures CountAfter(times, retry - span) < limit <==> retry == EarliestAfter(times, now - span).value + span
  {
    CapLiftsIff(times, limit, span, now, retry);
    PacedIsTight(times, limit, span, now);
  }
}
