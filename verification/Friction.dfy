/** The sliding-window rate rules of `packages/communication/src/friction.ts`. */
module Friction {
  import opened Core
  import opened Window

  datatype RateRule = RateRule(limit: nat, windowMs: nat)

  const PER_CONVERSATION_RATE_RULE := RateRule(20, 60_000)
  const NEW_CONVERSATION_RATE_RULE := RateRule(10, 3_600_000)

  datatype RateVerdict = RateVerdict(used: nat, remaining: nat)

  datatype RateLimit = RateLimit(used: nat, retryAfterMs: nat)

  function Max(a: int, b: int): int {
    if a >= b then a else b
  }

  function EvaluateRateRule(rule: RateRule, attempts: seq<int>, now: int): Result<RateVerdict, RateLimit> {
    var used := CountIn(attempts, now - rule.windowMs, now);
    if used >= rule.limit then
      var oldest := EarliestIn(attempts, now - rule.windowMs, now);
      var since := if oldest == None then now else oldest.value;
      Err(RateLimit(used, Max(0, since + rule.windowMs - now)))
    else Ok(RateVerdict(used, rule.limit - used))
  }

  /** The places of a history that lie in the rule's window. */
  function InWindow(rule: RateRule, attempts: seq<int>, now: int): set<int> {
    set i | 0 <= i < |attempts| && now - rule.windowMs < attempts[i] <= now
  }

  /** Admitted exactly while fewer than the limit lie in the window, and then told how many are left. */
  lemma AdmittedExactly(rule: RateRule, attempts: seq<int>, now: int)
    ensures var r, used := EvaluateRateRule(rule, attempts, now), |InWindow(rule, attempts, now)|;
            (r.Ok? <==> used < rule.limit)
            && (r.Ok? ==> r.value == RateVerdict(used, rule.limit - used))
            && (r.Err? ==> r.error.used == used)
  {
    CountInIs(attempts, now - rule.windowMs, now);
  }

  /** Every retry before `retryAfterMs` has passed is refused by the same rule. */
  lemma EarlyRetriesRefused(rule: RateRule, attempts: seq<int>, now: int, retry: int)
    requires EvaluateRateRule(rule, attempts, now).Err?
    requires now <= retry < now + EvaluateRateRule(rule, attempts, now).error.retryAfterMs
    ensures EvaluateRateRule(rule, attempts, retry).Err?
  {
    var oldest := EarliestIn(attempts, now - rule.windowMs, now);
    ShiftedWindow(rule, attempts, now, retry);
  }

  lemma {:induction false} ShiftedWindow(rule: RateRule, attempts: seq<int>, now: int, retry: int)
    requires now <= retry
    requires forall i :: 0 <= i < |attempts| && now - rule.windowMs < attempts[i] <= now ==> retry < attempts[i] + rule.windowMs
    ensures CountIn(attempts, now - rule.windowMs, now) <= CountIn(attempts, retry - rule.windowMs, retry)
  {
    if attempts != [] {
      ShiftedWindow(rule, attempts[..|attempts| - 1], now, retry);
    }
  }

  lemma {:induction false} RefusalIs(rule: RateRule, sends: seq<int>, now: int, used: nat, oldest: int)
    requires used == CountIn(sends, now - rule.windowMs, now) >= rule.limit && EarliestIn(sends, now - rule.windowMs, now) == Some(oldest)
    ensures EvaluateRateRule(rule, sends, now) == Err(RateLimit(used, oldest + rule.windowMs - now))
  {
  }

  lemma {:induction false} AdmittedIff(rule: RateRule, attempts: seq<int>, at: int, since: int)
    requires since == at - rule.windowMs
    ensures EvaluateRateRule(rule, attempts, at).Ok? <==> CountIn(attempts, since, at) < rule.limit
  {
  }

  /** The instant a refusal names. */
  function PromisedAt(rule: RateRule, attempts: seq<int>, now: int): int
    requires EvaluateRateRule(rule, attempts, now).Err?
  {
    now + EvaluateRateRule(rule, attempts, now).error.retryAfterMs
  }

  /**
   * The retry at the promised instant is admitted exactly when the attempts counted by
   * the refusal, less those at the oldest instant, plus those the history names for the
   * meantime, are fewer than `limit`. So the promise fails for a history held above the
   * limit, for one naming future attempts, and for a limit of zero.
   */
  lemma {:induction false} PromisedRetryAdmittedIff(rule: RateRule, attempts: seq<int>, now: int)
    requires EvaluateRateRule(rule, attempts, now).Err?
    ensures
      var used, at := EvaluateRateRule(rule, attempts, now).error.used, PromisedAt(rule, attempts, now);
      var oldest := EarliestIn(attempts, now - rule.windowMs, now);
      EvaluateRateRule(rule, attempts, at).Ok? <==>
        oldest.Some? && used - CountAt(attempts, oldest.value) + CountIn(attempts, now, at) < rule.limit
  {
    var oldest := EarliestIn(attempts, now - rule.windowMs, now);
    var used := CountIn(attempts, now - rule.windowMs, now);
    if oldest.Some? {
      RefusalIs(rule, attempts, now, used, oldest.value);
      EarliestSplits(attempts, now - rule.windowMs, oldest.value, now, oldest.value + rule.windowMs);
      AdmittedIff(rule, attempts, oldest.value + rule.windowMs, oldest.value);
    }
  }

  lemma {:induction false} NothingLater(sends: seq<int>, now: int, at: int)
    requires AllAtMost(sends, now)
    ensures CountIn(sends, now, at) == 0
  {
    if sends != [] { NothingLater(sends[..|sends| - 1], now, at); }
  }

  /** Over a history this rule itself accepted, the promise is exact. */
  lemma {:induction false} PromisedRetryAdmitted(rule: RateRule, sends: seq<int>, now: int)
    requires rule.limit > 0 && Paced(sends, rule.limit, rule.windowMs)
    requires AllAtMost(sends, now)
    requires EvaluateRateRule(rule, sends, now).Err?
    ensures EvaluateRateRule(rule, sends, PromisedAt(rule, sends, now)).Ok?
    ensures EvaluateRateRule(rule, sends, now).error.used == rule.limit
  {
    NoWindowOverfull(sends, rule.limit, rule.windowMs, now);
    OccursAt(sends, EarliestIn(sends, now - rule.windowMs, now).value);
    NothingLater(sends, now, PromisedAt(rule, sends, now));
    PromisedRetryAdmittedIff(rule, sends, now);
  }

  /** A rule held to its limit twice over promises a retry that is refused again. */
  lemma OverfullHistoryBreaksThePromise()
    ensures var rule, attempts := RateRule(1, 10), [0, 5];
            EvaluateRateRule(rule, attempts, 5) == Err(RateLimit(2, 5))
            && EvaluateRateRule(rule, attempts, 10) == Err(RateLimit(1, 5))
  {
    assert [0, 5][..1] == [0];
    assert [0][..0] == [];
  }
}
