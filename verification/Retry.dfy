/** Retrying with capped exponential backoff. Delays are real numbers of seconds. */
module Retry {
  import opened Wrappers

  // max_attempts is a 32-bit word, and so is the exponent, which is signed.
  const WORD: int := 0x1_0000_0000
  const MAX_EXPONENT: int := 0x7FFF_FFFF

  datatype RetryConfig = RetryConfig(maxAttempts: nat, initialDelay: real, maxDelay: real, multiplier: real,
    jitter: bool)

  function Power(m: real, k: nat): real {
    if k == 0 then 1.0 else m * Power(m, k - 1)
  }

  /** What `validate` accepts, for delays that are durations. */
  predicate Validated(c: RetryConfig) {
    c.maxAttempts < WORD && 0.0 <= c.initialDelay <= c.maxDelay && c.multiplier >= 1.0
  }

  function Exponent(attempt: nat): nat
    requires attempt > 0
  {
    if attempt - 1 <= MAX_EXPONENT then attempt - 1 else MAX_EXPONENT
  }

  /** The uncapped delay before an attempt. */
  function Base(c: RetryConfig, attempt: nat): real
    requires attempt > 0
  {
    c.initialDelay * Power(c.multiplier, Exponent(attempt))
  }

  /** The delay before an attempt; `factor` is the random draw from 0 up to 1 that jitter uses. */
  function DelayForAttempt(c: RetryConfig, attempt: nat, factor: real): real {
    if attempt == 0 then 0.0
    else
      var base := Base(c, attempt);
      var capped := if base < c.maxDelay then base else c.maxDelay;
      if c.jitter then capped * factor else capped
  }

  datatype Attempt<T, E> = Success(value: T) | Transient(error: E) | Permanent(error: E)

  datatype Outcome<T, E> = Returned(value: T) | GaveUp(error: E) | NoAttemptsMade

  /** How many calls the loop may make: the 32-bit sum wraps for the largest setting. */
  function CallLimit(c: RetryConfig): nat {
    (c.maxAttempts + 1) % WORD
  }

  /** The waits between `calls` calls. */
  function Delays(c: RetryConfig, calls: nat, factors: nat -> real): seq<real> {
    seq(if calls == 0 then 0 else calls - 1, i requires 0 <= i => DelayForAttempt(c, i + 1, factors(i + 1)))
  }

  function Sum(xs: seq<real>): real {
    if xs == [] then 0.0 else Sum(xs[..|xs| - 1]) + xs[|xs| - 1]
  }

  /** The loop. `results(i)` is what call `i` would give; `calls` says how many were made. */
  method WithRetry<T, E>(c: RetryConfig, results: nat -> Attempt<T, E>, factors: nat -> real)
    returns (outcome: Outcome<T, E>, calls: nat, slept: real)
    requires c.maxAttempts < WORD
    ensures calls <= CallLimit(c) && (calls == 0 <==> c.maxAttempts == WORD - 1)
    ensures forall i :: 0 <= i < calls - 1 ==> results(i).Transient?
    ensures calls > 0 ==>
      match results(calls - 1)
      case Success(value) => outcome == Returned(value)
      case Permanent(error) => outcome == GaveUp(error)
      case Transient(error) => outcome == GaveUp(error) && calls == c.maxAttempts + 1
    ensures calls == 0 ==> outcome == NoAttemptsMade
    ensures slept == Sum(Delays(c, calls, factors))
  {
    var maxAttempts := (c.maxAttempts + 1) % WORD;
    var lastError: Option<E> := None;
    calls, slept := 0, 0.0;
    for attempt := 0 to maxAttempts
      invariant calls == attempt && slept == Sum(Delays(c, calls, factors))
      invariant forall i :: 0 <= i < calls ==> results(i).Transient?
      invariant lastError == if calls == 0 then None else Some(results(calls - 1).error)
    {
      if attempt > 0 {
        slept := slept + DelayForAttempt(c, attempt, factors(attempt));
      }
      assert attempt > 0 ==> Delays(c, attempt + 1, factors)[..attempt - 1] == Delays(c, attempt, factors);
      var result := results(attempt);
      calls := calls + 1;
      match result {
        case Success(value) =>
          return Returned(value), calls, slept;
        case Permanent(error) =>
          return GaveUp(error), calls, slept;
        case Transient(error) =>
          lastError := Some(error);
      }
    }
    outcome := if lastError.Some? then GaveUp(lastError.value) else NoAttemptsMade;
  }

  lemma ProductGrows(a: real, b: real, c: real)
    requires 0.0 <= a && b <= c
    ensures a * b <= a * c
  {
  }

  lemma {:induction false} PowerGrows(m: real, j: nat, k: nat)
    requires m >= 1.0 && j <= k
    ensures 1.0 <= Power(m, j) <= Power(m, k)
    decreases k
  {
    if k > 0 {
      var p := Power(m, k - 1);
      PowerGrows(m, if j < k then j else j - 1, k - 1);
      ProductGrows(p, 1.0, m);
      assert m * p == p * m;
    }
  }

  lemma BaseGrows(c: RetryConfig, i: nat, j: nat)
    requires Validated(c) && 0 < i <= j
    ensures 0.0 <= Base(c, i) <= Base(c, j)
  {
    PowerGrows(c.multiplier, Exponent(i), Exponent(j));
    ProductGrows(c.initialDelay, 0.0, Power(c.multiplier, Exponent(i)));
    ProductGrows(c.initialDelay, Power(c.multiplier, Exponent(i)), Power(c.multiplier, Exponent(j)));
  }

  /** The first attempt is not delayed. Before the second the uncapped delay is the initial one, and each
      later one is the multiplier times the one before, as long as the exponent fits. */
  lemma BackoffIsExponential(c: RetryConfig, attempt: nat, f: real)
    ensures DelayForAttempt(c, 0, f) == 0.0
    ensures Base(c, 1) == c.initialDelay
    ensures 1 <= attempt <= 0x7FFF_FFFF ==> Base(c, attempt + 1) == Base(c, attempt) * c.multiplier
    ensures attempt > 0x7FFF_FFFF ==> Base(c, attempt + 1) == Base(c, attempt)
  {
    if 1 <= attempt <= 0x7FFF_FFFF {
      var p := Power(c.multiplier, attempt - 1);
      assert Power(c.multiplier, attempt) == c.multiplier * p;
      Regroup(c.initialDelay, c.multiplier, p);
    }
    assert Power(c.multiplier, 0) == 1.0;
  }

  lemma Regroup(a: real, b: real, c: real)
    ensures a * (b * c) == a * c * b
  {
  }

  /** A delay is the uncapped one or the maximum, whichever is less, scaled by the draw if there is jitter. */
  lemma DelayIsCapped(c: RetryConfig, attempt: nat, f: real)
    requires attempt > 0
    ensures !c.jitter && Base(c, attempt) <= c.maxDelay ==> DelayForAttempt(c, attempt, f) == Base(c, attempt)
    ensures !c.jitter && Base(c, attempt) >= c.maxDelay ==> DelayForAttempt(c, attempt, f) == c.maxDelay
    ensures c.jitter ==> DelayForAttempt(c, attempt, f) == DelayForAttempt(c.(jitter := false), attempt, f) * f
  {
    assert Base(c.(jitter := false), attempt) == Base(c, attempt);
  }

  /** Without jitter, a validated configuration never waits less for a later attempt. */
  lemma DelaysNondecreasing(c: RetryConfig, i: nat, j: nat, f: real, g: real)
    requires Validated(c) && !c.jitter && i <= j
    ensures DelayForAttempt(c, i, f) <= DelayForAttempt(c, j, g)
  {
    if i > 0 {
      BaseGrows(c, i, j);
    } else if j > 0 {
      BaseGrows(c, j, j);
    }
  }

  lemma DelayBounded(c: RetryConfig, attempt: nat, f: real)
    requires Validated(c) && 0.0 <= f <= 1.0
    ensures 0.0 <= DelayForAttempt(c, attempt, f) <= if attempt == 0 then 0.0 else c.maxDelay
  {
    if attempt > 0 {
      BaseGrows(c, attempt, attempt);
      var capped := if Base(c, attempt) < c.maxDelay then Base(c, attempt) else c.maxDelay;
      ProductGrows(capped, 0.0, f);
      ProductGrows(capped, f, 1.0);
    }
  }

  /** `n` waits of `d` each. */
  function Times(d: real, n: nat): real {
    if n == 0 then 0.0 else Times(d, n - 1) + d
  }

  lemma {:induction false} TimesIsProduct(d: real, n: nat)
    ensures Times(d, n) == n as real * d
  {
    if n > 0 {
      TimesIsProduct(d, n - 1);
      var m := n as real;
      assert (m - 1.0) * d + d == m * d;
    }
  }

  /** At most `m` waits of at most `d` each. */
  lemma {:induction false} SumBounded(xs: seq<real>, d: real, m: nat)
    requires |xs| <= m && 0.0 <= d && forall i :: 0 <= i < |xs| ==> 0.0 <= xs[i] <= d
    ensures 0.0 <= Sum(xs) <= Times(d, m)
    decreases m
  {
    if m > 0 {
      SumBounded(if xs == [] then [] else xs[..|xs| - 1], d, m - 1);
    }
  }

  lemma DelaysBounded(c: RetryConfig, calls: nat, factors: nat -> real)
    requires Validated(c) && forall i :: 0.0 <= factors(i) <= 1.0
    ensures forall i :: 0 <= i < |Delays(c, calls, factors)| ==> 0.0 <= Delays(c, calls, factors)[i] <= c.maxDelay
  {
    forall i | 0 <= i < |Delays(c, calls, factors)|
      ensures 0.0 <= Delays(c, calls, factors)[i] <= c.maxDelay
    {
      DelayBounded(c, i + 1, factors(i + 1));
    }
  }

  /** The whole operation sleeps at most `maxAttempts` maximal delays, with or without jitter. */
  lemma SleepBounded(c: RetryConfig, calls: nat, factors: nat -> real)
    requires Validated(c) && calls <= c.maxAttempts + 1 && forall i :: 0.0 <= factors(i) <= 1.0
    ensures 0.0 <= Sum(Delays(c, calls, factors)) <= c.maxAttempts as real * c.maxDelay
  {
    TimesIsProduct(c.maxDelay, c.maxAttempts);
    DelaysBounded(c, calls, factors);
    SumBounded(Delays(c, calls, factors), c.maxDelay, c.maxAttempts);
  }
}
