/** Capped geometric backoff, in exact arithmetic. Delays are in nanoseconds. */
module Backoff {

  const SECOND := 1_000_000_000

  /** The configured retry policy. */
  datatype RetryConfig = RetryConfig(initialDelay: int, maxDelay: int, multiplier: real, jitter: real)

  /** A policy with its defaults filled in. */
  datatype Plan = Plan(initial: real, cap: real, factor: real, jitter: real)

  predicate Sound(p: Plan) {
    p.initial > 0.0 && p.cap > 0.0 && p.factor >= 1.0 && p.jitter >= 0.0
  }

  /** Values out of range fall back to the defaults: one second, thirty seconds, two, and no jitter. */
  function Filled(retry: RetryConfig): (p: Plan)
    ensures Sound(p)
  {
    Plan(if retry.initialDelay > 0 then retry.initialDelay as real else SECOND as real,
         if retry.maxDelay > 0 then retry.maxDelay as real else (30 * SECOND) as real,
         if retry.multiplier >= 1.0 then retry.multiplier else 2.0,
         if retry.jitter > 0.0 then retry.jitter else 0.0)
  }

  function Min(a: real, b: real): real {
    if a <= b then a else b
  }

  function Power(m: real, n: nat): real {
    if n == 0 then 1.0 else m * Power(m, n - 1)
  }

  /** How often the delay has been multiplied when attempt `attempt` fails. */
  function Exponent(attempt: int): nat {
    if attempt < 1 then 0 else attempt - 1
  }

  function Capped(cap: real, initial: real, power: real): real {
    Min(cap, initial * power)
  }

  /** The delay after failed attempt `attempt`, before jitter. */
  function Base(p: Plan, attempt: int): real {
    Capped(p.cap, p.initial, Power(p.factor, Exponent(attempt)))
  }

  function AddJitter(base: real, share: real, random: real): real {
    base + share * random
  }

  function Jittered(p: Plan, attempt: int, random: real): real {
    AddJitter(Base(p, attempt), Base(p, attempt) * p.jitter, random)
  }

  /** computeRetryDelay; `random` is in [0, 1). */
  function RetryDelay(retry: RetryConfig, attempt: int, random: real): real {
    Jittered(Filled(retry), attempt, random)
  }

  // ---------------------------------------------------------------- step by step

  /** Multiply and cap. */
  function Step(cap: real, delay: real, factor: real): real {
    Min(cap, delay * factor)
  }

  function Stepwise(p: Plan, n: nat): real {
    if n == 0 then Min(p.cap, p.initial) else Step(p.cap, Stepwise(p, n - 1), p.factor)
  }

  lemma Grow(x: real, m: real)
    requires x >= 0.0 && m >= 1.0
    ensures m * x >= x && x * m >= x
  {
    assert (m - 1.0) * x >= 0.0;
  }

  lemma {:induction false} PowerAtLeastOne(m: real, n: nat)
    requires m >= 1.0
    ensures Power(m, n) >= 1.0
  {
    if n > 0 {
      PowerAtLeastOne(m, n - 1);
      Grow(Power(m, n - 1), m);
    }
  }

  /** One more multiplication of a delay `x` and of its capped value. */
  lemma CapOnce(cap: real, x: real, m: real)
    requires cap > 0.0 && x >= 0.0 && m >= 1.0
    ensures Min(cap, Min(cap, x) * m) == Min(cap, x * m)
  {
    Grow(cap, m);
    if x > cap {
      assert (x - cap) * m >= 0.0;
    }
  }

  lemma CapTwice(cap: real, a: real, m: real, q: real)
    requires cap > 0.0 && a > 0.0 && m >= 1.0 && q >= 1.0
    ensures Step(cap, Capped(cap, a, q), m) == Capped(cap, a, m * q)
  {
    Grow(a, q);
    CapOnce(cap, a * q, m);
    assert a * (m * q) == a * q * m;
  }

  /** The closed form takes the same step. */
  lemma ClosedStep(p: Plan, n: nat)
    requires Sound(p)
    ensures Base(p, n + 2) == Step(p.cap, Base(p, n + 1), p.factor)
  {
    var q := Power(p.factor, n);
    PowerAtLeastOne(p.factor, n);
    CapTwice(p.cap, p.initial, p.factor, q);
    assert Power(p.factor, n + 1) == p.factor * q;
  }

  /** The closed form is multiply-and-cap iterated. */
  lemma {:induction false} ClosedFormIsStepwise(p: Plan, n: nat)
    requires Sound(p)
    ensures Stepwise(p, n) == Base(p, n + 1)
  {
    if n == 0 {
      assert Power(p.factor, 0) == 1.0;
    } else {
      ClosedFormIsStepwise(p, n - 1);
      ClosedStep(p, n - 1);
    }
  }

  // ---------------------------------------------------------------- monotone and bounded

  lemma StepUp(cap: real, x: real, m: real)
    requires 0.0 <= x <= cap && m >= 1.0
    ensures x <= Step(cap, x, m) <= cap
  {
    Grow(x, m);
  }

  lemma {:induction false} StepwiseBounds(p: Plan, n: nat)
    requires Sound(p)
    ensures Min(p.cap, p.initial) <= Stepwise(p, n) <= p.cap
  {
    if n > 0 {
      StepwiseBounds(p, n - 1);
      StepUp(p.cap, Stepwise(p, n - 1), p.factor);
    }
  }

  lemma {:induction false} StepwiseMonotone(p: Plan, i: nat, j: nat)
    requires Sound(p) && i <= j
    ensures Stepwise(p, i) <= Stepwise(p, j)
    decreases j
  {
    if i < j {
      StepwiseMonotone(p, i, j - 1);
      StepwiseBounds(p, j - 1);
      StepUp(p.cap, Stepwise(p, j - 1), p.factor);
    }
  }

  lemma BaseMonotone(p: Plan, i: int, j: int)
    requires Sound(p) && i <= j
    ensures Base(p, i) <= Base(p, j)
  {
    StepwiseMonotone(p, Exponent(i), Exponent(j));
    ClosedFormIsStepwise(p, Exponent(i));
    ClosedFormIsStepwise(p, Exponent(j));
  }

  lemma BaseBounds(p: Plan, attempt: int)
    requires Sound(p)
    ensures Min(p.cap, p.initial) <= Base(p, attempt) <= p.cap
  {
    StepwiseBounds(p, Exponent(attempt));
    ClosedFormIsStepwise(p, Exponent(attempt));
  }

  lemma JitterBounds(base: real, share: real, random: real)
    requires share >= 0.0 && 0.0 <= random < 1.0
    ensures base <= AddJitter(base, share, random) <= base + share
  {
    var rest := 1.0 - random;
    Nonnegative(share, random);
    Nonnegative(share, rest);
    assert share * random + share * rest == share * (random + rest);
  }

  lemma Nonnegative(x: real, y: real)
    requires x >= 0.0 && y >= 0.0
    ensures x * y >= 0.0
  {
  }

  /** A delay with the whole of its jitter: `base * (1 + jitter)`. */
  function Stretched(base: real, jitter: real): real {
    base + base * jitter
  }

  lemma StretchedMonotone(base: real, cap: real, jitter: real)
    requires 0.0 <= base <= cap && jitter >= 0.0
    ensures base * jitter >= 0.0 && Stretched(base, jitter) <= Stretched(cap, jitter)
  {
    assert (cap - base) * jitter >= 0.0;
  }

  /** Jitter only lengthens the delay, and by no more than its share of the cap. */
  lemma DelayBounds(p: Plan, attempt: int, random: real)
    requires Sound(p) && 0.0 <= random < 1.0
    ensures Min(p.cap, p.initial) <= Base(p, attempt) <= Jittered(p, attempt, random) <= Stretched(p.cap, p.jitter)
  {
    BaseBounds(p, attempt);
    var base := Base(p, attempt);
    StretchedMonotone(base, p.cap, p.jitter);
    JitterBounds(base, base * p.jitter, random);
  }

  /** The sum of the delays after attempts 1, 2, ..., one for each element of `random`. */
  function TotalDelay(p: Plan, random: seq<real>): real {
    if random == [] then 0.0
    else TotalDelay(p, random[..|random| - 1]) + Jittered(p, |random|, random[|random| - 1])
  }

  function Times(n: nat, x: real): real {
    n as real * x
  }

  lemma OneMore(n: nat, bound: real)
    ensures Times(n + 1, bound) == Times(n, bound) + bound
  {
    var k := n as real;
    assert (n + 1) as real == k + 1.0;
    assert (k + 1.0) * bound == k * bound + bound;
  }

  /** A phase of `maxAttempts` attempts waits at most `maxAttempts - 1` times, each time at most the jittered cap. */
  lemma {:induction false} TotalDelayBound(p: Plan, random: seq<real>)
    requires Sound(p) && forall i :: 0 <= i < |random| ==> 0.0 <= random[i] < 1.0
    ensures TotalDelay(p, random) <= Times(|random|, Stretched(p.cap, p.jitter))
  {
    if random != [] {
      var n := |random| - 1;
      TotalDelayBound(p, random[..n]);
      DelayBounds(p, n + 1, random[n]);
      OneMore(n, Stretched(p.cap, p.jitter));
    }
  }

  // ---------------------------------------------------------------- computeRetryDelay

  /** The configured values, or the defaults where they are out of range. */
  function InitialOf(retry: RetryConfig): real {
    if retry.initialDelay <= 0 then 1_000_000_000.0 else retry.initialDelay as real
  }

  function CapOf(retry: RetryConfig): real {
    if retry.maxDelay <= 0 then 30_000_000_000.0 else retry.maxDelay as real
  }

  function FactorOf(retry: RetryConfig): real {
    if retry.multiplier < 1.0 then 2.0 else retry.multiplier
  }

  function JitterOf(retry: RetryConfig): real {
    if retry.jitter <= 0.0 then 0.0 else retry.jitter
  }

  function PlanOf(retry: RetryConfig): (p: Plan)
    ensures Sound(p) && p == Filled(retry)
  {
    Plan(InitialOf(retry), CapOf(retry), FactorOf(retry), JitterOf(retry))
  }

  lemma NoJitter(p: Plan, attempt: int)
    ensures Jittered(p, attempt, 0.0) == Base(p, attempt)
  {
    assert AddJitter(Base(p, attempt), Base(p, attempt) * p.jitter, 0.0) == Base(p, attempt);
  }

  lemma PlainDelay(retry: RetryConfig, attempt: int)
    ensures RetryDelay(retry, attempt, 0.0) == Base(PlanOf(retry), attempt)
  {
    NoJitter(PlanOf(retry), attempt);
  }

  /**
   * The delay is determined by the configuration. The first one is the initial delay, cut off at the cap; an attempt
   * below one counts as one.
   */
  lemma FirstRetryDelay(retry: RetryConfig, attempt: int)
    requires attempt <= 1
    ensures RetryDelay(retry, attempt, 0.0) == Min(CapOf(retry), InitialOf(retry))
  {
    PlainDelay(retry, attempt);
    assert Power(FactorOf(retry), 0) == 1.0;
  }

  /** Each further one is the previous one times the multiplier, cut off at the cap. */
  lemma NextRetryDelay(retry: RetryConfig, attempt: int)
    requires attempt >= 1
    ensures RetryDelay(retry, attempt + 1, 0.0) == Step(CapOf(retry), RetryDelay(retry, attempt, 0.0), FactorOf(retry))
  {
    PlainDelay(retry, attempt);
    PlainDelay(retry, attempt + 1);
    ClosedStep(PlanOf(retry), attempt - 1);
  }

  /** Jitter adds its random share. */
  lemma RetryDelayJitter(retry: RetryConfig, attempt: int, random: real)
    ensures var delay := RetryDelay(retry, attempt, 0.0);
      RetryDelay(retry, attempt, random) == AddJitter(delay, delay * JitterOf(retry), random)
  {
    PlainDelay(retry, attempt);
    assert Filled(retry) == PlanOf(retry);
  }

  /** It lies between the smaller of the initial delay and the cap, and the cap with all of its jitter. */
  lemma RetryDelayBounds(retry: RetryConfig, attempt: int, random: real)
    requires 0.0 <= random < 1.0
    ensures Min(CapOf(retry), InitialOf(retry)) <= RetryDelay(retry, attempt, random)
    ensures RetryDelay(retry, attempt, random) <= Stretched(CapOf(retry), JitterOf(retry))
  {
    assert Filled(retry) == PlanOf(retry);
    DelayBounds(PlanOf(retry), attempt, random);
  }

  /** It never shrinks from one attempt to a later one, jitter aside. */
  lemma RetryDelayMonotone(retry: RetryConfig, i: int, j: int)
    requires i <= j
    ensures RetryDelay(retry, i, 0.0) <= RetryDelay(retry, j, 0.0)
  {
    PlainDelay(retry, i);
    PlainDelay(retry, j);
    BaseMonotone(PlanOf(retry), i, j);
  }

  /** The sum of what it returns after attempts 1, 2, ... */
  function TotalRetryDelay(retry: RetryConfig, random: seq<real>): real {
    if random == [] then 0.0
    else TotalRetryDelay(retry, random[..|random| - 1]) + RetryDelay(retry, |random|, random[|random| - 1])
  }

  lemma {:induction false} TotalIsPlanned(retry: RetryConfig, random: seq<real>)
    ensures TotalRetryDelay(retry, random) == TotalDelay(PlanOf(retry), random)
  {
    if random != [] {
      TotalIsPlanned(retry, random[..|random| - 1]);
      assert Filled(retry) == PlanOf(retry);
    }
  }

  /** A phase that waits `n` times waits at most `n` times the cap with all of its jitter. */
  lemma TotalRetryDelayBound(retry: RetryConfig, random: seq<real>)
    requires forall i :: 0 <= i < |random| ==> 0.0 <= random[i] < 1.0
    ensures TotalRetryDelay(retry, random) <= Times(|random|, Stretched(CapOf(retry), JitterOf(retry)))
  {
    TotalIsPlanned(retry, random);
    TotalDelayBound(PlanOf(retry), random);
  }

  // ---------------------------------------------------------------- the client's interval

  const CLIENT_INITIAL := SECOND
  const CLIENT_MAX := 60 * SECOND
  const CLIENT := Plan(CLIENT_INITIAL as real, CLIENT_MAX as real, 2.0, 0.0)

  /** The interval of backgroundReconnect after `rounds` failed rounds: the same backoff, with factor two. */
  method ClientInterval(rounds: nat) returns (interval: int)
    ensures interval as real == Base(CLIENT, rounds + 1)
    ensures CLIENT_INITIAL <= interval <= CLIENT_MAX
  {
    interval := CLIENT_INITIAL;
    for round := 0 to rounds
      invariant interval as real == Stepwise(CLIENT, round) && CLIENT_INITIAL <= interval <= CLIENT_MAX
    {
      if interval < CLIENT_MAX {
        interval := interval * 2;
        if interval > CLIENT_MAX {
          interval := CLIENT_MAX;
        }
      }
    }
    ClosedFormIsStepwise(CLIENT, rounds);
  }
}
