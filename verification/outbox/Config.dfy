/** The worker's configuration: defaults, the lease check and the retry pause (outbox/worker.go). */
module OutboxConfig {
  import opened Durations
  import opened Products

  /** Durations are nanoseconds. */
  datatype Config = Config(
    pollInterval: int,
    batchSize: int,
    concurrency: int,
    visibilityTimeout: int,
    sendTimeout: int,
    baseBackoff: int,
    maxBackoff: int,
    conflictBackoff: int,
    failedRetention: int,
    cleanupInterval: int)

  function OrDefault(value: int, default: int): int {
    if value <= 0 then default else value
  }

  function WithDefaults(c: Config): Config {
    Config(
      OrDefault(c.pollInterval, 2 * SECOND),
      OrDefault(c.batchSize, 20),
      OrDefault(c.concurrency, 8),
      OrDefault(c.visibilityTimeout, 120 * SECOND),
      OrDefault(c.sendTimeout, 30 * SECOND),
      OrDefault(c.baseBackoff, 30 * SECOND),
      OrDefault(c.maxBackoff, 1800 * SECOND),
      OrDefault(c.conflictBackoff, 15 * SECOND),
      OrDefault(c.failedRetention, 7 * 24 * 3600 * SECOND),
      OrDefault(c.cleanupInterval, 3600 * SECOND))
  }

  /** Every duration fits the int32 count of seconds it is stored as. */
  predicate InRange(c: Config) {
    && c.batchSize < 0x8000_0000
    && c.concurrency < TWO_63
    && c.visibilityTimeout < 0x8000_0000 * SECOND
    && c.sendTimeout < TWO_63
    && c.baseBackoff < 0x8000_0000 * SECOND
    && c.maxBackoff < 0x8000_0000 * SECOND
    && c.conflictBackoff < 0x8000_0000 * SECOND
    && c.failedRetention < 0x8000_0000 * SECOND
  }

  /** What `withDefaults` leaves behind. */
  predicate Positive(c: Config) {
    && 0 < c.pollInterval
    && 0 < c.batchSize
    && 0 < c.concurrency
    && 0 < c.visibilityTimeout
    && 0 < c.sendTimeout
    && 0 < c.baseBackoff
    && 0 < c.maxBackoff
    && 0 < c.conflictBackoff
    && 0 < c.failedRetention
    && 0 < c.cleanupInterval
  }

  /** After the defaults every field is positive, and a positive configuration is left alone. */
  lemma WithDefaultsPositive(c: Config)
    ensures Positive(WithDefaults(c))
    ensures Positive(c) <==> WithDefaults(c) == c
  {
  }

  /** Each setting that is positive is kept on its own, and each that is not takes its own default. */
  lemma DefaultsOneByOne(c: Config)
    ensures var d := WithDefaults(c);
            && d.pollInterval == (if c.pollInterval > 0 then c.pollInterval else 2_000_000_000)
            && d.batchSize == (if c.batchSize > 0 then c.batchSize else 20)
            && d.concurrency == (if c.concurrency > 0 then c.concurrency else 8)
            && d.visibilityTimeout == (if c.visibilityTimeout > 0 then c.visibilityTimeout else 120_000_000_000)
            && d.sendTimeout == (if c.sendTimeout > 0 then c.sendTimeout else 30_000_000_000)
            && d.baseBackoff == (if c.baseBackoff > 0 then c.baseBackoff else 30_000_000_000)
            && d.maxBackoff == (if c.maxBackoff > 0 then c.maxBackoff else 1_800_000_000_000)
            && d.conflictBackoff == (if c.conflictBackoff > 0 then c.conflictBackoff else 15_000_000_000)
            && d.failedRetention == (if c.failedRetention > 0 then c.failedRetention else 604_800_000_000_000)
            && d.cleanupInterval == (if c.cleanupInterval > 0 then c.cleanupInterval else 3_600_000_000_000)
  {
  }

  // ---- The lease check ----

  /** The number of waves as `validate` computes it, in int64 arithmetic. */
  function ComputedWaves(c: Config): int
    requires 0 < c.concurrency
  {
    TruncDiv(Wrap64(Wrap64(c.batchSize + c.concurrency) - 1), c.concurrency)
  }

  /** `validate`: the configuration is refused when the computed need exceeds the visibility timeout. */
  predicate Accepts(c: Config)
    requires 0 < c.concurrency
  {
    Wrap64(ComputedWaves(c) * c.sendTimeout) <= c.visibilityTimeout
  }

  /** The true number of waves: the least w with w * concurrency >= n. */
  function CeilDiv(n: int, c: int): (w: int)
    requires 0 <= n && 0 < c
    ensures 0 <= w
    ensures (w - 1) * c < n <= w * c
  {
    (n + c - 1) / c
  }

  lemma CeilDivMonotone(m: int, n: int, c: int)
    requires 0 <= m <= n && 0 < c
    ensures CeilDiv(m, c) <= CeilDiv(n, c)
  {
    var a, b := CeilDiv(m, c), CeilDiv(n, c);
    if a > b {
      assert b * c <= (a - 1) * c by {
        MulMonotone(b, a - 1, c);
      }
    }
  }

  /** The longest a worker may hold a message of a full batch. */
  function Hold(c: Config): int
    requires Positive(c)
  {
    CeilDiv(c.batchSize, c.concurrency) * c.sendTimeout
  }

  /** The lease a claim writes into the row. */
  function Lease(c: Config): int {
    Stored(c.visibilityTimeout)
  }

  /** Both int64 results of `validate` are exact. */
  predicate NoOverflow(c: Config)
    requires Positive(c)
  {
    && c.batchSize + c.concurrency < TWO_63
    && Hold(c) < TWO_63
  }

  /**
   Within the no-overflow bound `validate` accepts exactly the configurations whose visibility
   timeout covers the longest hold of a batch, and what it accepts covers every smaller batch too.
   */
  lemma AcceptsExact(c: Config, n: nat)
    requires Positive(c) && InRange(c) && NoOverflow(c) && n <= c.batchSize
    ensures Accepts(c) <==> Hold(c) <= c.visibilityTimeout
    ensures Accepts(c) ==> CeilDiv(n, c.concurrency) * c.sendTimeout <= c.visibilityTimeout
  {
    CeilDivMonotone(n, c.batchSize, c.concurrency);
    MulMonotone(CeilDiv(n, c.concurrency), CeilDiv(c.batchSize, c.concurrency), c.sendTimeout);
  }

  /** Past the bound the product wraps: a hold of 2^64 ns passes against a one-second lease. */
  lemma AcceptsOverflow() returns (c: Config)
    ensures Positive(c) && InRange(c) && !NoOverflow(c)
    ensures Accepts(c) && Hold(c) > c.visibilityTimeout
  {
    c := WithDefaults(Config(0, 4, 1, SECOND, TWO_62, 0, 0, 0, 0, 0));
    assert CeilDiv(4, 1) == 4;
    assert Wrap64(4 * TWO_62) == 0;
  }

  /**
   Exactly when an acceptance can be relied on: the hold fits an int64 or, where even batch plus slots does not,
   the one wave that remains fits the timeout.
   */
  lemma AcceptanceCoversIff(c: Config)
    requires Positive(c) && InRange(c) && Accepts(c)
    ensures Hold(c) <= c.visibilityTimeout <==>
            if c.batchSize + c.concurrency < TWO_63 then Hold(c) < TWO_63 else c.sendTimeout <= c.visibilityTimeout
  {
    if c.batchSize + c.concurrency < TWO_63 {
      if Hold(c) < TWO_63 {
        AcceptsExact(c, 0);
      }
    } else {
      OneWaveFits(c.batchSize, c.concurrency);
    }
  }

  lemma OneWaveFits(n: int, c: int)
    requires 0 < n <= c
    ensures CeilDiv(n, c) == 1
  {
    if CeilDiv(n, c) > 1 {
      MulMonotone(1, CeilDiv(n, c) - 1, c);
    }
  }

  // ---- The retry pause ----

  function Pow2(n: nat): (p: int)
    ensures 1 <= p
  {
    if n == 0 then 1 else 2 * Pow2(n - 1)
  }

  /** `rounds` doublings in int64, left as soon as the cap is reached. */
  function Doubled(backoff: int, cap: int, rounds: nat): int
    decreases rounds
  {
    if rounds == 0 then backoff
    else
      var next := Wrap64(backoff * 2);
      if next >= cap then cap else Doubled(next, cap, rounds - 1)
  }

  function Backoff(c: Config, attempts: int): int {
    Doubled(c.baseBackoff, c.maxBackoff, if attempts <= 1 then 0 else attempts - 1)
  }

  /** The doubling loop of `backoffFor`. */
  method BackoffFor(c: Config, attempts: int) returns (backoff: int)
    ensures backoff == Backoff(c, attempts)
  {
    backoff := c.baseBackoff;
    var rounds := if attempts - 1 > 0 then attempts - 1 else 0;
    for i := 0 to rounds
      invariant Doubled(backoff, c.maxBackoff, rounds - i) == Backoff(c, attempts)
    {
      backoff := Wrap64(backoff * 2);
      if backoff >= c.maxBackoff {
        return c.maxBackoff;
      }
    }
  }

  lemma {:induction false} DoubledClosedForm(backoff: int, cap: int, rounds: nat)
    requires 0 < backoff < TWO_62 && 0 < cap <= TWO_62
    ensures Doubled(backoff, cap, rounds) == if rounds == 0 then backoff else Min(backoff * Pow2(rounds), cap)
    decreases rounds
  {
    if rounds != 0 {
      var next := backoff * 2;
      assert backoff * Pow2(rounds) == next * Pow2(rounds - 1);
      if next >= cap {
        MulMonotone(1, Pow2(rounds - 1), next);
      } else {
        DoubledClosedForm(next, cap, rounds - 1);
      }
    }
  }

  /** The pause meant: the base, doubled for every attempt after the first, capped from the second on. */
  function Pause(base: int, cap: int, attempts: int): int {
    if attempts <= 1 then base else Min(base * Pow2(attempts - 1), cap)
  }

  lemma BackoffClosedForm(c: Config, attempts: int)
    requires 0 < c.baseBackoff < TWO_62 && 0 < c.maxBackoff <= TWO_62
    ensures Backoff(c, attempts) == Pause(c.baseBackoff, c.maxBackoff, attempts)
  {
    DoubledClosedForm(c.baseBackoff, c.maxBackoff, if attempts <= 1 then 0 else attempts - 1);
  }

  lemma {:induction false} Pow2Monotone(a: nat, b: nat)
    requires a <= b
    ensures Pow2(a) <= Pow2(b)
    decreases b
  {
    if a < b {
      Pow2Monotone(a, b - 1);
    }
  }

  lemma PauseMonotone(base: int, cap: int, a: int, b: int)
    requires 0 < base <= cap && a <= b
    ensures Pause(base, cap, a) <= Pause(base, cap, b)
  {
    if 1 < b {
      if 1 < a {
        Pow2Monotone(a - 1, b - 1);
        MulMonotone(Pow2(a - 1), Pow2(b - 1), base);
      } else {
        MulMonotone(1, Pow2(b - 1), base);
      }
    }
  }

  /** With base <= cap, more attempts never shorten the pause, neither the computed nor the stored one. */
  lemma BackoffMonotone(c: Config, a: int, b: int)
    requires 0 < c.baseBackoff <= c.maxBackoff <= TWO_62 && c.baseBackoff < TWO_62 && a <= b
    ensures Backoff(c, a) <= Backoff(c, b)
    ensures Stored(Backoff(c, a)) <= Stored(Backoff(c, b))
  {
    assert Backoff(c, a) <= Backoff(c, b) by {
      BackoffClosedForm(c, a);
      BackoffClosedForm(c, b);
      PauseMonotone(c.baseBackoff, c.maxBackoff, a, b);
    }
    StoredMonotone(Backoff(c, a), Backoff(c, b));
  }

  /** MaxBackoff caps every pause exactly when it is at least BaseBackoff, which `validate` never checks. */
  lemma BackoffCappedIff(c: Config)
    requires 0 < c.baseBackoff < TWO_62 && 0 < c.maxBackoff <= TWO_62
    ensures (forall n :: Backoff(c, n) <= c.maxBackoff) <==> c.baseBackoff <= c.maxBackoff
  {
    forall n ensures Backoff(c, n) <= c.maxBackoff || (n <= 1 && Backoff(c, n) == c.baseBackoff) {
      BackoffClosedForm(c, n);
    }
    BackoffClosedForm(c, 1);
  }

  /** The shortest pause any verdict can store: over every attempt count, and over conflicts. */
  function ShortestDelay(c: Config): int {
    Stored(Min(c.conflictBackoff, Min(c.baseBackoff, c.maxBackoff)))
  }

  /** A pause is never shorter than its base or its cap, and the first two attempts reach the shorter of them. */
  lemma PauseAtLeast(base: int, cap: int, attempts: int)
    requires 0 < base && 0 < cap
    ensures Min(base, cap) <= Pause(base, cap, attempts)
    ensures Pause(base, cap, 1) == base && (cap < base ==> Pause(base, cap, 2) == cap)
  {
    if 1 < attempts {
      MulMonotone(1, Pow2(attempts - 1), base);
    }
    assert Pow2(1) == 2 * Pow2(0);
    assert base * Pow2(1) == 2 * base;
  }

  lemma PausesInRange(c: Config, attempts: int)
    requires Positive(c) && InRange(c)
    ensures Backoff(c, attempts) == Pause(c.baseBackoff, c.maxBackoff, attempts)
    ensures Min(c.baseBackoff, c.maxBackoff) <= Backoff(c, attempts)
  {
    BackoffClosedForm(c, attempts);
    PauseAtLeast(c.baseBackoff, c.maxBackoff, attempts);
  }

  /** No verdict stores less, and some verdict of the first two attempts stores exactly this. */
  lemma ShortestDelayExact(c: Config, attempts: int)
    requires Positive(c) && InRange(c)
    ensures ShortestDelay(c) <= Stored(c.conflictBackoff)
    ensures ShortestDelay(c) <= Stored(Backoff(c, attempts))
    ensures ShortestDelay(c) in
            {Stored(c.conflictBackoff), Stored(Backoff(c, 1)), Stored(Backoff(c, 2))}
    ensures 0 <= ShortestDelay(c)
  {
    var least := Min(c.conflictBackoff, Min(c.baseBackoff, c.maxBackoff));
    PausesInRange(c, attempts);
    PausesInRange(c, 1);
    PausesInRange(c, 2);
    PauseAtLeast(c.baseBackoff, c.maxBackoff, 1);
    StoredMonotone(least, c.conflictBackoff);
    StoredMonotone(least, Backoff(c, attempts));
    assert least in {c.conflictBackoff, Backoff(c, 1), Backoff(c, 2)};
  }

  /** The first attempt at which some verdict stores the shortest pause. */
  function FirstShortest(c: Config): nat {
    if ShortestDelay(c) == Stored(c.conflictBackoff) || ShortestDelay(c) == Stored(Backoff(c, 1)) then 1 else 2
  }

  /** The shortest pause a verdict can store from the k-th attempt on, the first one left aside. */
  function ShortestFrom(c: Config, k: int): int {
    Stored(Min(c.conflictBackoff, Backoff(c, k)))
  }

  /** From the second attempt on the pause only grows, whatever the base and the cap. */
  lemma PauseGrows(base: int, cap: int, a: int, b: int)
    requires 0 < base && 0 < cap && 2 <= a <= b
    ensures Pause(base, cap, a) <= Pause(base, cap, b)
  {
    Pow2Monotone(a - 1, b - 1);
    MulMonotone(Pow2(a - 1), Pow2(b - 1), base);
  }

  lemma ShortestFromExact(c: Config, k: int, attempts: int)
    requires Positive(c) && InRange(c) && 2 <= k <= attempts
    ensures ShortestDelay(c) <= ShortestFrom(c, k)
    ensures ShortestFrom(c, k) <= Stored(c.conflictBackoff) && ShortestFrom(c, k) <= Stored(Backoff(c, attempts))
    ensures ShortestFrom(c, k) in {Stored(c.conflictBackoff), Stored(Backoff(c, k))}
  {
    PausesInRange(c, k);
    PausesInRange(c, attempts);
    PauseGrows(c.baseBackoff, c.maxBackoff, k, attempts);
    StoredMonotone(Min(c.conflictBackoff, Backoff(c, k)), c.conflictBackoff);
    StoredMonotone(Min(c.conflictBackoff, Backoff(c, k)), Backoff(c, attempts));
    StoredMonotone(Min(c.conflictBackoff, Min(c.baseBackoff, c.maxBackoff)), Min(c.conflictBackoff, Backoff(c, k)));
  }

  /** The shortest pause is stored at that attempt, and not before. */
  lemma FirstShortestExact(c: Config, attempts: int)
    requires Positive(c) && InRange(c) && 1 <= attempts
    ensures ShortestDelay(c) in {Stored(c.conflictBackoff), Stored(Backoff(c, FirstShortest(c)))}
    ensures ShortestDelay(c) == Stored(c.conflictBackoff) || ShortestDelay(c) == Stored(Backoff(c, attempts)) ==>
              FirstShortest(c) <= attempts
  {
    ShortestDelayExact(c, attempts);
  }
}
