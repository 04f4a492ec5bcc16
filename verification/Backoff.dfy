/** Exponential backoff (`Config.RetryDelayForAttempt` in `internal/invoker/invoker.go`), with the
    delay computed over `real` and converted to a 64-bit `time.Duration`. */
module Backoff {
  import opened Integers

  datatype Config = Config(
    maxRetries: int,
    retryDelay: int,
    retryDelayMultiplier: real,
    maxRetryDelay: int,
    timeout: int,
    circuitBreakerThreshold: int)

  /** Go truncates toward zero when it converts a float to an integer. */
  function Trunc(r: real): int {
    if r >= 0.0 then r.Floor else -(-r).Floor
  }

  /** `time.Duration(r)`. Out of range the Go specification leaves the result to the platform: it is
      the parameter `overflow`. */
  function ToDuration(r: real, overflow: int): int {
    if Int64(Trunc(r)) then Trunc(r) else overflow
  }

  function Pow(m: real, n: nat): real {
    if n == 0 then 1.0 else m * Pow(m, n - 1)
  }

  /** Multipliers up to 1.0 disable the growth. */
  function Factor(cfg: Config): real {
    if cfg.retryDelayMultiplier <= 1.0 then 1.0 else cfg.retryDelayMultiplier
  }

  /** The uncut delay after attempt `attempt`. */
  function Growth(cfg: Config, attempt: nat): real {
    cfg.retryDelay as real * Pow(Factor(cfg), attempt)
  }

  /** The attempts after which the loop computes a delay and cuts it. */
  predicate Computed(cfg: Config, attempt: nat) {
    attempt > 0 && cfg.retryDelayMultiplier > 1.0
  }

  function Cut(cfg: Config, d: int): int {
    if cfg.maxRetryDelay > 0 && d > cfg.maxRetryDelay then cfg.maxRetryDelay else d
  }

  function Delay(cfg: Config, attempt: nat, overflow: int): int {
    if Computed(cfg, attempt) then Cut(cfg, ToDuration(Growth(cfg, attempt), overflow)) else cfg.retryDelay
  }

  method RetryDelayForAttempt(cfg: Config, attempt: nat, overflow: int) returns (d: int)
    ensures d == Delay(cfg, attempt, overflow)
  {
    if attempt == 0 || cfg.retryDelayMultiplier <= 1.0 { return cfg.retryDelay; }
    var delay := cfg.retryDelay as real;
    for i := 0 to attempt
      invariant delay == Growth(cfg, i)
    {
      GrowthStep(cfg, i);
      delay := delay * cfg.retryDelayMultiplier;
    }
    d := ToDuration(delay, overflow);
    if cfg.maxRetryDelay > 0 && d > cfg.maxRetryDelay { return cfg.maxRetryDelay; }
  }

  lemma GrowthStep(cfg: Config, n: nat)
    ensures Growth(cfg, n + 1) == Growth(cfg, n) * Factor(cfg)
  {
  }

  /** Base delay times the multiplier to the power of the attempt, without its fraction and cut at a positive
      cap; a first wait, and every wait under a multiplier of at most 1.0, is the base delay. */
  lemma DelayIsPower(cfg: Config, attempt: nat, overflow: int)
    requires cfg.retryDelay >= 0
    ensures attempt == 0 || cfg.retryDelayMultiplier <= 1.0 ==> Delay(cfg, attempt, overflow) == cfg.retryDelay
    ensures attempt > 0 && cfg.retryDelayMultiplier > 1.0 ==>
              var x := cfg.retryDelay as real * Pow(cfg.retryDelayMultiplier, attempt);
              var d, cap := Delay(cfg, attempt, overflow), cfg.maxRetryDelay;
              if x >= 9_223_372_036_854_775_808.0 then d == if 0 < cap < overflow then cap else overflow
              else if 0 < cap && x >= cap as real + 1.0 then d == cap
              else d as real <= x < d as real + 1.0
    ensures Pow(cfg.retryDelayMultiplier, 0) == 1.0
    ensures Pow(cfg.retryDelayMultiplier, attempt + 1)
            == Pow(cfg.retryDelayMultiplier, attempt) * cfg.retryDelayMultiplier
  {
    if cfg.retryDelayMultiplier > 1.0 {
      var x := cfg.retryDelay as real * Pow(cfg.retryDelayMultiplier, attempt);
      assert x == Growth(cfg, attempt);
      assert x >= 0.0 by { GrowthMonotone(cfg, attempt); }
      hide Growth, Pow;
      assert Trunc(x) as real <= x < Trunc(x) as real + 1.0;
    }
  }

  /** The default configuration waits 200 and 400 milliseconds, and never more than 30 seconds: the ninth
      wait would be 51.2. */
  lemma DefaultDelays(overflow: int)
    ensures var cfg := Config(2, 200_000_000, 2.0, 30_000_000_000, 90_000_000_000, 5);
            && Delay(cfg, 0, overflow) == 200_000_000 && Delay(cfg, 1, overflow) == 400_000_000
            && Delay(cfg, 8, overflow) == 30_000_000_000
  {
    var cfg := Config(2, 200_000_000, 2.0, 30_000_000_000, 90_000_000_000, 5);
    assert Pow(2.0, 1) == 2.0 && Pow(2.0, 2) == 4.0 && Pow(2.0, 4) == 16.0;
    assert Pow(2.0, 6) == 64.0 && Pow(2.0, 8) == 256.0;
    assert Growth(cfg, 1) == 400_000_000.0 && Growth(cfg, 8) == 51_200_000_000.0;
  }

  // ---------------------------------------------------------------- what the comment promises

  /** Exponential growth capped at `MaxRetryDelay`, after every attempt and for every multiplier. */
  function Promised(cfg: Config, attempt: nat): int {
    Cut(cfg, Trunc(Growth(cfg, attempt)))
  }

  lemma {:induction false} PowOne(n: nat)
    ensures Pow(1.0, n) == 1.0
  {
    if n == 0 {
    } else {
      PowOne(n - 1);
    }
  }

  /** Where nothing is computed the uncut delay is the base delay. */
  lemma PlainGrowth(cfg: Config, attempt: nat)
    requires !Computed(cfg, attempt)
    ensures Trunc(Growth(cfg, attempt)) == cfg.retryDelay
  {
    if attempt > 0 { PowOne(attempt); }
    assert Growth(cfg, attempt) == cfg.retryDelay as real;
  }

  /** A wait keeps to the cap, on every platform, exactly when it is computed or the base delay does:
      the first wait and every constant delay are returned uncut. Overflow does not break the cap. */
  lemma CapKeptIff(cfg: Config, attempt: nat, overflow: int)
    requires cfg.maxRetryDelay > 0
    ensures Delay(cfg, attempt, overflow) <= cfg.maxRetryDelay
            <==> Computed(cfg, attempt) || cfg.retryDelay <= cfg.maxRetryDelay
  {
  }

  /** The delay is the promised one on every platform exactly when it is computed and fits an int64,
      or is not computed and needs no cut. */
  lemma PromisedIff(cfg: Config, attempt: nat)
    requires Int64(cfg.maxRetryDelay)
    ensures (forall overflow :: Int64(overflow) ==> Delay(cfg, attempt, overflow) == Promised(cfg, attempt))
            <==> if Computed(cfg, attempt) then Int64(Trunc(Growth(cfg, attempt)))
                 else cfg.maxRetryDelay <= 0 || cfg.retryDelay <= cfg.maxRetryDelay
  {
    assert Int64(MIN_INT64);
    if !Computed(cfg, attempt) {
      PlainGrowth(cfg, attempt);
      assert Delay(cfg, attempt, MIN_INT64) == cfg.retryDelay;
    } else if !Int64(Trunc(Growth(cfg, attempt))) {
      assert Delay(cfg, attempt, MIN_INT64) == MIN_INT64;
    }
  }

  lemma {:induction false} PowAtLeastOne(m: real, n: nat)
    requires m >= 1.0
    ensures Pow(m, n) >= 1.0
  {
    if n == 0 {
    } else {
      PowAtLeastOne(m, n - 1);
      ScaleUp(Pow(m, n - 1), m);
    }
  }

  lemma ScaleUp(x: real, m: real)
    requires x >= 0.0 && m >= 1.0
    ensures x <= x * m
  {
    assert x * m == x + x * (m - 1.0);
  }

  /** Growth keeps the sign of the base delay. */
  lemma GrowthSign(cfg: Config, n: nat)
    ensures Trunc(Growth(cfg, n)) >= 0 <==> cfg.retryDelay >= 0
  {
    var b, p := cfg.retryDelay as real, Pow(Factor(cfg), n);
    PowAtLeastOne(Factor(cfg), n);
    hide Pow;
    if cfg.retryDelay >= 0 {
      ScaleUp(b, p);
    } else {
      ScaleUp(-b, p);
      assert -b * p == -(b * p);
      assert b * p <= b <= -1.0;
    }
  }

  /** There is a wait at all, on every platform, exactly when the base delay is not negative and a
      computed delay fits an int64. A negative delay is no wait. */
  lemma WaitsIff(cfg: Config, attempt: nat)
    ensures (forall overflow :: Int64(overflow) ==> Delay(cfg, attempt, overflow) >= 0)
            <==> cfg.retryDelay >= 0 && (Computed(cfg, attempt) ==> Int64(Trunc(Growth(cfg, attempt))))
  {
    GrowthSign(cfg, attempt);
    hide Growth, Trunc;
    assert Int64(MIN_INT64);
    if Delay(cfg, attempt, MIN_INT64) >= 0 && Computed(cfg, attempt) {
      assert Int64(Trunc(Growth(cfg, attempt)));
    }
  }

  /** A constant delay of 100 under a cap of 10 waits 100 after every attempt, and so does the first
      wait of a growing one. */
  lemma UncutDelays(attempt: nat, overflow: int)
    ensures Delay(Config(3, 100, 1.0, 10, 0, 0), attempt, overflow) == 100
    ensures Delay(Config(3, 100, 2.0, 10, 0, 0), 0, overflow) == 100
  {
  }

  /** One second times ten thousand million does not fit. Where the conversion gives the least int64
      there is no wait, although a minute is the cap. */
  lemma OverflowDoesNotWait()
    ensures var cfg := Config(3, 1_000_000_000, 10_000_000_000.0, 60_000_000_000, 0, 0);
            Delay(cfg, 1, MIN_INT64) == MIN_INT64 && Promised(cfg, 1) == 60_000_000_000
  {
    var cfg := Config(3, 1_000_000_000, 10_000_000_000.0, 60_000_000_000, 0, 0);
    assert Pow(10_000_000_000.0, 1) == 10_000_000_000.0;
    assert Growth(cfg, 1) == 10_000_000_000_000_000_000.0;
  }

  // ---------------------------------------------------------------- waits never get shorter

  lemma TruncMonotone(a: real, b: real)
    requires 0.0 <= a <= b
    ensures 0 <= Trunc(a) <= Trunc(b)
  {
  }

  lemma {:induction false} GrowthMonotone(cfg: Config, n: nat)
    requires cfg.retryDelay >= 0
    ensures 0.0 <= cfg.retryDelay as real <= Growth(cfg, n) <= Growth(cfg, n + 1)
  {
    if n == 0 {
    } else {
      GrowthMonotone(cfg, n - 1);
    }
    GrowthStep(cfg, n);
    ScaleUp(Growth(cfg, n), Factor(cfg));
  }

  /** The delay is computed and does not fit an int64. */
  predicate Over(cfg: Config, n: nat) {
    Computed(cfg, n) && !Int64(Trunc(Growth(cfg, n)))
  }

  /** On every platform the delay after attempt `n + 1` is at least the one after attempt `n`, exactly
      when it is not the second one, computed, under a cap below the base delay, and not the first one
      that does not fit. */
  lemma DelayMonotone(cfg: Config, n: nat)
    requires cfg.retryDelay >= 0
    ensures (forall overflow :: Int64(overflow) ==> Delay(cfg, n, overflow) <= Delay(cfg, n + 1, overflow))
            <==> && (n > 0 || !Computed(cfg, 1) || cfg.maxRetryDelay <= 0 || cfg.retryDelay <= cfg.maxRetryDelay)
                 && (Over(cfg, n + 1) ==> Over(cfg, n))
  {
    GrowthMonotone(cfg, n);
    TruncMonotone(Growth(cfg, n), Growth(cfg, n + 1));
    TruncMonotone(cfg.retryDelay as real, Growth(cfg, n + 1));
    assert Trunc(cfg.retryDelay as real) == cfg.retryDelay;
    GrowthSign(cfg, n);
    hide Growth, Trunc;
    assert Int64(MIN_INT64);
    if Over(cfg, n + 1) && !Over(cfg, n) {
      assert Delay(cfg, n + 1, MIN_INT64) == MIN_INT64 < Delay(cfg, n, MIN_INT64);
    }
  }

  // ---------------------------------------------------------------- total wait

  /** How long `time.After` waits: a negative delay is over at once. */
  function Wait(cfg: Config, attempt: nat, overflow: int): nat {
    if Delay(cfg, attempt, overflow) < 0 then 0 else Delay(cfg, attempt, overflow)
  }

  function TotalWait(cfg: Config, retries: nat, overflow: int): nat {
    if retries == 0 then 0 else TotalWait(cfg, retries - 1, overflow) + Wait(cfg, retries - 1, overflow)
  }

  function GeometricSum(m: real, n: nat): real {
    if n == 0 then 0.0 else GeometricSum(m, n - 1) + Pow(m, n - 1)
  }

  lemma {:induction false} GeometricSumClosed(m: real, n: nat)
    ensures GeometricSum(m, n) * (m - 1.0) == Pow(m, n) - 1.0
  {
    if n == 0 {
    } else {
      GeometricSumClosed(m, n - 1);
      var g, p := GeometricSum(m, n - 1), Pow(m, n - 1);
      assert (g + p) * (m - 1.0) == g * (m - 1.0) + (p * m - p);
      assert m * p == p * m;
    }
  }

  /** No wait is longer than the uncut delay, overflow included: a delay that does not fit an int64 is
      longer than any that does. */
  lemma WaitBelowGrowth(cfg: Config, n: nat, overflow: int)
    requires cfg.retryDelay >= 0 && Int64(overflow)
    ensures Wait(cfg, n, overflow) as real <= Growth(cfg, n)
  {
    GrowthMonotone(cfg, n);
    if !Computed(cfg, n) { PlainGrowth(cfg, n); }
    hide Growth;
    assert Trunc(Growth(cfg, n)) as real <= Growth(cfg, n);
  }

  /** All waits together are at most the geometric sum, for every multiplier and on every platform. */
  lemma {:induction false} TotalWaitGeometric(cfg: Config, retries: nat, overflow: int)
    requires cfg.retryDelay >= 0 && Int64(overflow)
    ensures TotalWait(cfg, retries, overflow) as real <= cfg.retryDelay as real * GeometricSum(Factor(cfg), retries)
  {
    hide Wait, Pow, Growth, Factor;
    var b, m := cfg.retryDelay as real, Factor(cfg);
    if retries == 0 {
      assert b * 0.0 == 0.0;
    } else {
      var n := retries - 1;
      TotalWaitGeometric(cfg, n, overflow);
      WaitBelowGrowth(cfg, n, overflow);
      GrowthIsPower(cfg, n);
      AddWait(TotalWait(cfg, n, overflow), Wait(cfg, n, overflow), b, GeometricSum(m, n), Pow(m, n));
    }
  }

  lemma GrowthIsPower(cfg: Config, n: nat)
    ensures Growth(cfg, n) == cfg.retryDelay as real * Pow(Factor(cfg), n)
  {
  }

  lemma AddWait(total: int, wait: int, b: real, g: real, p: real)
    requires total as real <= b * g && wait as real <= b * p
    ensures (total + wait) as real <= b * (g + p)
  {
    assert b * (g + p) == b * g + b * p;
  }

  /** With a cap no smaller than the base delay, they are at most the cap for each retry. */
  lemma {:induction false} TotalWaitCapped(cfg: Config, retries: nat, overflow: int)
    requires 0 < cfg.maxRetryDelay && cfg.retryDelay <= cfg.maxRetryDelay
    ensures TotalWait(cfg, retries, overflow) <= retries * cfg.maxRetryDelay
  {
    if retries == 0 {
    } else {
      var n := retries - 1;
      TotalWaitCapped(cfg, n, overflow);
      CapKeptIff(cfg, n, overflow);
      hide Delay;
      assert (n + 1) * cfg.maxRetryDelay == n * cfg.maxRetryDelay + cfg.maxRetryDelay;
    }
  }
}
