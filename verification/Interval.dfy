/** The geometric interval of ExponentialBackOff, with its saturation and its roundings.
    Durations are integers (nanoseconds). */
module Interval {
  import opened Rounding

  /** What NextBackOff returns to end the retries. */
  const STOP := -1

  datatype Config = Config(
    initialInterval: int,
    randomizationFactor: real,
    multiplier: real,
    maxInterval: int,
    maxElapsedTime: int,
    stop: int)

  const DEFAULT_CONFIG := Config(500_000_000, 0.5, 1.5, 60_000_000_000, 900_000_000_000, STOP)

  /** incrementCurrentInterval. A float quotient by zero is an infinity with the sign of the dividend
      (or not a number), so with multiplier zero only a negative bound is ever reached. */
  function Increment(c: Config, current: int): int {
    if c.multiplier == 0.0 then
      if c.maxInterval < 0 then c.maxInterval else 0
    else if current as real >= c.maxInterval as real / c.multiplier then
      c.maxInterval
    else
      Truncate(current as real * c.multiplier)
  }

  /** The current interval n increments after a reset. */
  function IntervalAfter(c: Config, n: nat): int {
    if n == 0 then c.initialInterval else Increment(c, IntervalAfter(c, n - 1))
  }

  /** For any positive multiplier the next interval is the product, rounded down and capped. */
  lemma IncrementIsCapped(c: Config, current: int)
    requires 0.0 < c.multiplier && 0 <= current
    ensures var product := current as real * c.multiplier;
            Increment(c, current) == if product >= c.maxInterval as real then c.maxInterval else product.Floor
  {
    DivBound(current as real, c.maxInterval as real, c.multiplier);
    MulKeepsOrder(0.0, current as real, c.multiplier);
  }

  /** One increment either saturates or rounds the product down, and never goes back. */
  lemma IncrementStep(c: Config, current: int)
    requires 1.0 <= c.multiplier && 0 <= current <= c.maxInterval
    ensures current <= Increment(c, current) <= c.maxInterval
    ensures Increment(c, current) as real <= current as real * c.multiplier
    ensures Increment(c, current) == c.maxInterval
         || current as real * c.multiplier < Increment(c, current) as real + 1.0
    ensures current as real * c.multiplier >= c.maxInterval as real
       <==> current as real >= c.maxInterval as real / c.multiplier
  {
    DivBound(current as real, c.maxInterval as real, c.multiplier);
    var product := current as real * c.multiplier;
    FactorGrows(current as real, c.multiplier);
    assert current as real <= product;
  }

  lemma {:induction false} IntervalInRange(c: Config, n: nat)
    requires 1.0 <= c.multiplier && 0 <= c.initialInterval <= c.maxInterval
    ensures c.initialInterval <= IntervalAfter(c, n) <= IntervalAfter(c, n + 1) <= c.maxInterval
    ensures IntervalAfter(c, n) == c.maxInterval ==> IntervalAfter(c, n + 1) == c.maxInterval
  {
    if n > 0 {
      IntervalInRange(c, n - 1);
    }
    IncrementStep(c, IntervalAfter(c, n));
  }

  lemma AboveMaximumShrinks(c: Config, current: int)
    requires 1.0 <= c.multiplier && 0 <= c.maxInterval < current
    ensures Increment(c, current) == c.maxInterval
  {
    var product := current as real * c.multiplier;
    FactorGrows(current as real, c.multiplier);
    assert c.maxInterval as real <= current as real <= product;
    DivBound(current as real, c.maxInterval as real, c.multiplier);
    assert current as real >= c.maxInterval as real / c.multiplier;
  }

  /** The interval never shrinks, whatever the number of increments, exactly when the initial one
      does not already exceed the maximum. */
  lemma NeverDecreasesIff(c: Config)
    requires 1.0 <= c.multiplier && 0 <= c.initialInterval && 0 <= c.maxInterval
    ensures (forall n: nat :: IntervalAfter(c, n) <= IntervalAfter(c, n + 1)) <==> c.initialInterval <= c.maxInterval
  {
    if c.initialInterval <= c.maxInterval {
      forall n: nat ensures IntervalAfter(c, n) <= IntervalAfter(c, n + 1) {
        IntervalInRange(c, n);
      }
    } else {
      AboveMaximumShrinks(c, c.initialInterval);
      assert IntervalAfter(c, 0 + 1) == c.maxInterval < IntervalAfter(c, 0);
    }
  }

  // ---- geometric growth --------------------------------------------------------------

  /** I * q^n, multiplied up one factor at a time. */
  function Ideal(i: real, q: real, n: nat): real {
    if n == 0 then i else Ideal(i, q, n - 1) * q
  }

  lemma ProductRegroups(x: real, y: real, z: real)
    ensures x * (y * z) == x * y * z
  {
  }

  lemma {:induction false} IdealIsPower(i: real, q: real, n: nat)
    ensures Ideal(i, q, n) == i * Pow(q, n)
  {
    if n > 0 {
      IdealIsPower(i, q, n - 1);
      ProductRegroups(i, Pow(q, n - 1), q);
    }
  }

  /** v lies within n roundings of the ideal interval, or has saturated. */
  ghost predicate WithinRoundings(c: Config, n: nat, v: int) {
    var ideal := Ideal(c.initialInterval as real, c.multiplier, n);
    && v as real <= ideal
    && (v == c.maxInterval || ideal - PowSum(c.multiplier, n) <= v as real)
  }

  /** next is v times the multiplier, rounded down, unless it has saturated. */
  ghost predicate RoundedStep(c: Config, v: int, next: int) {
    && (v == c.maxInterval ==> next == c.maxInterval)
    && next as real <= v as real * c.multiplier
    && (next == c.maxInterval || v as real * c.multiplier < next as real + 1.0)
  }

  lemma OneMoreRounding(c: Config, n: nat, v: int, next: int)
    requires 0.0 <= c.multiplier && WithinRoundings(c, n, v) && RoundedStep(c, v, next)
    ensures WithinRoundings(c, n + 1, next)
  {
    var ideal, sum, q := Ideal(c.initialInterval as real, c.multiplier, n), PowSum(c.multiplier, n), c.multiplier;
    MulKeepsOrder(v as real, ideal, q);
    if next != c.maxInterval {
      MulKeepsOrder(ideal - sum, v as real, q);
      assert (ideal - sum) * q == ideal * q - sum * q;
    }
  }

  lemma IntervalRounds(c: Config, n: nat)
    requires 1.0 <= c.multiplier && 0 <= c.initialInterval <= c.maxInterval
    ensures RoundedStep(c, IntervalAfter(c, n), IntervalAfter(c, n + 1))
  {
    hide Increment;
    IntervalInRange(c, n);
    IncrementStep(c, IntervalAfter(c, n));
  }

  lemma {:induction false} GeometricSteps(c: Config, n: nat)
    requires 1.0 <= c.multiplier && 0 <= c.initialInterval <= c.maxInterval
    ensures WithinRoundings(c, n, IntervalAfter(c, n))
  {
    if n > 0 {
      hide Increment, WithinRoundings, RoundedStep;
      var v := IntervalAfter(c, n - 1);
      GeometricSteps(c, n - 1);
      assert RoundedStep(c, v, IntervalAfter(c, n)) by {
        IntervalRounds(c, n - 1);
      }
      OneMoreRounding(c, n - 1, v, IntervalAfter(c, n));
    }
  }

  lemma RoundingsInClosedForm(c: Config, n: nat, v: int)
    requires 1.0 < c.multiplier && WithinRoundings(c, n, v)
    ensures v as real <= c.initialInterval as real * Pow(c.multiplier, n)
    ensures v == c.maxInterval
         || c.initialInterval as real * Pow(c.multiplier, n) - (Pow(c.multiplier, n) - 1.0) / (c.multiplier - 1.0)
            <= v as real
  {
    hide Pow, PowSum, Ideal;
    PowSumClosedForm(c.multiplier, n);
    IdealIsPower(c.initialInterval as real, c.multiplier, n);
  }

  /** After n increments the interval has saturated, or lies within the roundings of I * q^n. */
  lemma GeometricInterval(c: Config, n: nat)
    requires 1.0 < c.multiplier && 0 < c.initialInterval <= c.maxInterval
    ensures IntervalAfter(c, n) <= c.maxInterval
    ensures IntervalAfter(c, n) as real <= c.initialInterval as real * Pow(c.multiplier, n)
    ensures IntervalAfter(c, n) == c.maxInterval
         || c.initialInterval as real * Pow(c.multiplier, n) - (Pow(c.multiplier, n) - 1.0) / (c.multiplier - 1.0)
            <= IntervalAfter(c, n) as real
    ensures IntervalAfter(c, n) == c.maxInterval ==> IntervalAfter(c, n + 1) == c.maxInterval
  {
    hide *;
    GeometricSteps(c, n);
    RoundingsInClosedForm(c, n, IntervalAfter(c, n));
    IntervalInRange(c, n);
  }

  // ---- saturation ----------------------------------------------------------------------

  lemma GainsOne(i: real, v: real, q: real)
    requires 0.0 < i <= v && 1.0 < q
    ensures v + (i * (q - 1.0)) <= v * q
    ensures i < i * q == i + i * (q - 1.0)
  {
    MulKeepsOrder(i, v, q - 1.0);
    assert v * q == v * (q - 1.0) + v;
    assert 0.0 < i * (q - 1.0);
  }

  /** An initial interval that gains at least one unit from the first increment gains one from each. */
  lemma {:induction false} GrowsByOne(c: Config, n: nat)
    requires 1.0 < c.multiplier && 0 < c.initialInterval <= c.maxInterval
    requires c.initialInterval as real * (c.multiplier - 1.0) >= 1.0
    ensures IntervalAfter(c, n) == c.maxInterval || c.initialInterval + n <= IntervalAfter(c, n)
    ensures IntervalAfter(c, n) < c.maxInterval ==> IntervalAfter(c, n) < IntervalAfter(c, n + 1)
  {
    hide Increment;
    IntervalInRange(c, n);
    IncrementStep(c, IntervalAfter(c, n));
    GainsOne(c.initialInterval as real, IntervalAfter(c, n) as real, c.multiplier);
    if n > 0 {
      GrowsByOne(c, n - 1);
      IntervalInRange(c, n - 1);
    }
  }

  lemma {:induction false} FrozenInterval(c: Config, n: nat)
    requires 1.0 < c.multiplier && 0 < c.initialInterval <= c.maxInterval
    requires c.initialInterval as real * (c.multiplier - 1.0) < 1.0
    requires c.initialInterval as real * c.multiplier < c.maxInterval as real
    ensures IntervalAfter(c, n) == c.initialInterval < c.maxInterval
  {
    hide Increment;
    GainsOne(c.initialInterval as real, c.initialInterval as real, c.multiplier);
    IncrementStep(c, c.initialInterval);
    if n > 0 {
      FrozenInterval(c, n - 1);
    }
  }

  /** Rounding can freeze the interval: it reaches the maximum exactly when the first increment gains
      at least one unit or saturates at once. */
  lemma ReachesMaximumIff(c: Config)
    requires 1.0 < c.multiplier && 0 < c.initialInterval <= c.maxInterval
    ensures (exists n: nat :: IntervalAfter(c, n) == c.maxInterval)
       <==> c.initialInterval as real * (c.multiplier - 1.0) >= 1.0
            || c.initialInterval as real * c.multiplier >= c.maxInterval as real
  {
    IncrementStep(c, c.initialInterval);
    if c.initialInterval as real * c.multiplier >= c.maxInterval as real {
      assert IntervalAfter(c, 0 + 1) == c.maxInterval;
    } else if c.initialInterval as real * (c.multiplier - 1.0) >= 1.0 {
      var n := c.maxInterval - c.initialInterval;
      GrowsByOne(c, n);
      IntervalInRange(c, n);
      assert IntervalAfter(c, n) == c.maxInterval;
    } else {
      forall n: nat ensures IntervalAfter(c, n) != c.maxInterval {
        FrozenInterval(c, n);
      }
    }
  }

  /** With the default multiplier an interval of one unit is multiplied for ever and never grows. */
  lemma {:induction false} StuckInterval(n: nat)
    ensures IntervalAfter(DEFAULT_CONFIG.(initialInterval := 1), n) == 1
  {
    if n > 0 {
      StuckInterval(n - 1);
    }
  }
}
