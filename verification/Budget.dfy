/** The elapsed-time budget of the exponential generator, under any stack of max-tries decorators. */
module Budget {
  import opened Rounding
  import opened Interval
  import opened Policies
  import Jitter

  // ---- consecutive calls of NextBackOff ---------------------------------------------------

  function StateAt(p: Policy, ticks: nat -> Tick, k: nat): Policy {
    if k == 0 then p else Next(StateAt(p, ticks, k - 1), ticks(k - 1)).0
  }

  /** The delay handed out by call k of NextBackOff. */
  function DelayAt(p: Policy, ticks: nat -> Tick, k: nat): int {
    Next(StateAt(p, ticks, k), ticks(k)).1
  }

  function Slept(d: int): nat {
    if 0 <= d then d else 0
  }

  /** Total of the sleeps granted by the first k calls. */
  function SleptBefore(p: Policy, ticks: nat -> Tick, k: nat): nat {
    if k == 0 then 0 else SleptBefore(p, ticks, k - 1) + Slept(DelayAt(p, ticks, k - 1))
  }

  /** Number of the sleeps granted by the first k calls. */
  function GrantsBefore(p: Policy, ticks: nat -> Tick, k: nat): nat {
    if k == 0 then 0 else GrantsBefore(p, ticks, k - 1) + if 0 <= DelayAt(p, ticks, k - 1) then 1 else 0
  }

  // ---- assumptions --------------------------------------------------------------------------

  ghost predicate OverExponential(p: Policy) {
    match p
    case Exponential(_, _, _) => true
    case Foreign(_, _, _) => false
    case Tries(delegate, _, _) => OverExponential(delegate)
  }

  /** The exponential generator underneath the decorators. */
  ghost function Core(p: Policy): (e: Policy)
    requires OverExponential(p)
    ensures e.Exponential?
  {
    if p.Tries? then Core(p.delegate) else p
  }

  ghost predicate Shaped(c: Config) {
    && 0.0 <= c.randomizationFactor <= 1.0
    && 1.0 <= c.multiplier
    && 0 <= c.initialInterval <= c.maxInterval
  }

  /** The loop compares with the package constant, so the configurable value must be that constant. */
  ghost predicate Tame(c: Config) {
    Shaped(c) && c.stop == STOP
  }

  ghost predicate Later(p: Policy, ticks: nat -> Tick, k: nat) {
    ticks(k).now + Slept(DelayAt(p, ticks, k)) <= ticks(k + 1).now
  }

  /** The clock starts no earlier than the reset and advances at least by each granted sleep. */
  ghost predicate ClockAdvances(p: Policy, start: int, ticks: nat -> Tick) {
    && start <= ticks(0).now
    && (forall k: nat :: Later(p, ticks, k))
    && (forall k: nat :: 0.0 <= ticks(k).random < 1.0)
  }

  /** The least delay that the configuration can hand out. */
  function LeastDelay(c: Config): int {
    Jitter.Low(c.randomizationFactor, c.initialInterval).Floor
  }

  // ---- one call ------------------------------------------------------------------------------

  /** A call either is stopped by a decorator, and then leaves the generator alone, or is the
      generator's own call. */
  lemma {:induction false} CoreStep(p: Policy, t: Tick)
    requires OverExponential(p)
    ensures OverExponential(Next(p, t).0)
    ensures (Next(p, t).1 == STOP && Core(Next(p, t).0) == Core(p))
         || (Next(p, t).1 == Next(Core(p), t).1 && Core(Next(p, t).0) == Next(Core(p), t).0)
  {
    if p.Tries? && p.numTries < p.maxTries {
      CoreStep(p.delegate, t);
    }
  }

  lemma {:induction false} CoreReset(p: Policy, now: int)
    requires OverExponential(p)
    ensures OverExponential(Reset(p, now))
    ensures Core(Reset(p, now)) == Reset(Core(p), now)
  {
    if p.Tries? {
      CoreReset(p.delegate, now);
    }
  }

  /** The generator of a running policy: its interval never falls below the initial one. */
  ghost predicate Running(p: Policy, c: Config, start: int) {
    && OverExponential(p)
    && Core(p).config == c
    && Core(p).startTime == start
    && c.initialInterval <= Core(p).currentInterval <= c.maxInterval
  }

  lemma LowGrows(factor: real, small: int, large: int)
    requires 0.0 <= factor <= 1.0 && 0 <= small <= large
    ensures Jitter.Low(factor, small).Floor <= Jitter.Low(factor, large).Floor
  {
    var gap := (large - small) as real;
    MulKeepsOrder(factor, 1.0, gap);
    assert factor * large as real == factor * small as real + factor * gap;
  }

  /** A granted delay lies between the least delay and what is left of the budget. */
  lemma RunningStep(p: Policy, c: Config, start: int, t: Tick)
    requires Running(p, c, start) && Tame(c) && 0.0 <= t.random < 1.0
    ensures Running(Next(p, t).0, c, start)
    ensures var d := Next(p, t).1;
            d == STOP || (0 <= d && LeastDelay(c) <= d
                          && (c.maxElapsedTime != 0 ==> t.now + d <= start + c.maxElapsedTime))
  {
    hide Increment, Jitter.Delay, Jitter.Low;
    CoreStep(p, t);
    IncrementStep(c, Core(p).currentInterval);
    Jitter.DelayWithinInterval(c.randomizationFactor, t.random, Core(p).currentInterval);
    LowGrows(c.randomizationFactor, c.initialInterval, Core(p).currentInterval);
  }

  /** The undecorated generator stops exactly when there is a budget and the retry would fall due after it. */
  lemma StopsIffOverdue(p: Policy, t: Tick)
    requires p.Exponential? && Running(p, p.config, p.startTime) && Tame(p.config) && 0.0 <= t.random < 1.0
    ensures var due := t.now + Jitter.Delay(p.config.randomizationFactor, t.random, p.currentInterval);
            Next(p, t).1 == STOP
            <==> p.config.maxElapsedTime != 0 && p.startTime + p.config.maxElapsedTime < due
  {
    hide Jitter.Delay, Increment;
    Jitter.DelayWithinInterval(p.config.randomizationFactor, t.random, p.currentInterval);
  }

  // ---- whole runs -----------------------------------------------------------------------------

  lemma {:induction false} RunningRun(p: Policy, c: Config, start: int, ticks: nat -> Tick, n: nat)
    requires Running(p, c, start) && Tame(c) && ClockAdvances(p, start, ticks)
    ensures Running(StateAt(p, ticks, n), c, start)
    ensures start + SleptBefore(p, ticks, n) <= ticks(n).now
    ensures 0 < c.maxElapsedTime ==> SleptBefore(p, ticks, n) <= c.maxElapsedTime
  {
    hide Next, LeastDelay, Running;
    if n > 0 {
      var k: nat := n - 1;
      RunningRun(p, c, start, ticks, k);
      RunningStep(StateAt(p, ticks, k), c, start, ticks(k));
      assert Later(p, ticks, k);
    }
  }

  lemma DrawsAreFractions(p: Policy, start: int, ticks: nat -> Tick, k: nat)
    requires ClockAdvances(p, start, ticks)
    ensures 0.0 <= ticks(k).random < 1.0
  {
  }

  lemma OneMoreGrant(g: nat, least: int)
    ensures (g + 1) * least == g * least + least
  {
  }

  /** Every grant sleeps at least the least delay. */
  lemma {:induction false} GrantsRun(p: Policy, c: Config, start: int, ticks: nat -> Tick, n: nat)
    requires Running(p, c, start) && Tame(c) && ClockAdvances(p, start, ticks)
    ensures GrantsBefore(p, ticks, n) * LeastDelay(c) <= SleptBefore(p, ticks, n)
  {
    hide Next, LeastDelay, Running, Later, ClockAdvances, Tame;
    if n > 0 {
      var k: nat := n - 1;
      GrantsRun(p, c, start, ticks, k);
      RunningRun(p, c, start, ticks, k);
      DrawsAreFractions(p, start, ticks, k);
      RunningStep(StateAt(p, ticks, k), c, start, ticks(k));
      OneMoreGrant(GrantsBefore(p, ticks, k), LeastDelay(c));
    }
  }

  /** With a positive budget: since the reset the granted sleeps sum to at most the budget, every
      granted retry falls due within it, and no more sleeps are granted than the budget has room for. */
  lemma TimeBudget(p: Policy, start: int, ticks: nat -> Tick, n: nat)
    requires OverExponential(p)
    requires Tame(Core(p).config) && 0 < Core(p).config.maxElapsedTime
    requires ClockAdvances(Reset(p, start), start, ticks)
    ensures var c, q := Core(p).config, Reset(p, start);
            && SleptBefore(q, ticks, n) <= c.maxElapsedTime
            && GrantsBefore(q, ticks, n) * LeastDelay(c) <= c.maxElapsedTime
            && (0 <= DelayAt(q, ticks, n) ==> ticks(n).now + DelayAt(q, ticks, n) <= start + c.maxElapsedTime)
  {
    CoreReset(p, start);
    var c, q := Core(p).config, Reset(p, start);
    RunningRun(q, c, start, ticks, n);
    GrantsRun(q, c, start, ticks, n);
    RunningStep(StateAt(q, ticks, n), c, start, ticks(n));
  }

  lemma QuotientBound(k: nat, least: int, total: int)
    requires 1 <= least && k * least <= total
    ensures k <= total / least
  {
    var room := total / least;
    assert (k - room) * least <= total % least < least;
    assert 1 <= k - room ==> least <= (k - room) * least;
  }

  lemma ResetIsRunning(p: Policy, start: int)
    requires OverExponential(p) && Shaped(Core(p).config)
    ensures Running(Reset(p, start), Core(p).config, start)
  {
    CoreReset(p, start);
  }

  /** With a positive least delay, some call among the first budget / least delay + 1 says stop. */
  lemma StopsWithinBudget(p: Policy, start: int, ticks: nat -> Tick) returns (k: nat)
    requires OverExponential(p)
    requires Tame(Core(p).config) && 0 < Core(p).config.maxElapsedTime && 1 <= LeastDelay(Core(p).config)
    requires ClockAdvances(Reset(p, start), start, ticks)
    ensures k <= Core(p).config.maxElapsedTime / LeastDelay(Core(p).config)
    ensures DelayAt(Reset(p, start), ticks, k) == STOP
  {
    hide Next, LeastDelay, Running, Core, OverExponential, ClockAdvances, Reset;
    var c, q := Core(p).config, Reset(p, start);
    var limit := c.maxElapsedTime / LeastDelay(c);
    ResetIsRunning(p, start);
    k := 0;
    while DelayAt(q, ticks, k) != STOP
      invariant k <= limit
      invariant GrantsBefore(q, ticks, k) == k
      decreases limit - k
    {
      RunningRun(q, c, start, ticks, k);
      DrawsAreFractions(q, start, ticks, k);
      RunningStep(StateAt(q, ticks, k), c, start, ticks(k));
      TimeBudget(p, start, ticks, k + 1);
      QuotientBound(k + 1, LeastDelay(c), c.maxElapsedTime);
      k := k + 1;
    }
  }

  lemma {:induction false} UndecoratedAt(p: Policy, ticks: nat -> Tick, n: nat)
    requires p.Exponential? && Running(p, p.config, p.startTime) && Shaped(p.config)
    ensures StateAt(p, ticks, n).Exponential? && Running(StateAt(p, ticks, n), p.config, p.startTime)
  {
    if n > 0 {
      UndecoratedAt(p, ticks, n - 1);
      hide Jitter.Delay, Increment;
      IncrementStep(p.config, StateAt(p, ticks, n - 1).currentInterval);
    }
  }

  /** Without a budget, or with a configured stop value that is not the one the loop looks for, the
      undecorated generator never stops the loop. */
  lemma NeverStops(p: Policy, start: int, ticks: nat -> Tick, n: nat)
    requires p.Exponential? && Shaped(p.config)
    requires p.config.maxElapsedTime == 0 || p.config.stop != STOP
    requires 0.0 <= ticks(n).random < 1.0
    ensures DelayAt(Reset(p, start), ticks, n) != STOP
  {
    UndecoratedAt(Reset(p, start), ticks, n);
    hide Jitter.Delay, Increment;
    Jitter.DelayWithinInterval(p.config.randomizationFactor, ticks(n).random,
                               StateAt(Reset(p, start), ticks, n).currentInterval);
  }

  /** On a clock that advances, the undecorated generator stops the loop some time exactly if there is a
      budget, be it negative, and the configured stop value is the one the loop looks for. */
  lemma StopsIffBudget(p: Policy, start: int, ticks: nat -> Tick)
    requires p.Exponential? && Shaped(p.config) && 1 <= LeastDelay(p.config)
    requires ClockAdvances(Reset(p, start), start, ticks)
    ensures (exists k: nat :: DelayAt(Reset(p, start), ticks, k) == STOP)
       <==> p.config.maxElapsedTime != 0 && p.config.stop == STOP
  {
    hide LeastDelay, Increment, Jitter.Delay;
    if p.config.maxElapsedTime == 0 || p.config.stop != STOP {
      forall k: nat
        ensures DelayAt(Reset(p, start), ticks, k) != STOP
      {
        DrawsAreFractions(Reset(p, start), start, ticks, k);
        NeverStops(p, start, ticks, k);
      }
    } else if 0 < p.config.maxElapsedTime {
      var k := StopsWithinBudget(p, start, ticks);
    } else {
      Jitter.DelayWithinInterval(p.config.randomizationFactor, ticks(0).random, p.config.initialInterval);
      assert DelayAt(Reset(p, start), ticks, 0) == STOP;
    }
  }

  /** The default configuration: at most 3600 sleeps, 15 minutes in all. */
  lemma DefaultBudget(start: int, current: int, ticks: nat -> Tick, n: nat)
    requires ClockAdvances(Reset(Exponential(DEFAULT_CONFIG, current, start), start), start, ticks)
    ensures var q := Reset(Exponential(DEFAULT_CONFIG, current, start), start);
            GrantsBefore(q, ticks, n) <= 3600 && SleptBefore(q, ticks, n) <= 900_000_000_000
  {
    var p := Exponential(DEFAULT_CONFIG, current, start);
    assert LeastDelay(DEFAULT_CONFIG) == 250_000_000;
    TimeBudget(p, start, ticks, n);
  }
}
