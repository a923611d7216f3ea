/** What the calls of NextBackOff after a reset hand out, one by one, for any policy. */
module Calls {
  import opened Interval
  import opened Policies
  import opened Budget
  import opened Retry
  import Jitter

  // ---- the undecorated generator -------------------------------------------------------------------

  /** After a reset and n calls the generator has made n increments, and nothing else has changed. */
  lemma {:induction false} GeneratorAt(p: Policy, start: int, ticks: nat -> Tick, n: nat)
    requires p.Exponential?
    ensures StateAt(Reset(p, start), ticks, n) == Exponential(p.config, IntervalAfter(p.config, n), start)
  {
    hide Increment, Jitter.Delay;
    if n > 0 {
      GeneratorAt(p, start, ticks, n - 1);
    }
  }

  /** Call n draws around the interval after n increments; the delay is handed out unless a retry after it
      would fall due later than the budget allows. */
  function GeneratorDelay(c: Config, start: int, t: Tick, n: nat): int {
    var d := Jitter.Delay(c.randomizationFactor, t.random, IntervalAfter(c, n));
    if c.maxElapsedTime != 0 && start + c.maxElapsedTime < t.now + d then c.stop else d
  }

  lemma GeneratorCall(p: Policy, start: int, ticks: nat -> Tick, n: nat)
    requires p.Exponential?
    ensures DelayAt(Reset(p, start), ticks, n) == GeneratorDelay(p.config, start, ticks(n), n)
  {
    hide Increment, Jitter.Delay;
    GeneratorAt(p, start, ticks, n);
  }

  // ---- decorators ------------------------------------------------------------------------------------

  /** The limits of the decorators, the outermost first. */
  function Limits(p: Policy): seq<nat> {
    if p.Tries? then [p.maxTries] + Limits(p.delegate) else []
  }

  /** The policy under all decorators. */
  function Base(p: Policy): (b: Policy)
    ensures !b.Tries?
  {
    if p.Tries? then Base(p.delegate) else p
  }

  lemma {:induction false} ResetIsStacked(p: Policy, now: int)
    ensures Stacked(Reset(p, now), Limits(p), Reset(Base(p), now), 0, true)
  {
    if p.Tries? {
      ResetIsStacked(p.delegate, now);
      assert Limits(p)[1..] == Limits(p.delegate);
    }
  }

  lemma {:induction false} BaseOfStacked(p: Policy, limits: seq<nat>, base: Policy, n: nat, tight: bool)
    requires Stacked(p, limits, base, n, tight) && !base.Tries?
    ensures Base(p) == base
    decreases limits
  {
    if limits != [] {
      BaseOfStacked(p.delegate, limits[1..], base, n, tight);
    }
  }

  lemma {:induction false} BaseStays(p: Policy, ticks: nat -> Tick, n: nat)
    requires !p.Tries?
    ensures !StateAt(p, ticks, n).Tries?
  {
    if n > 0 {
      BaseStays(p, ticks, n - 1);
    }
  }

  /** The calls that get through to the delegate of one decorator. */
  function Passed(max: nat, n: nat): nat {
    if n < max then n else max
  }

  lemma {:induction false} SingleDecorator(base: Policy, max: nat, ticks: nat -> Tick, n: nat)
    ensures StateAt(Tries(base, max, 0), ticks, n) == Tries(StateAt(base, ticks, Passed(max, n)), max, Passed(max, n))
    ensures DelayAt(Tries(base, max, 0), ticks, n) == if n < max then DelayAt(base, ticks, n) else STOP
  {
    if n > 0 {
      SingleDecorator(base, max, ticks, n - 1);
    }
  }

  lemma StackedWeakens(p: Policy, limits: seq<nat>, base: Policy, least: nat)
    requires Stacked(p, limits, base, 0, true)
    ensures Stacked(p, limits, base, 0, 0 < least)
  {
    if least == 0 {
      StackedLoosen(p, limits, base, 0);
    }
  }

  /** Any stack of decorators hands out the delays of the policy underneath up to the smallest limit, and
      says stop from then on without asking it again. */
  lemma DecoratedCall(p: Policy, start: int, ticks: nat -> Tick, n: nat)
    ensures var base, limits := Reset(Base(p), start), Limits(p);
            var passed := if limits == [] then n else Passed(Min(limits), n);
            && Base(StateAt(Reset(p, start), ticks, n)) == StateAt(base, ticks, passed)
            && (DelayAt(Reset(p, start), ticks, n)
                == if limits == [] || n < Min(limits) then DelayAt(base, ticks, n) else STOP)
  {
    hide Next;
    var base, limits := Reset(Base(p), start), Limits(p);
    if p.Tries? {
      var flat := Tries(base, Min(limits), 0);
      ResetIsStacked(p, start);
      StackedWeakens(Reset(p, start), limits, base, Min(limits));
      SimulatesAt(Reset(p, start), limits, flat, ticks, n);
      SingleDecorator(base, Min(limits), ticks, n);
      BaseStays(base, ticks, Passed(Min(limits), n));
      var flat' := StateAt(flat, ticks, n);
      BaseOfStacked(StateAt(Reset(p, start), ticks, n), limits, flat'.delegate, flat'.numTries,
                    flat'.numTries < flat'.maxTries);
    } else {
      BaseStays(base, ticks, n);
    }
  }

  /** The exponential generator under any decorators: below every limit call n draws around the n-th interval,
      whatever the policy had been through before the reset. */
  lemma NthCall(p: Policy, start: int, ticks: nat -> Tick, n: nat)
    requires Base(p).Exponential? && forall m <- Limits(p) :: n < m
    ensures var c := Base(p).config;
            && Base(StateAt(Reset(p, start), ticks, n)) == Exponential(c, IntervalAfter(c, n), start)
            && DelayAt(Reset(p, start), ticks, n) == GeneratorDelay(c, start, ticks(n), n)
  {
    hide Next, GeneratorDelay;
    DecoratedCall(p, start, ticks, n);
    GeneratorAt(Base(p), start, ticks, n);
    GeneratorCall(Base(p), start, ticks, n);
  }

  /** The first delays of the default configuration, drawn from the middle: they grow. */
  lemma DefaultDelaysGrow(current: int, past: int, start: int, ticks: nat -> Tick)
    requires forall k: nat :: ticks(k) == Tick(start, 0.5)
    ensures var q := Reset(Exponential(DEFAULT_CONFIG, current, past), start);
            && DelayAt(q, ticks, 0) == 500_000_000
            && DelayAt(q, ticks, 1) == 750_000_000
            && DelayAt(q, ticks, 2) == 1_125_000_000
  {
    var p := Exponential(DEFAULT_CONFIG, current, past);
    GeneratorCall(p, start, ticks, 0);
    GeneratorCall(p, start, ticks, 1);
    GeneratorCall(p, start, ticks, 2);
    assert IntervalAfter(DEFAULT_CONFIG, 1) == 750_000_000;
    assert IntervalAfter(DEFAULT_CONFIG, 2) == 1_125_000_000;
  }
}
