/** The mutable back-off objects. A value of the BackOff interface is a tagged reference; each method
    is proved to act on the object's view as the policy functions say. */
module BackOffObjects {
  import opened Prelude
  import opened Interval
  import opened Policies
  import opened Rounding
  import Jitter

  datatype BackOff =
    | ExponentialRef(e: ExponentialBackOff)
    | ForeignRef(f: ForeignBackOff)
    | TriesRef(t: BackOffTries)

  class ExponentialBackOff {
    const config: Config
    var currentInterval: int
    var startTime: int

    ghost function View(): Policy
      reads this
    {
      Exponential(config, currentInterval, startTime)
    }

    constructor (config: Config, now: int)
      ensures this.config == config
      ensures View() == Policies.Reset(Exponential(config, 0, 0), now)
    {
      this.config := config;
      currentInterval := config.initialInterval;
      startTime := now;
    }

    method GetElapsedTime(now: int) returns (elapsed: int)
      ensures elapsed == now - startTime
    {
      elapsed := now - startTime;
    }

    method IncrementCurrentInterval()
      modifies this
      ensures currentInterval == Increment(config, old(currentInterval)) && startTime == old(startTime)
    {
      if config.multiplier == 0.0 {
        currentInterval := if config.maxInterval < 0 then config.maxInterval else 0;
      } else if currentInterval as real >= config.maxInterval as real / config.multiplier {
        currentInterval := config.maxInterval;
      } else {
        currentInterval := Truncate(currentInterval as real * config.multiplier);
      }
    }

    method NextBackOff(t: Tick) returns (d: int)
      modifies this
      ensures (View(), d) == Policies.Next(old(View()), t)
    {
      var elapsed := GetElapsedTime(t.now);
      var next := Jitter.Delay(config.randomizationFactor, t.random, currentInterval);
      IncrementCurrentInterval();
      if config.maxElapsedTime != 0 && elapsed + next > config.maxElapsedTime {
        return config.stop;
      }
      return next;
    }

    method Reset(now: int)
      modifies this
      ensures View() == Policies.Reset(old(View()), now)
    {
      currentInterval := config.initialInterval;
      startTime := now;
    }
  }

  /** Any other implementation of the interface: its answers depend on the calls made so far. */
  class ForeignBackOff {
    const behave: seq<Op> -> int
    const context: Option<Context>
    var history: seq<Op>

    ghost function View(): Policy
      reads this
    {
      Foreign(behave, history, context)
    }

    constructor (behave: seq<Op> -> int, context: Option<Context>)
      ensures View() == Foreign(behave, [], context)
    {
      this.behave, this.context, history := behave, context, [];
    }

    method NextBackOff(t: Tick) returns (d: int)
      modifies this
      ensures (View(), d) == Policies.Next(old(View()), t)
    {
      history := history + [NextOp(t)];
      d := behave(history);
    }

    method Reset(now: int)
      modifies this
      ensures View() == Policies.Reset(old(View()), now)
    {
      history := history + [ResetOp(now)];
    }
  }

  class BackOffTries {
    const delegate: BackOff
    const maxTries: nat
    var numTries: nat
    ghost const depth: nat

    /** WithMaxRetries */
    constructor (b: BackOff, max: nat)
      requires WellBuilt(b)
      ensures WellBuilt(TriesRef(this))
      ensures Objects(TriesRef(this)) == {this} + Objects(b)
      ensures delegate == b && View(TriesRef(this)) == Tries(View(b), max, 0)
    {
      delegate, maxTries, numTries := b, max, 0;
      depth := Depth(b);
      new;
      InnerDepths(b);
    }

    method NextBackOff(t: Tick) returns (d: int)
      requires WellBuilt(TriesRef(this))
      modifies Objects(TriesRef(this))
      ensures (View(TriesRef(this)), d) == Next(old(View(TriesRef(this))), t)
      decreases depth, 1
    {
      if maxTries == 0 {
        return STOP;
      }
      if maxTries > 0 {
        if maxTries <= numTries {
          return STOP;
        }
        numTries := numTries + 1;
      }
      d := CallNextBackOff(delegate, t);
    }

    method Reset(now: int)
      requires WellBuilt(TriesRef(this))
      modifies Objects(TriesRef(this))
      ensures View(TriesRef(this)) == Policies.Reset(old(View(TriesRef(this))), now)
      decreases depth, 1
    {
      numTries := 0;
      CallReset(delegate, now);
    }
  }

  ghost function Depth(b: BackOff): nat {
    if b.TriesRef? then b.t.depth + 1 else 0
  }

  /** Decorators were built from the inside out, each around an existing policy. */
  ghost predicate WellBuilt(b: BackOff)
    decreases Depth(b)
  {
    b.TriesRef? ==>
      Depth(b.t.delegate) == b.t.depth && WellBuilt(b.t.delegate) && b.t !in Objects(b.t.delegate)
  }

  /** Depths fall strictly towards the inside, so no decorator is its own delegate. */
  lemma {:induction false} InnerDepths(b: BackOff)
    requires WellBuilt(b)
    ensures forall t: BackOffTries | t in Objects(b) :: t.depth < Depth(b)
    decreases Depth(b)
  {
    if b.TriesRef? {
      InnerDepths(b.t.delegate);
    }
  }

  /** The mutable objects of a policy. */
  ghost function Objects(b: BackOff): set<object>
    decreases Depth(b)
  {
    match b
    case ExponentialRef(e) => {e}
    case ForeignRef(f) => {f}
    case TriesRef(t) => if Depth(t.delegate) == t.depth then {t} + Objects(t.delegate) else {t}
  }

  ghost function View(b: BackOff): Policy
    requires WellBuilt(b)
    reads Objects(b)
    decreases Depth(b)
  {
    match b
    case ExponentialRef(e) => e.View()
    case ForeignRef(f) => f.View()
    case TriesRef(t) => Tries(View(t.delegate), t.maxTries, t.numTries)
  }

  method CallNextBackOff(b: BackOff, t: Tick) returns (d: int)
    requires WellBuilt(b)
    modifies Objects(b)
    ensures (View(b), d) == Next(old(View(b)), t)
    decreases Depth(b), 0
  {
    match b
    case ExponentialRef(e) => d := e.NextBackOff(t);
    case ForeignRef(f) => d := f.NextBackOff(t);
    case TriesRef(tries) => d := tries.NextBackOff(t);
  }

  method CallReset(b: BackOff, now: int)
    requires WellBuilt(b)
    modifies Objects(b)
    ensures View(b) == Reset(old(View(b)), now)
    decreases Depth(b), 0
  {
    match b
    case ExponentialRef(e) => e.Reset(now);
    case ForeignRef(f) => f.Reset(now);
    case TriesRef(tries) => tries.Reset(now);
  }

  /** getContext */
  method ResolveContext(b: BackOff) returns (context: Context)
    requires WellBuilt(b)
    ensures View(b) == old(View(b))
    ensures context == GetContext(View(b))
    decreases Depth(b)
  {
    match b
    case ForeignRef(f) => context := if f.context.Some? then f.context.value else Background;
    case TriesRef(tries) => context := ResolveContext(tries.delegate);
    case ExponentialRef(_) => context := Background;
  }
}
