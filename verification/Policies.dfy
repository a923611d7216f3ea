/** Back-off policies as values: the exponential generator, any foreign generator, and the max-tries
    decorator, which can be stacked. */
module Policies {
  import opened Prelude
  import opened Interval
  import Jitter

  /** What a call of NextBackOff reads from outside: the clock and a random number. */
  datatype Tick = Tick(now: int, random: real)

  datatype Op = NextOp(tick: Tick) | ResetOp(now: int)

  datatype Context = Background | Cancellable(id: nat)

  /** A value of the BackOff interface. A foreign generator may react to its whole history of calls;
      it carries a context if it also implements BackOffContext. */
  datatype Policy =
    | Exponential(config: Config, currentInterval: int, startTime: int)
    | Foreign(behave: seq<Op> -> int, history: seq<Op>, context: Option<Context>)
    | Tries(delegate: Policy, maxTries: nat, numTries: nat)

  function Next(p: Policy, t: Tick): (Policy, int) {
    match p
    case Exponential(c, current, start) =>
      var elapsed := t.now - start;
      var next := Jitter.Delay(c.randomizationFactor, t.random, current);
      var p' := Exponential(c, Increment(c, current), start);
      if c.maxElapsedTime != 0 && elapsed + next > c.maxElapsedTime then (p', c.stop) else (p', next)
    case Foreign(behave, history, context) =>
      var history' := history + [NextOp(t)];
      (Foreign(behave, history', context), behave(history'))
    case Tries(delegate, max, num) =>
      if max <= num then
        (p, STOP)
      else
        var (delegate', d) := Next(delegate, t);
        (Tries(delegate', max, num + 1), d)
  }

  function Reset(p: Policy, now: int): Policy {
    match p
    case Exponential(c, _, _) => Exponential(c, c.initialInterval, now)
    case Foreign(behave, history, context) => Foreign(behave, history + [ResetOp(now)], context)
    case Tries(delegate, max, _) => Tries(Reset(delegate, now), max, 0)
  }

  function GetContext(p: Policy): Context {
    match p
    case Exponential(_, _, _) => Background
    case Foreign(_, _, context) => if context.Some? then context.value else Background
    case Tries(delegate, _, _) => GetContext(delegate)
  }

  /** Runs a history of calls; the delays handed out are collected in order. */
  function Run(p: Policy, ops: seq<Op>): (Policy, seq<int>)
    decreases ops
  {
    if ops == [] then
      (p, [])
    else
      match ops[0]
      case NextOp(t) =>
        var (p', d) := Next(p, t);
        var (p'', ds) := Run(p', ops[1..]);
        (p'', [d] + ds)
      case ResetOp(now) =>
        Run(Reset(p, now), ops[1..])
  }

  // ---- stacked decorators are one decorator ---------------------------------------------

  /** WithMaxRetries applied once per limit, the first limit outermost. */
  function Stack(limits: seq<nat>, base: Policy): Policy {
    if limits == [] then base else Tries(Stack(limits[1..], base), limits[0], 0)
  }

  function Min(limits: seq<nat>): (m: nat)
    requires limits != []
    ensures m in limits && forall x <- limits :: m <= x
  {
    if |limits| == 1 then limits[0]
    else
      var m := Min(limits[1..]);
      assert limits == [limits[0]] + limits[1..];
      if limits[0] <= m then limits[0] else m
  }

  /** p is a stack with these limits over base whose counters lie between n and their limits; once
      `tight` they are all n. */
  ghost predicate Stacked(p: Policy, limits: seq<nat>, base: Policy, n: nat, tight: bool)
    decreases limits
  {
    if limits == [] then
      p == base
    else
      && p.Tries? && p.maxTries == limits[0]
      && n <= p.numTries <= p.maxTries
      && (tight ==> p.numTries == n)
      && Stacked(p.delegate, limits[1..], base, n, tight)
  }

  lemma {:induction false} StackedReset(p: Policy, limits: seq<nat>, base: Policy, n: nat, tight: bool, now: int)
    requires Stacked(p, limits, base, n, tight)
    ensures Stacked(Reset(p, now), limits, Reset(base, now), 0, true)
    decreases limits
  {
    if limits != [] {
      StackedReset(p.delegate, limits[1..], base, n, tight, now);
    }
  }

  lemma {:induction false} StackedStack(limits: seq<nat>, base: Policy)
    ensures Stacked(Stack(limits, base), limits, base, 0, true)
    decreases limits
  {
    if limits != [] {
      StackedStack(limits[1..], base);
    }
  }

  lemma {:induction false} StackedLoosen(p: Policy, limits: seq<nat>, base: Policy, n: nat)
    requires Stacked(p, limits, base, n, true)
    ensures Stacked(p, limits, base, n, false)
    decreases limits
  {
    if limits != [] {
      StackedLoosen(p.delegate, limits[1..], base, n);
    }
  }

  /** Below every limit, a tight stack passes the call through and stays tight. */
  lemma {:induction false} StackedPass(p: Policy, limits: seq<nat>, base: Policy, n: nat, t: Tick)
    requires Stacked(p, limits, base, n, true)
    requires forall m <- limits :: n < m
    ensures Next(p, t).1 == Next(base, t).1
    ensures Stacked(Next(p, t).0, limits, Next(base, t).0, n + 1, true)
    decreases limits
  {
    if limits != [] {
      assert limits[0] in limits && forall m | m in limits[1..] :: m in limits;
      StackedPass(p.delegate, limits[1..], base, n, t);
    }
  }

  /** Once some limit equals n, the stack stops without calling its base. */
  lemma {:induction false} StackedBlock(p: Policy, limits: seq<nat>, base: Policy, n: nat, t: Tick)
    requires Stacked(p, limits, base, n, false)
    requires n in limits
    ensures Next(p, t).1 == STOP
    ensures Stacked(Next(p, t).0, limits, base, n, false)
    decreases limits
  {
    if p.maxTries > p.numTries {
      StackedBlock(p.delegate, limits[1..], base, n, t);
    }
  }

  /** The stack simulates the single decorator with the smallest limit. */
  ghost predicate Simulates(p: Policy, limits: seq<nat>, flat: Policy)
    requires limits != []
  {
    && flat.Tries? && flat.maxTries == Min(limits) && flat.numTries <= flat.maxTries
    && Stacked(p, limits, flat.delegate, flat.numTries, flat.numTries < flat.maxTries)
  }

  lemma SimulatesNext(p: Policy, limits: seq<nat>, flat: Policy, t: Tick)
    requires limits != [] && Simulates(p, limits, flat)
    ensures Next(p, t).1 == Next(flat, t).1
    ensures Simulates(Next(p, t).0, limits, Next(flat, t).0)
  {
    if flat.numTries < flat.maxTries {
      StackedPass(p, limits, flat.delegate, flat.numTries, t);
      StackedLoosen(Next(p, t).0, limits, Next(flat.delegate, t).0, flat.numTries + 1);
    } else {
      StackedBlock(p, limits, flat.delegate, flat.numTries, t);
    }
  }

  lemma SimulatesReset(p: Policy, limits: seq<nat>, flat: Policy, now: int)
    requires limits != [] && Simulates(p, limits, flat)
    ensures Simulates(Reset(p, now), limits, Reset(flat, now))
  {
    StackedReset(p, limits, flat.delegate, flat.numTries, flat.numTries < flat.maxTries, now);
    StackedLoosen(Reset(p, now), limits, Reset(flat.delegate, now), 0);
  }

  lemma {:induction false} SimulatesRun(p: Policy, limits: seq<nat>, flat: Policy, ops: seq<Op>)
    requires limits != [] && Simulates(p, limits, flat)
    ensures Run(p, ops).1 == Run(flat, ops).1
    ensures Simulates(Run(p, ops).0, limits, Run(flat, ops).0)
    decreases ops
  {
    if ops != [] {
      match ops[0]
      case NextOp(t) =>
        SimulatesNext(p, limits, flat, t);
        SimulatesRun(Next(p, t).0, limits, Next(flat, t).0, ops[1..]);
      case ResetOp(now) =>
        SimulatesReset(p, limits, flat, now);
        SimulatesRun(Reset(p, now), limits, Reset(flat, now), ops[1..]);
    }
  }

  /** A stack resolves to the context of the policy underneath: the one it carries, or the background. */
  lemma {:induction false} StackContext(limits: seq<nat>, base: Policy)
    ensures GetContext(Stack(limits, base)) == GetContext(base)
    ensures !base.Tries? ==>
              GetContext(base) == if base.Foreign? && base.context.Some? then base.context.value else Background
    decreases limits
  {
    if limits != [] {
      StackContext(limits[1..], base);
    }
  }

  /** Any non-empty stack of decorators hands out, over any history of NextBackOff and Reset calls,
      the same delays as one decorator with the smallest limit; the delegate underneath ends in the
      same state, both resolve to the same context, and no counter passes its limit. */
  lemma Flattening(limits: seq<nat>, base: Policy, ops: seq<Op>)
    requires limits != []
    ensures Run(Stack(limits, base), ops).1 == Run(Tries(base, Min(limits), 0), ops).1
    ensures var flat := Run(Tries(base, Min(limits), 0), ops).0;
            && flat.Tries? && flat.numTries <= Min(limits)
            && Stacked(Run(Stack(limits, base), ops).0, limits, flat.delegate, flat.numTries, false)
    ensures GetContext(Stack(limits, base)) == GetContext(Tries(base, Min(limits), 0))
  {
    StackedStack(limits, base);
    StackedLoosen(Stack(limits, base), limits, base, 0);
    var flat := Tries(base, Min(limits), 0);
    SimulatesRun(Stack(limits, base), limits, flat, ops);
    StackContext(limits, base);
    var p', flat' := Run(Stack(limits, base), ops).0, Run(flat, ops).0;
    if flat'.numTries < flat'.maxTries {
      StackedLoosen(p', limits, flat'.delegate, flat'.numTries);
    }
  }
}
