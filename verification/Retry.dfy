/** doRetryNotify: run an operation until it succeeds, fails for good, the policy stops or the
    context is cancelled. */
module Retry {
  import opened Prelude
  import opened Interval
  import opened Policies
  import opened Budget
  import opened BackOffObjects

  /** A Go error: one that wraps nothing, one that wraps others, one whose As method answers with a
      PermanentError, or a PermanentError. */
  datatype Error =
    | Plain(id: nat)
    | Wrapped(id: nat, inners: seq<Error>)
    | Posing(id: nat, payload: Option<Error>)
    | PermanentError(payload: Option<Error>)

  datatype Attempt<T> = Attempt(value: T, err: Option<Error>)

  /** Everything the loop meets: what attempt k of the operation returns, what call k of NextBackOff
      reads, and what the context answers when the policy stops or while the loop sleeps. */
  datatype World<T> = World(
    start: int,
    attempt: nat -> Attempt<T>,
    tick: nat -> Tick,
    stopErr: (nat, nat) -> Option<Error>,
    sleepErr: (nat, nat) -> Option<Error>)
  {
    function ErrAtStop(ctx: Context, k: nat): Option<Error> {
      if ctx.Background? then None else stopErr(ctx.id, k)
    }

    /** Some if the context is done before the timer of sleep k fires. */
    function ErrWhileSleeping(ctx: Context, k: nat): Option<Error> {
      if ctx.Background? then None else sleepErr(ctx.id, k)
    }
  }

  // ---- permanent errors ------------------------------------------------------------------

  /** The payload of the PermanentError that this error itself is or poses as. */
  function Offered(e: Error): Option<Option<Error>> {
    if e.PermanentError? || e.Posing? then Some(e.payload) else None
  }

  /** errors.As for *PermanentError: walks the tree of wrapped errors, depth first and from the outside in. */
  function FindPermanent(e: Error): Option<Option<Error>> {
    match e
    case Plain(_) => None
    case Wrapped(_, inners) => FindFirst(inners)
    case Posing(_, payload) => Some(payload)
    case PermanentError(payload) => Some(payload)
  }

  function FindFirst(errors: seq<Error>): Option<Option<Error>> {
    if errors == [] then
      None
    else
      var found := FindPermanent(errors[0]);
      if found.Some? then found else FindFirst(errors[1..])
  }

  /** What Unwrap yields. */
  function Inner(e: Error): seq<Error> {
    match e
    case Plain(_) => []
    case Wrapped(_, inners) => inners
    case _ => if e.payload.Some? then [e.payload.value] else []
  }

  /** The error at a path of the tree, given by the branch taken at each level. */
  function At(e: Error, path: seq<nat>): Option<Error>
    decreases path
  {
    if path == [] then Some(e)
    else if path[0] < |Inner(e)| then At(Inner(e)[path[0]], path[1..])
    else None
  }

  ghost predicate PermanentAt(e: Error, path: seq<nat>) {
    At(e, path).Some? && (At(e, path).value.PermanentError? || At(e, path).value.Posing?)
  }

  /** p is met before q: it lies further out on the same branch, or on a branch further to the left. */
  predicate Before(p: seq<nat>, q: seq<nat>) {
    q != [] && (p == [] || p[0] < q[0] || (p[0] == q[0] && Before(p[1..], q[1..])))
  }

  lemma {:induction false} FindsInList(errors: seq<Error>) returns (i: nat)
    ensures i <= |errors|
    ensures forall j | 0 <= j < i :: FindPermanent(errors[j]).None?
    ensures FindFirst(errors) == if i < |errors| then FindPermanent(errors[i]) else None
    ensures i < |errors| ==> FindPermanent(errors[i]).Some?
  {
    i := 0;
    if errors != [] && FindPermanent(errors[0]).None? {
      var below := FindsInList(errors[1..]);
      i := below + 1;
    }
  }

  /** A permanent error is found exactly if there is one anywhere in the tree, and the one found comes
      before every other. */
  lemma {:induction false} FindsOutermost(e: Error) returns (path: seq<nat>)
    ensures FindPermanent(e).Some? <==> exists q :: PermanentAt(e, q)
    ensures FindPermanent(e).Some? ==>
              && PermanentAt(e, path)
              && FindPermanent(e) == Offered(At(e, path).value)
              && forall q | PermanentAt(e, q) && q != path :: Before(path, q)
    decreases e
  {
    path := [];
    if e.PermanentError? || e.Posing? {
      assert PermanentAt(e, []);
    } else if e.Wrapped? {
      var i := FindsInList(e.inners);
      if i < |e.inners| {
        var below := FindsOutermost(e.inners[i]);
        path := [i] + below;
        assert path[1..] == below;
        assert PermanentAt(e, path);
      }
      forall q | PermanentAt(e, q)
        ensures q != [] && i <= q[0] < |e.inners| && PermanentAt(e.inners[q[0]], q[1..])
        ensures q != path ==> Before(path, q)
      {
        var elsewhere := FindsOutermost(e.inners[q[0]]);
        assert PermanentAt(e.inners[q[0]], q[1..]);
        assert q == [q[0]] + q[1..];
      }
    }
  }

  // ---- which attempt decides ----------------------------------------------------------------

  /** The attempt failed with an error that may be retried. */
  predicate Fails<T>(w: World<T>, k: nat) {
    w.attempt(k).err.Some? && FindPermanent(w.attempt(k).err.value).None?
  }

  /** Attempt k does not decide: it failed, the policy granted a sleep and the sleep ran its course.
      p is the policy just after the reset. */
  predicate Retries<T>(p: Policy, w: World<T>, k: nat) {
    && Fails(w, k)
    && DelayAt(p, w.tick, k) != STOP
    && w.ErrWhileSleeping(GetContext(p), k).None?
  }

  /** Attempt k is cut off by the context during its sleep. */
  predicate Cancelled<T>(p: Policy, w: World<T>, k: nat) {
    && Fails(w, k)
    && DelayAt(p, w.tick, k) != STOP
    && w.ErrWhileSleeping(GetContext(p), k).Some?
  }

  ghost predicate FirstDeciding<T>(p: Policy, w: World<T>, k: nat) {
    !Retries(p, w, k) && forall j: nat | j < k :: Retries(p, w, j)
  }

  /** Only one attempt can be the first deciding one, so the clauses of DoRetryNotify fix its result. */
  lemma FirstDecidingIsUnique<T>(p: Policy, w: World<T>, j: nat, k: nat)
    requires FirstDeciding(p, w, j) && FirstDeciding(p, w, k)
    ensures j == k
  {
    assert j < k ==> Retries(p, w, j);
  }

  /** Exactly the first n attempts were reported, each with its own error and delay, in order. */
  ghost predicate ReportsFirst<T>(notices: seq<(Error, int)>, p: Policy, w: World<T>, n: nat) {
    && |notices| == n
    && forall j: nat | j < n :: w.attempt(j).err == Some(notices[j].0) && notices[j].1 == DelayAt(p, w.tick, j)
  }

  ghost predicate SleepsFirst<T>(timers: seq<int>, p: Policy, w: World<T>, n: nat) {
    && |timers| == n
    && forall j: nat | j < n :: timers[j] == DelayAt(p, w.tick, j)
  }

  /** The error that attempt k dictates if it is the one that decides. */
  function Dictated<T>(p: Policy, w: World<T>, k: nat): Option<Error> {
    var err := w.attempt(k).err;
    if err.None? then
      None
    else if FindPermanent(err.value).Some? then
      FindPermanent(err.value).value
    else if DelayAt(p, w.tick, k) != STOP then
      w.ErrWhileSleeping(GetContext(p), k)
    else if w.ErrAtStop(GetContext(p), k).Some? then
      w.ErrAtStop(GetContext(p), k)
    else
      err
  }

  /** The sleeps started when attempt k decides: one per earlier attempt, and one more if it is the
      context that cuts the last one off. */
  function SleepsStarted<T>(p: Policy, w: World<T>, k: nat): nat {
    if Cancelled(p, w, k) then k + 1 else k
  }

  /** The calls of NextBackOff made when attempt k decides: only a failure that may be retried asks. */
  function DelaysAsked<T>(w: World<T>, k: nat): nat {
    if Fails(w, k) then k + 1 else k
  }

  lemma StateAtStart(p: Policy, ticks: nat -> Tick)
    ensures StateAt(p, ticks, 0) == p
  {
  }

  lemma NextIsCall(p: Policy, ticks: nat -> Tick, k: nat)
    ensures Next(StateAt(p, ticks, k), ticks(k)) == (StateAt(p, ticks, k + 1), DelayAt(p, ticks, k))
  {
  }

  /** The loop of doRetryNotify, entered with policy p and its context. */
  method RetryLoop<T>(b: BackOff, w: World<T>, notify: bool, ctx: Context, ghost p: Policy, ghost horizon: nat)
    returns (value: T, err: Option<Error>, attempts: nat, notices: seq<(Error, int)>, timers: seq<int>)
    requires WellBuilt(b) && View(b) == p && ctx == GetContext(p)
    requires !Retries(p, w, horizon)
    modifies Objects(b)
    ensures 1 <= attempts <= horizon + 1
    ensures FirstDeciding(p, w, attempts - 1)
    ensures value == w.attempt(attempts - 1).value
    ensures err == Dictated(p, w, attempts - 1)
    ensures SleepsFirst(timers, p, w, SleepsStarted(p, w, attempts - 1))
    ensures ReportsFirst(notices, p, w, if notify then SleepsStarted(p, w, attempts - 1) else 0)
    ensures View(b) == StateAt(p, w.tick, DelaysAsked(w, attempts - 1))
  {
    hide Next, GetContext, DelayAt, StateAt;
    notices, timers, attempts := [], [], 0;
    StateAtStart(p, w.tick);
    while true
      invariant attempts <= horizon
      invariant View(b) == StateAt(p, w.tick, attempts)
      invariant forall j: nat | j < attempts :: Retries(p, w, j)
      invariant SleepsFirst(timers, p, w, attempts)
      invariant ReportsFirst(notices, p, w, if notify then attempts else 0)
      decreases horizon - attempts
    {
      NextIsCall(p, w.tick, attempts);
      var a := w.attempt(attempts);
      value, attempts := a.value, attempts + 1;
      if a.err.None? {
        return value, None, attempts, notices, timers;
      }
      var permanent := FindPermanent(a.err.value);
      if permanent.Some? {
        return value, permanent.value, attempts, notices, timers;
      }
      var next := CallNextBackOff(b, w.tick(attempts - 1));
      if next == STOP {
        var cerr := w.ErrAtStop(ctx, attempts - 1);
        if cerr.Some? {
          return value, cerr, attempts, notices, timers;
        }
        return value, a.err, attempts, notices, timers;
      }
      if notify {
        notices := notices + [(a.err.value, next)];
      }
      timers := timers + [next];
      var done := w.ErrWhileSleeping(ctx, attempts - 1);
      if done.Some? {
        return value, done, attempts, notices, timers;
      }
    }
  }

  lemma {:induction false} ResetKeepsContext(p: Policy, now: int)
    ensures GetContext(Reset(p, now)) == GetContext(p)
  {
    if p.Tries? {
      ResetKeepsContext(p.delegate, now);
    }
  }

  /** doRetryNotify. `notices` and `timers` are the calls it makes of notify and of the timer. A loop that
      is never decided does not return; `horizon` names an attempt that decides, and the lemmas below
      give one for every policy with a limit or a budget. */
  method DoRetryNotify<T>(b: BackOff, w: World<T>, notify: bool, ghost horizon: nat)
    returns (value: T, err: Option<Error>, attempts: nat, notices: seq<(Error, int)>, timers: seq<int>)
    requires WellBuilt(b)
    requires !Retries(Reset(View(b), w.start), w, horizon)
    modifies Objects(b)
    ensures 1 <= attempts <= horizon + 1
    ensures var p, k := Reset(old(View(b)), w.start), attempts - 1;
            && FirstDeciding(p, w, k)
            && value == w.attempt(k).value
            && err == Dictated(p, w, k)
            && SleepsFirst(timers, p, w, SleepsStarted(p, w, k))
            && ReportsFirst(notices, p, w, if notify then SleepsStarted(p, w, k) else 0)
            && View(b) == StateAt(p, w.tick, DelaysAsked(w, k))
  {
    hide *;
    ghost var p := Reset(View(b), w.start);
    ResetKeepsContext(View(b), w.start);
    var ctx := ResolveContext(b);
    CallReset(b, w.start);
    value, err, attempts, notices, timers := RetryLoop(b, w, notify, ctx, p, horizon);
  }

  /** The returned error is nil exactly when the deciding attempt succeeded, or carried a permanent
      error with nothing inside. */
  lemma NilResultIff<T>(p: Policy, w: World<T>, k: nat)
    requires FirstDeciding(p, w, k)
    ensures Dictated(p, w, k).None?
       <==> w.attempt(k).err.None? || FindPermanent(w.attempt(k).err.value) == Some(None)
  {
  }

  /** What decides, told from the attempt, the delay and the context alone. An attempt is followed by another exactly
      if it failed, no permanent error occurs anywhere in its error, the policy granted a sleep and the context
      lasted through it. Of the attempt that decides, the error returned is none after a success; the payload
      of the first permanent error; the context's error if it cut off the sleep or was done when the policy
      stopped; and else the attempt's own. */
  lemma DecidedBy<T>(p: Policy, w: World<T>, k: nat) returns (path: seq<nat>)
    ensures var err, granted := w.attempt(k).err, DelayAt(p, w.tick, k) != STOP;
            var permanent := err.Some? && exists q :: PermanentAt(err.value, q);
            var cut, done := w.ErrWhileSleeping(GetContext(p), k), w.ErrAtStop(GetContext(p), k);
            && (Retries(p, w, k) <==> err.Some? && !permanent && granted && cut.None?)
            && (err.None? ==> Dictated(p, w, k) == None)
            && (permanent ==>
                  && PermanentAt(err.value, path)
                  && (forall q | PermanentAt(err.value, q) && q != path :: Before(path, q))
                  && Dictated(p, w, k) == At(err.value, path).value.payload)
            && (err.Some? && !permanent && granted && cut.Some? ==> Dictated(p, w, k) == cut)
            && (err.Some? && !permanent && !granted ==> Dictated(p, w, k) == if done.Some? then done else err)
            && (SleepsStarted(p, w, k) == if err.Some? && !permanent && granted && cut.Some? then k + 1 else k)
            && (DelaysAsked(w, k) == if err.Some? && !permanent then k + 1 else k)
  {
    hide At, FindPermanent, DelayAt;
    path := [];
    if w.attempt(k).err.Some? {
      path := FindsOutermost(w.attempt(k).err.value);
    }
  }

  /** Every attempt returns a permanent error with nothing inside. */
  function EmptyPermanentWorld(ticks: nat -> Tick): World<()> {
    World(0, _ => Attempt((), Some(PermanentError(None))), ticks, (_, _) => None, (_, _) => None)
  }

  /** A failed operation for which Retry reports success: the first attempt decides, and the error is nil. */
  lemma NilResultHappens(p: Policy, ticks: nat -> Tick)
    ensures var w := EmptyPermanentWorld(ticks);
            FirstDeciding(p, w, 0) && w.attempt(0).err.Some? && Dictated(p, w, 0).None?
  {
  }

  // ---- when some attempt decides ---------------------------------------------------------------

  /** A decorator counts every call up to its limit. */
  lemma {:induction false} TriesCount(p: Policy, ticks: nat -> Tick, k: nat)
    requires p.Tries? && p.numTries == 0 && k <= p.maxTries
    ensures var q := StateAt(p, ticks, k); q.Tries? && q.maxTries == p.maxTries && q.numTries == k
  {
    if k > 0 {
      TriesCount(p, ticks, k - 1);
    }
  }

  lemma {:induction false} SimulatesAt(p: Policy, limits: seq<nat>, flat: Policy, ticks: nat -> Tick, k: nat)
    requires limits != [] && Simulates(p, limits, flat)
    ensures Simulates(StateAt(p, ticks, k), limits, StateAt(flat, ticks, k))
    ensures DelayAt(p, ticks, k) == DelayAt(flat, ticks, k)
  {
    if k > 0 {
      SimulatesAt(p, limits, flat, ticks, k - 1);
      SimulatesNext(StateAt(p, ticks, k - 1), limits, StateAt(flat, ticks, k - 1), ticks(k - 1));
    }
    SimulatesNext(StateAt(p, ticks, k), limits, StateAt(flat, ticks, k), ticks(k));
  }

  /** Under a stack of decorators the attempt after the smallest limit decides at the latest, so an
      operation runs at most min + 1 times whatever it returns. */
  lemma SmallestLimitDecides<T>(limits: seq<nat>, base: Policy, w: World<T>)
    requires limits != []
    ensures !Retries(Reset(Stack(limits, base), w.start), w, Min(limits))
  {
    var flat := Tries(base, Min(limits), 0);
    StackedStack(limits, base);
    if Min(limits) == 0 {
      StackedLoosen(Stack(limits, base), limits, base, 0);
    }
    SimulatesReset(Stack(limits, base), limits, flat, w.start);
    SimulatesAt(Reset(Stack(limits, base), w.start), limits, Reset(flat, w.start), w.tick, Min(limits));
    TriesCount(Reset(flat, w.start), w.tick, Min(limits));
  }

  /** Without any decorator a positive time budget decides too. */
  lemma BudgetDecides<T>(p: Policy, w: World<T>) returns (k: nat)
    requires OverExponential(p)
    requires Tame(Core(p).config) && 0 < Core(p).config.maxElapsedTime && 1 <= LeastDelay(Core(p).config)
    requires ClockAdvances(Reset(p, w.start), w.start, w.tick)
    ensures k <= Core(p).config.maxElapsedTime / LeastDelay(Core(p).config)
    ensures !Retries(Reset(p, w.start), w, k)
  {
    k := StopsWithinBudget(p, w.start, w.tick);
  }

  // ---- how long a loop sleeps ---------------------------------------------------------------------

  function Sum(timers: seq<int>): int {
    if timers == [] then 0 else Sum(timers[..|timers| - 1]) + timers[|timers| - 1]
  }

  /** Timers that were all granted. */
  lemma {:induction false} SumIsSlept<T>(p: Policy, w: World<T>, timers: seq<int>)
    requires SleepsFirst(timers, p, w, |timers|)
    requires forall j: nat | j < |timers| :: 0 <= DelayAt(p, w.tick, j)
    ensures Sum(timers) == SleptBefore(p, w.tick, |timers|)
    ensures |timers| == GrantsBefore(p, w.tick, |timers|)
  {
    hide DelayAt;
    if timers != [] {
      var front := timers[..|timers| - 1];
      assert SleepsFirst(front, p, w, |front|);
      SumIsSlept(p, w, front);
    }
  }

  /** Under a positive time budget the timers that the loop starts sum to at most the budget, each is
      non-negative, and as many as were started fit in with the least delay. */
  lemma TimersWithinBudget<T>(p: Policy, w: World<T>, k: nat, timers: seq<int>)
    requires OverExponential(p)
    requires Tame(Core(p).config) && 0 < Core(p).config.maxElapsedTime
    requires ClockAdvances(Reset(p, w.start), w.start, w.tick)
    requires var q := Reset(p, w.start); FirstDeciding(q, w, k) && SleepsFirst(timers, q, w, SleepsStarted(q, w, k))
    ensures Sum(timers) <= Core(p).config.maxElapsedTime
    ensures |timers| * LeastDelay(Core(p).config) <= Core(p).config.maxElapsedTime
    ensures forall t <- timers :: 0 <= t
  {
    var c, q := Core(p).config, Reset(p, w.start);
    CoreReset(p, w.start);
    hide Next, LeastDelay;
    forall j: nat | j < |timers|
      ensures 0 <= DelayAt(q, w.tick, j)
    {
      assert Retries(q, w, j) || Cancelled(q, w, j);
      RunningRun(q, c, w.start, w.tick, j);
      RunningStep(StateAt(q, w.tick, j), c, w.start, w.tick(j));
    }
    SumIsSlept(q, w, timers);
    TimeBudget(p, w.start, w.tick, |timers|);
  }

  /** Retry under a positive time budget, with or without decorators: it needs no horizon. */
  method RetryWithinBudget<T>(b: BackOff, w: World<T>, notify: bool)
    returns (value: T, err: Option<Error>, attempts: nat, notices: seq<(Error, int)>, timers: seq<int>)
    requires WellBuilt(b) && OverExponential(View(b))
    requires var c := Core(View(b)).config; Tame(c) && 0 < c.maxElapsedTime && 1 <= LeastDelay(c)
    requires ClockAdvances(Reset(View(b), w.start), w.start, w.tick)
    modifies Objects(b)
    ensures var p, k := Reset(old(View(b)), w.start), attempts - 1;
            1 <= attempts && FirstDeciding(p, w, k) && value == w.attempt(k).value && err == Dictated(p, w, k)
    ensures var c := old(Core(View(b)).config);
            attempts <= c.maxElapsedTime / LeastDelay(c) + 1 && Sum(timers) <= c.maxElapsedTime
  {
    hide LeastDelay, Tame, ClockAdvances, OverExponential, Core, Next;
    ghost var p := View(b);
    ghost var horizon := BudgetDecides(p, w);
    value, err, attempts, notices, timers := DoRetryNotify(b, w, notify, horizon);
    TimersWithinBudget(p, w, attempts - 1, timers);
  }
}
