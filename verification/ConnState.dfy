/** ConnectState: the connection status shared by all goroutines, the goroutines that wait for it, and
    those that query it. */
module ConnState {
  import opened Prelude

  datatype Status = Connect | DisConnect

  /** A channel that has been handed out: how many Connected steps preceded its creation, how often it
      has been closed, and by which Connected step. */
  datatype Channel = Channel(createdAt: nat, closes: nat, closedBy: nat)

  /** The shared state with its history; `current` is the field conn, None for nil. */
  datatype Shared = Shared(state: Status, current: Option<nat>, channels: seq<Channel>, connects: nat)

  function Fresh(): Shared {
    Shared(DisConnect, None, [], 0)
  }

  /** GetConnChan: creates the channel if there is none. */
  function Obtain(s: Shared): Shared {
    if s.current.Some? then s
    else s.(current := Some(|s.channels|), channels := s.channels + [Channel(s.connects, 0, 0)])
  }

  /** Closing channel i for Connected step n: a second close would panic. */
  function Close(c: Channel, n: nat): Channel {
    c.(closes := c.closes + 1, closedBy := n)
  }

  /** Connected */
  function Establish(s: Shared): Shared {
    var n := s.connects + 1;
    if s.current.Some? && s.current.value < |s.channels| then
      Shared(Connect, None, s.channels[s.current.value := Close(s.channels[s.current.value], n)], n)
    else
      Shared(Connect, None, s.channels, n)
  }

  /** DisConnected */
  function Drop(s: Shared): Shared {
    s.(state := DisConnect)
  }

  /** Each channel ever handed out is either the single current, open one, created since the last
      Connected step, or has been closed exactly once, by the first Connected step after its creation;
      and there is at most one channel per interval between Connected steps. */
  ghost predicate Consistent(s: Shared) {
    && (s.current.Some? ==> s.current.value + 1 == |s.channels|)
    && (s.state == Connect ==> 1 <= s.connects)
    && (forall i | 0 <= i < |s.channels| ::
          if s.current == Some(i) then
            s.channels[i].closes == 0 && s.channels[i].createdAt == s.connects
          else
            s.channels[i].closes == 1 && s.channels[i].closedBy == s.channels[i].createdAt + 1 <= s.connects)
    && (forall i, j | 0 <= i < j < |s.channels| :: s.channels[i].createdAt < s.channels[j].createdAt)
  }

  // ---- waiters -------------------------------------------------------------------------------

  /** A goroutine inside WaitStartConnect. `checkedAt` and `since` count the Connected steps before its
      check of the status and before its subscription. */
  datatype Waiter =
    | Arrived
    | Checked(checkedAt: nat)
    | Subscribed(channel: nat, checkedAt: nat, since: nat)
    | Returned

  /** A goroutine inside SignalClient.GetConnStatus, which marks the state connected in one critical
      section and reads it in another. */
  datatype Query =
    | Idle
    | Pending
    | Answered(status: Status)

  datatype System = System(shared: Shared, waiters: seq<Waiter>, queries: seq<Query>)

  datatype Action =
    | DoConnected
    | DoDisConnected
    | QueryConnect(query: nat)
    | QueryRead(query: nat)
    | Check(waiter: nat)
    | Subscribe(waiter: nat)
    | Wake(waiter: nat)
    /** The initial offer of ConnectSignalServer, made once its WaitStartConnect has returned. */
    | InitialOffer(waiter: nat)

  predicate Enabled(y: System, a: Action) {
    match a
    case QueryConnect(q) => q < |y.queries| && y.queries[q].Idle?
    case QueryRead(q) => q < |y.queries| && y.queries[q].Pending?
    case Check(w) => w < |y.waiters| && y.waiters[w].Arrived?
    case Subscribe(w) => w < |y.waiters| && y.waiters[w].Checked?
    case Wake(w) =>
      && w < |y.waiters| && y.waiters[w].Subscribed?
      && y.waiters[w].channel < |y.shared.channels|
      && y.shared.channels[y.waiters[w].channel].closes > 0
    case InitialOffer(w) => w < |y.waiters| && y.waiters[w].Returned?
    case _ => true
  }

  function Apply(y: System, a: Action): System
    requires Enabled(y, a)
  {
    match a
    case DoConnected => y.(shared := Establish(y.shared))
    case DoDisConnected => y.(shared := Drop(y.shared))
    case QueryConnect(q) => y.(shared := Establish(y.shared), queries := y.queries[q := Pending])
    case QueryRead(q) => y.(queries := y.queries[q := Answered(y.shared.state)])
    case Check(w) =>
      var next := if y.shared.state == Connect then Returned else Checked(y.shared.connects);
      y.(waiters := y.waiters[w := next])
    case Subscribe(w) =>
      var s := Obtain(y.shared);
      var channel := if s.current.Some? then s.current.value else 0;
      y.(shared := s, waiters := y.waiters[w := Subscribed(channel, y.waiters[w].checkedAt, s.connects)])
    case Wake(w) => y.(waiters := y.waiters[w := Returned])
    case InitialOffer(_) => y
  }

  /** The actions that perform a Connected step. */
  predicate Establishes(a: Action) {
    a.DoConnected? || a.QueryConnect?
  }

  predicate Valid(y: System, acts: seq<Action>)
    decreases |acts|, 0
  {
    acts != [] ==> Valid(y, acts[..|acts| - 1]) && Enabled(Run(y, acts[..|acts| - 1]), acts[|acts| - 1])
  }

  function Run(y: System, acts: seq<Action>): System
    requires Valid(y, acts)
    decreases |acts|, 1
  {
    if acts == [] then y else Apply(Run(y, acts[..|acts| - 1]), acts[|acts| - 1])
  }

  ghost predicate Initial(y: System) {
    && y.shared == Fresh()
    && (forall w | 0 <= w < |y.waiters| :: y.waiters[w].Arrived?)
    && (forall q | 0 <= q < |y.queries| :: y.queries[q].Idle?)
  }

  /** Blocked in its select: the channel it subscribed to is still open. */
  ghost predicate Blocked(y: System, w: nat) {
    && w < |y.waiters| && y.waiters[w].Subscribed?
    && y.waiters[w].channel < |y.shared.channels|
    && y.shared.channels[y.waiters[w].channel].closes == 0
  }

  ghost predicate WaiterInv(s: Shared, w: Waiter) {
    match w
    case Arrived => true
    case Checked(at) => at <= s.connects && (at == s.connects ==> s.state == DisConnect)
    case Subscribed(channel, at, since) =>
      && channel < |s.channels| && s.channels[channel].createdAt == since
      && at <= since <= s.connects
      && (at == s.connects ==> s.state == DisConnect)
    case Returned => 1 <= s.connects
  }

  ghost predicate Inv(y: System) {
    Consistent(y.shared) && forall w | 0 <= w < |y.waiters| :: WaiterInv(y.shared, y.waiters[w])
  }

  lemma EstablishKeeps(s: Shared)
    requires Consistent(s)
    ensures Consistent(Establish(s))
    ensures forall w | WaiterInv(s, w) :: WaiterInv(Establish(s), w)
  {
  }

  lemma ObtainKeeps(s: Shared)
    requires Consistent(s)
    ensures Consistent(Obtain(s)) && Obtain(s).current.Some? && Obtain(s).connects == s.connects
    ensures forall w | WaiterInv(s, w) :: WaiterInv(Obtain(s), w)
  {
    var t := Obtain(s);
    forall i, j | 0 <= i < j < |t.channels|
      ensures t.channels[i].createdAt < t.channels[j].createdAt
    {
    }
  }

  lemma CurrentIsOpen(s: Shared)
    requires Consistent(s) && s.current.Some?
    ensures s.current.value + 1 == |s.channels| && s.channels[s.current.value].closes == 0
  {
  }

  lemma InvStep(y: System, a: Action)
    requires Inv(y) && Enabled(y, a)
    ensures Inv(Apply(y, a))
  {
    EstablishKeeps(y.shared);
    ObtainKeeps(y.shared);
    hide Consistent;
  }

  lemma InitialInv(y: System)
    requires Initial(y)
    ensures Inv(y)
  {
  }

  lemma SameWaiters(y: System, a: Action)
    requires Enabled(y, a)
    ensures |Apply(y, a).waiters| == |y.waiters|
  {
  }

  lemma {:induction false} RunKeepsInv(y: System, acts: seq<Action>)
    requires Initial(y) && Valid(y, acts)
    ensures Inv(Run(y, acts))
    ensures |Run(y, acts).waiters| == |y.waiters|
  {
    hide Apply, Inv, Enabled;
    if acts == [] {
      InitialInv(y);
    } else {
      var before := acts[..|acts| - 1];
      RunKeepsInv(y, before);
      InvStep(Run(y, before), acts[|acts| - 1]);
      SameWaiters(Run(y, before), acts[|acts| - 1]);
    }
  }

  // ---- what the users of ConnectState rely on ----------------------------------------------------

  /** Every channel ever handed out is the current one and open, or closed exactly once by the first
      Connected step after its creation; so no step closes a channel twice, and none closes nil. */
  lemma {:induction false} ChannelHistory(y: System, acts: seq<Action>, i: nat)
    requires Initial(y) && Valid(y, acts) && i < |Run(y, acts).shared.channels|
    ensures var s := Run(y, acts).shared;
            && (s.channels[i].closes == 0 <==> s.current == Some(i))
            && (s.current == Some(i) ==> i + 1 == |s.channels| && s.channels[i].createdAt == s.connects)
            && (s.current != Some(i) ==>
                  s.channels[i].closes == 1 && s.channels[i].closedBy == s.channels[i].createdAt + 1 <= s.connects)
  {
    RunKeepsInv(y, acts);
  }

  /** A waiter is blocked exactly as long as no Connected step has occurred since it subscribed, and a
      waiter has returned only if some Connected step has occurred; so no initial offer precedes the
      first Connected step. */
  lemma WaiterGuarantee(y: System, acts: seq<Action>, w: nat)
    requires Initial(y) && Valid(y, acts) && w < |y.waiters|
    ensures var now := Run(y, acts);
            && w < |now.waiters|
            && (now.waiters[w].Returned? || Enabled(now, InitialOffer(w)) ==> 1 <= now.shared.connects)
            && (now.waiters[w].Subscribed? ==>
                  (Blocked(now, w) <==> now.waiters[w].since == now.shared.connects)
                  && (Enabled(now, Wake(w)) <==> now.waiters[w].since < now.shared.connects))
  {
    RunKeepsInv(y, acts);
    assert WaiterInv(Run(y, acts).shared, Run(y, acts).waiters[w]);
  }

  /** A Connected step (a status query performs one too) unblocks every waiter subscribed before it. */
  lemma ConnectedUnblocks(y: System, acts: seq<Action>, a: Action, w: nat)
    requires Initial(y) && Valid(y, acts) && Establishes(a) && Enabled(Run(y, acts), a)
    requires w < |Run(y, acts).waiters| && Run(y, acts).waiters[w].Subscribed?
    ensures !Blocked(Apply(Run(y, acts), a), w) && Enabled(Apply(Run(y, acts), a), Wake(w))
  {
    RunKeepsInv(y, acts);
    var now := Run(y, acts);
    assert WaiterInv(now.shared, now.waiters[w]);
  }

  /** In a connected state a waiter is blocked exactly when a Connected step fell between its check of
      the status and its subscription, and none has followed. */
  lemma MissedWakeupIff(y: System, acts: seq<Action>, w: nat)
    requires Initial(y) && Valid(y, acts) && w < |y.waiters|
    requires Run(y, acts).shared.state == Connect
    ensures var now := Run(y, acts);
            w < |now.waiters| &&
            (Blocked(now, w) <==>
               now.waiters[w].Subscribed? && now.waiters[w].checkedAt < now.waiters[w].since == now.shared.connects)
  {
    RunKeepsInv(y, acts);
    var now := Run(y, acts);
    assert WaiterInv(now.shared, now.waiters[w]);
  }

  /** And it does arise: connected, and yet a waiter stays blocked until the next Connected step. */
  lemma MissedWakeupHappens()
    ensures var y := System(Fresh(), [Arrived], []);
            var acts := [Check(0), DoConnected, Subscribe(0)];
            && Initial(y) && Valid(y, acts)
            && Run(y, acts).shared.state == Connect && Blocked(Run(y, acts), 0)
  {
    var y := System(Fresh(), [Arrived], []);
    var acts := [Check(0), DoConnected, Subscribe(0)];
    assert acts[..2] == [Check(0), DoConnected] && acts[..2][..1] == [Check(0)] && acts[..2][..1][..0] == [];
    assert Run(y, []) == y;
    assert Run(y, [Check(0)]) == Apply(y, Check(0));
    assert Run(y, [Check(0), DoConnected]) == Apply(Apply(y, Check(0)), DoConnected);
  }

  // ---- the check of a waiter -------------------------------------------------------------------------

  /** Some Connected step has come, and no DisConnected step after it. */
  ghost predicate ConnectsLast(acts: seq<Action>) {
    exists i :: 0 <= i < |acts| && Establishes(acts[i]) && forall k | i < k < |acts| :: !acts[k].DoDisConnected?
  }

  lemma ConnectsLastStep(acts: seq<Action>)
    requires acts != []
    ensures ConnectsLast(acts)
       <==> (Establishes(acts[|acts| - 1])
             || (!acts[|acts| - 1].DoDisConnected? && ConnectsLast(acts[..|acts| - 1])))
  {
    var n := |acts| - 1;
    var front := acts[..n];
    if ConnectsLast(acts) {
      var i :| 0 <= i < |acts| && Establishes(acts[i]) && forall k | i < k < |acts| :: !acts[k].DoDisConnected?;
      assert i < n ==> front[i] == acts[i];
    }
    if ConnectsLast(front) && !acts[n].DoDisConnected? {
      var i :| 0 <= i < n && Establishes(front[i]) && forall k | i < k < n :: !front[k].DoDisConnected?;
      assert acts[i] == front[i];
      assert forall k | i < k < n :: acts[k] == front[k];
    }
  }

  lemma {:induction false} StateOfRun(y: System, acts: seq<Action>)
    requires Initial(y) && Valid(y, acts)
    ensures Run(y, acts).shared.state == Connect <==> ConnectsLast(acts)
  {
    if acts != [] {
      StateOfRun(y, acts[..|acts| - 1]);
      ConnectsLastStep(acts);
    }
  }

  /** WaitStartConnect returns at once exactly if, at its check, a Connected step came last of the steps that set
      the status; otherwise the waiter goes on to subscribe, and then waits for a channel that is open. */
  lemma CheckIff(y: System, acts: seq<Action>, w: nat)
    requires Initial(y) && Valid(y, acts) && Enabled(Run(y, acts), Check(w))
    ensures var checked := Apply(Run(y, acts), Check(w));
            && w < |checked.waiters|
            && (checked.waiters[w].Returned? <==> ConnectsLast(acts))
            && (!checked.waiters[w].Returned? ==>
                  Enabled(checked, Subscribe(w)) && Blocked(Apply(checked, Subscribe(w)), w))
  {
    StateOfRun(y, acts);
    RunKeepsInv(y, acts);
    ObtainKeeps(Run(y, acts).shared);
    CurrentIsOpen(Obtain(Run(y, acts).shared));
    hide Consistent, ConnectsLast;
  }

  // ---- status queries -------------------------------------------------------------------------------

  ghost predicate NoneEstablishes(acts: seq<Action>, i: nat, n: nat)
    requires n <= |acts|
  {
    forall k | i < k < n :: !Establishes(acts[k])
  }

  /** Between actions i and n a DisConnected step comes last of the steps that set the status. */
  ghost predicate DropsLast(acts: seq<Action>, i: nat, n: nat)
    requires n <= |acts|
  {
    exists j :: i < j < n && acts[j].DoDisConnected? && NoneEstablishes(acts, j, n)
  }

  lemma DropsLastStep(acts: seq<Action>, i: nat)
    requires acts != [] && i < |acts| - 1
    ensures DropsLast(acts, i, |acts|)
       <==> (acts[|acts| - 1].DoDisConnected?
             || (!Establishes(acts[|acts| - 1]) && DropsLast(acts[..|acts| - 1], i, |acts| - 1)))
  {
    var n := |acts| - 1;
    var front := acts[..n];
    if acts[n].DoDisConnected? {
      assert NoneEstablishes(acts, n, |acts|);
    } else if !Establishes(acts[n]) {
      if DropsLast(front, i, n) {
        var j :| i < j < n && front[j].DoDisConnected? && NoneEstablishes(front, j, n);
        forall k | j < k < |acts| ensures !Establishes(acts[k]) {
          assert k < n ==> acts[k] == front[k];
        }
        assert NoneEstablishes(acts, j, |acts|);
      }
      if DropsLast(acts, i, |acts|) {
        var j :| i < j < |acts| && acts[j].DoDisConnected? && NoneEstablishes(acts, j, |acts|);
        assert front[j] == acts[j];
        assert NoneEstablishes(front, j, n);
      }
    }
  }

  /** After a Connected step the state is disconnected exactly if a DisConnected step has come last. */
  lemma {:induction false} StateSince(y: System, acts: seq<Action>, i: nat)
    requires Valid(y, acts) && i < |acts| && Establishes(acts[i])
    ensures Run(y, acts).shared.state == DisConnect <==> DropsLast(acts, i, |acts|)
    decreases |acts|
  {
    if i < |acts| - 1 {
      StateSince(y, acts[..|acts| - 1], i);
      DropsLastStep(acts, i);
    }
  }

  lemma {:induction false} PendingSince(y: System, acts: seq<Action>, q: nat) returns (i: nat)
    requires Initial(y) && Valid(y, acts)
    requires q < |Run(y, acts).queries| && Run(y, acts).queries[q].Pending?
    ensures i < |acts| && acts[i] == QueryConnect(q)
    decreases |acts|
  {
    i := |acts| - 1;
    if acts[i] != QueryConnect(q) {
      i := PendingSince(y, acts[..|acts| - 1], q);
    }
  }

  /** A query has its own Connected step at i and its read at n. It answers "connect" unless, between
      the two, a DisConnected step has come last. */
  lemma {:induction false} QueryAnswerIff(y: System, acts: seq<Action>, q: nat) returns (i: nat, n: nat)
    requires Initial(y) && Valid(y, acts)
    requires q < |Run(y, acts).queries| && Run(y, acts).queries[q].Answered?
    ensures i < n < |acts| && acts[i] == QueryConnect(q) && acts[n] == QueryRead(q)
    ensures Run(y, acts).queries[q].status == DisConnect <==> DropsLast(acts[..n], i, n)
    decreases |acts|
  {
    n := |acts| - 1;
    var front := acts[..n];
    if acts[n] == QueryRead(q) {
      i := PendingSince(y, front, q);
      StateSince(y, front, i);
    } else {
      i, n := QueryAnswerIff(y, front, q);
      assert front[..n] == acts[..n];
    }
  }

  /** And a query does answer "disconnect", although it has just performed a Connected step. */
  lemma QueryAnswersDisConnect()
    ensures var y := System(Fresh(), [], [Idle]);
            var acts := [QueryConnect(0), DoDisConnected, QueryRead(0)];
            && Initial(y) && Valid(y, acts)
            && Run(y, acts).queries == [Answered(DisConnect)]
  {
    var y := System(Fresh(), [], [Idle]);
    var acts := [QueryConnect(0), DoDisConnected, QueryRead(0)];
    assert acts[..2] == [QueryConnect(0), DoDisConnected] && acts[..2][..1] == [QueryConnect(0)];
    assert acts[..2][..1][..0] == [];
    assert Run(y, []) == y;
    assert Run(y, [QueryConnect(0)]) == Apply(y, QueryConnect(0));
    assert Run(y, [QueryConnect(0), DoDisConnected]) == Apply(Apply(y, QueryConnect(0)), DoDisConnected);
  }

  // ---- critical sections of other goroutines ------------------------------------------------------

  datatype Step = Establishing | Dropping | Obtaining

  function AfterStep(s: Shared, step: Step): Shared {
    match step
    case Establishing => Establish(s)
    case Dropping => Drop(s)
    case Obtaining => Obtain(s)
  }

  function AfterSteps(s: Shared, steps: seq<Step>): Shared {
    if steps == [] then s else AfterStep(AfterSteps(s, steps[..|steps| - 1]), steps[|steps| - 1])
  }

  /** Some step disconnects, and none after it connects. */
  predicate EndsDropped(steps: seq<Step>) {
    steps != [] && (steps[|steps| - 1].Dropping?
                    || (steps[|steps| - 1].Obtaining? && EndsDropped(steps[..|steps| - 1])))
  }

  lemma {:induction false} StateAfterSteps(s: Shared, steps: seq<Step>)
    requires s.state == Connect
    ensures AfterSteps(s, steps).state == DisConnect <==> EndsDropped(steps)
  {
    if steps != [] {
      StateAfterSteps(s, steps[..|steps| - 1]);
    }
  }

  // ---- the objects ---------------------------------------------------------------------------------

  class Chan {
    var closes: nat
    ghost const createdAt: nat
    ghost var closedBy: nat

    constructor (ghost createdAt: nat)
      ensures closes == 0 && closedBy == 0 && this.createdAt == createdAt
    {
      closes := 0;
      this.createdAt := createdAt;
      closedBy := 0;
    }

    /** close(ch) */
    method Close(ghost step: nat)
      requires closes == 0
      modifies this
      ensures closes == 1 && closedBy == step
    {
      closes := 1;
      closedBy := step;
    }
  }

  class ConnectState {
    var state: Status
    var conn: Chan?
    ghost var handedOut: seq<Chan>
    ghost var connects: nat

    ghost function Index(): Option<nat>
      reads this
    {
      if conn == null || handedOut == [] then None else Some(|handedOut| - 1)
    }

    ghost function View(): Shared
      reads this, handedOut
    {
      Shared(state, Index(),
             seq(|handedOut|, i requires 0 <= i < |handedOut| reads this, handedOut =>
               Channel(handedOut[i].createdAt, handedOut[i].closes, handedOut[i].closedBy)),
             connects)
    }

    ghost predicate Valid()
      reads this, handedOut
    {
      && Consistent(View())
      && (conn != null ==> handedOut != [] && handedOut[|handedOut| - 1] == conn)
      && (forall i, j | 0 <= i < j < |handedOut| :: handedOut[i] != handedOut[j])
    }

    constructor ()
      ensures Valid() && View() == Fresh()
    {
      state, conn := DisConnect, null;
      handedOut, connects := [], 0;
    }

    method IsConnected() returns (connected: bool)
      requires Valid()
      ensures connected <==> View().state == Connect
    {
      connected := state == Connect;
    }

    method GetConnChan() returns (ch: Chan)
      requires Valid()
      modifies this
      ensures Valid() && View() == Obtain(old(View()))
      ensures handedOut != [] && ch == handedOut[|handedOut| - 1] && ch.closes == 0
      ensures conn == ch && if old(conn) == null then fresh(ch) else ch == old(conn)
    {
      hide Consistent;
      ObtainKeeps(View());
      CurrentIsOpen(Obtain(View()));
      if conn == null {
        var c := new Chan(connects);
        assert forall i | 0 <= i < |handedOut| :: handedOut[i] != c;
        conn := c;
        handedOut := handedOut + [c];
        assert View().channels == old(View()).channels + [Channel(connects, 0, 0)];
      }
      assert View() == Obtain(old(View()));
      assert View().channels[|handedOut| - 1].closes == 0;
      ch := conn;
    }

    method Connected()
      requires Valid()
      modifies this, conn
      ensures Valid() && View() == Establish(old(View()))
      ensures handedOut == old(handedOut) && conn == null
    {
      EstablishKeeps(View());
      state := Connect;
      connects := connects + 1;
      if conn != null {
        assert old(View()).channels[|handedOut| - 1].closes == 0;
        conn.Close(connects);
        conn := null;
      }
      assert View().channels == Establish(old(View())).channels;
    }

    method DisConnected()
      requires Valid()
      modifies this`state
      ensures Valid() && View() == Drop(old(View()))
    {
      state := DisConnect;
      assert View().channels == old(View()).channels;
    }

    method GetConnStatus() returns (s: Status)
      requires Valid()
      ensures s == View().state
    {
      s := state;
    }

    /** A critical section of some other goroutine. */
    method Perform(step: Step)
      requires Valid()
      modifies this, conn
      ensures Valid() && View() == AfterStep(old(View()), step)
      ensures conn == null || conn == old(conn) || fresh(conn)
    {
      hide Consistent;
      match step
      case Establishing => Connected();
      case Dropping => DisConnected();
      case Obtaining =>
        var ch := GetConnChan();
    }

    /** SignalClient.GetConnStatus. `between` is what other goroutines do between its two critical
        sections; the query answers "connect" unless they disconnect last. */
    method QueryStatus(between: seq<Step>) returns (s: Status)
      requires Valid()
      modifies this, conn
      ensures Valid() && View() == AfterSteps(Establish(old(View())), between)
      ensures s == View().state
      ensures s == DisConnect <==> EndsDropped(between)
    {
      hide Consistent;
      Connected();
      ghost var connected := View();
      for k := 0 to |between|
        invariant Valid() && View() == AfterSteps(connected, between[..k])
        invariant conn == null || fresh(conn)
      {
        assert between[..k + 1][..k] == between[..k];
        Perform(between[k]);
      }
      assert between[..|between|] == between;
      StateAfterSteps(connected, between);
      s := GetConnStatus();
    }
  }
}
