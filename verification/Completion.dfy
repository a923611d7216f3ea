/** The handshake can complete: from every initial mesh some run connects both ends of any given link. */
module Completion {
  import opened Prelude
  import opened Handshake

  /** What one link sees of the mesh: the Ice at its ends and the messages in flight. */
  ghost predicate At(m: Mesh, l: Link, here: Ice, there: Ice, net: seq<Envelope>) {
    && l in m.peers && Flip(l) in m.peers && l != Flip(l)
    && m.peers[l] == here && m.peers[Flip(l)] == there
    && m.net == net
  }

  /** One more action at the link. */
  lemma StepHere(m: Mesh, acts: seq<Action>, a: Action, l: Link, here: Ice, there: Ice, net: seq<Envelope>)
    requires Valid(m, acts) && At(Run(m, acts), l, here, there, net)
    requires Enabled(Run(m, acts), a) && LinkOf(Run(m, acts), a) == Some(l)
    ensures Valid(m, acts + [a])
    ensures At(Run(m, acts + [a]), l, IceAfter(Run(m, acts), a), there, NetAfter(Run(m, acts), a))
  {
    hide IceAfter, NetAfter, Enabled, Run, Valid;
    AppendAction(m, acts, a);
  }

  /** The same state, seen from the other end. */
  lemma Turned(m: Mesh, l: Link, here: Ice, there: Ice, net: seq<Envelope>)
    requires At(m, l, here, there, net)
    ensures At(m, Flip(l), there, here, net)
  {
    assert Flip(Flip(l)) == l;
  }

  /** Start the gathering process and reach the select; the offer reaches the network or not. */
  lemma Begin(m: Mesh, acts: seq<Action>, l: Link, here: Ice, there: Ice, net: seq<Envelope>, reaches: bool)
    returns (more: seq<Action>)
    requires Valid(m, acts) && At(Run(m, acts), l, here, there, net) && here.phase.NotStarted?
    ensures Valid(m, more)
    ensures At(Run(m, more), l, here.(phase := Selecting, offering := false), there,
               if reaches then net + [Message(here, Offer)] else net)
  {
    hide Run, Valid, Apply;
    StepHere(m, acts, Start(l), l, here, there, net);
    var started := acts + [Start(l)];
    var i := StartGathering(here);
    StepHere(m, started, ReachSelect(l), l, i, there, net);
    var selecting := started + [ReachSelect(l)];
    var j := i.(phase := Selecting);
    StepHere(m, selecting, SignalOffer(l, reaches), l, j, there, net);
    more := selecting + [SignalOffer(l, reaches)];
  }

  /** Gather the candidates and begin to connect. */
  lemma Dial(m: Mesh, acts: seq<Action>, l: Link, here: Ice, there: Ice, net: seq<Envelope>) returns (more: seq<Action>)
    requires Valid(m, acts) && At(Run(m, acts), l, here, there, net) && here.phase.Gathering?
    ensures Valid(m, more) && At(Run(m, more), l, AfterGather(here, true), there, net)
  {
    StepHere(m, acts, Gather(l, true), l, here, there, net);
    more := acts + [Gather(l, true)];
  }

  /** Finish connecting, report, and wait in the select again. */
  lemma Settle(m: Mesh, acts: seq<Action>, l: Link, here: Ice, there: Ice, net: seq<Envelope>)
    returns (more: seq<Action>)
    requires Valid(m, acts) && At(Run(m, acts), l, here, there, net) && here.phase.Connecting? && here.conn.Some?
    ensures Valid(m, more)
    ensures At(Run(m, more), l, here.(phase := Selecting, conn := Some(here.conn.value.(established := true))),
               there, net)
  {
    hide Run, Valid, Apply;
    StepHere(m, acts, FinishConn(l, true), l, here, there, net);
    var finished := acts + [FinishConn(l, true)];
    var i := AfterConn(here, true);
    StepHere(m, finished, Report(l, true), l, i, there, net);
    more := finished + [Report(l, true)];
  }

  /** Take the message in flight; an offer is answered. */
  lemma Take(m: Mesh, acts: seq<Action>, l: Link, here: Ice, there: Ice, e: Envelope) returns (more: seq<Action>)
    requires Valid(m, acts) && At(Run(m, acts), l, here, there, [e]) && here.phase.Selecting? && Target(e) == l
    ensures Valid(m, more)
    ensures At(Run(m, more), l, here.(phase := Gathering(e.credentials)), there,
               if e.kind.Offer? then [Message(here, Answer)] else [])
  {
    hide Run, Valid, Apply;
    StepHere(m, acts, Deliver(0), l, here, there, [e]);
    more := acts + [Deliver(0)];
    assert RemoveAt([e], 0) == [];
    if e.kind.Offer? {
      var i := here.(phase := Answering(e.credentials));
      StepHere(m, more, SignalAnswer(l, true, true), l, i, there, []);
      more := more + [SignalAnswer(l, true, true)];
    }
  }

  /** The Ice after a handshake that has gone through. */
  function Connected(i: Ice, remote: Ice): Ice {
    i.(phase := Selecting, offering := false, conn := Some(Conn(remote.agent, RoleOf(i), true)))
  }

  /** l offers, the other end answers, both dial, both settle. */
  lemma Exchange(m: Mesh, l: Link, i: Ice, j: Ice) returns (acts: seq<Action>)
    requires At(m, l, i, j, []) && i.phase.NotStarted? && j.phase.NotStarted?
    requires Target(Message(i, Offer)) == Flip(l) && Target(Message(j, Answer)) == l
    ensures Valid(m, acts) && At(Run(m, acts), l, Connected(i, j), Connected(j, i), [])
  {
    var f := Flip(l);
    assert Run(m, []) == m && Valid(m, []);
    hide Run, Valid, Apply, At;
    acts := Begin(m, [], l, i, j, [], true);
    var i1, j1 := i.(phase := Selecting, offering := false), j.(phase := Selecting, offering := false);
    var offer := Message(i, Offer);
    assert [] + [offer] == [offer];
    Turned(Run(m, acts), l, i1, j, [offer]);
    acts := Begin(m, acts, f, j, i1, [offer], false);
    acts := Take(m, acts, f, j1, i1, offer);
    var j2 := j1.(phase := Gathering(i.agent));
    Turned(Run(m, acts), f, j2, i1, [Message(j, Answer)]);
    acts := Take(m, acts, l, i1, j2, Message(j, Answer));
    var i2 := i1.(phase := Gathering(j.agent));
    acts := Dial(m, acts, l, i2, j2, []);
    var i3 := AfterGather(i2, true);
    Turned(Run(m, acts), l, i3, j2, []);
    acts := Dial(m, acts, f, j2, i3, []);
    acts := Settle(m, acts, f, AfterGather(j2, true), i3, []);
    Turned(Run(m, acts), f, Connected(j, i), i3, []);
    acts := Settle(m, acts, l, i3, Connected(j, i), []);
  }

  /** From every initial mesh, for every link: a run after which both ends have established a connection
      with each other's credentials and wait for the next message, with nothing left in flight. */
  lemma HandshakeCanComplete(m: Mesh, l: Link) returns (acts: seq<Action>)
    requires Initial(m) && l in m.peers
    ensures Valid(m, acts)
    ensures var peers := Run(m, acts).peers;
            && l in peers && Flip(l) in peers && Flip(l) in m.peers
            && peers[l] == Connected(m.peers[l], m.peers[Flip(l)])
            && peers[Flip(l)] == Connected(m.peers[Flip(l)], m.peers[l])
            && Run(m, acts).net == []
  {
    assert KeyedAt(m.peers, l);
    assert KeyedAt(m.peers, Flip(l));
    acts := Exchange(m, l, m.peers[l], m.peers[Flip(l)]);
    hide Run, Valid;
  }
}
