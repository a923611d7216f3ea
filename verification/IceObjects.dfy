/** The mutable Ice and Conn objects behind the protocol: each method performs the atomic steps of the
    state machine on the object's view. */
module IceObjects {
  import opened Prelude
  import opened ByteOrder
  import H = Handshake

  /** Outcomes of the calls of one pass of the receive loop that can fail. */
  datatype Turn = Turn(
    kind: H.Kind,
    credentials: H.Credentials,
    answerOk: bool,
    answerReaches: bool,
    gatherOk: bool,
    linkOk: bool,
    proxyOk: bool,
    reportOk: bool)

  /** Where Setup ends: before it has an agent, after, or at its end. */
  datatype Setup = NoAgent | Incomplete | Complete

  class Conn {
    const credentials: H.Credentials
    const wgPubKey: Text
    const remoteWgPubKey: Text
    var dialled: Option<H.Role>
    var proxied: bool

    constructor (credentials: H.Credentials, remoteWgPubKey: Text, wgPubKey: Text)
      ensures this.credentials == credentials && this.remoteWgPubKey == remoteWgPubKey && this.wgPubKey == wgPubKey
      ensures dialled.None? && !proxied
    {
      this.credentials, this.remoteWgPubKey, this.wgPubKey := credentials, remoteWgPubKey, wgPubKey;
      dialled, proxied := None, false;
    }

    /** Start: dials or accepts by the order of the public keys, then starts the proxy. */
    method Start(linkOk: bool, proxyOk: bool) returns (ok: bool)
      modifies this
      ensures dialled == Some(if Less(wgPubKey, remoteWgPubKey) then H.Dialer else H.Acceptor)
      ensures ok <==> linkOk && proxyOk
      ensures proxied == if ok then true else old(proxied)
    {
      if Less(wgPubKey, remoteWgPubKey) {
        dialled := Some(H.Dialer);
      } else {
        dialled := Some(H.Acceptor);
      }
      if !linkOk || !proxyOk {
        return false;
      }
      proxied := true;
      ok := true;
    }
  }

  /** The pass once the message has been dealt with: gather, connect, report. */
  function ConnectPart(i: H.Ice, t: Turn): H.Ice
    requires i.phase.Gathering?
  {
    var gathered := H.AfterGather(i, t.gatherOk);
    if gathered.phase.Exited? then
      gathered
    else
      var connected := H.AfterConn(gathered, t.linkOk && t.proxyOk);
      if connected.phase.Exited? then connected else H.AfterReport(connected, t.reportOk)
  }

  /** One pass of the loop in waitingRemotePeerConnections, as steps of the state machine. */
  function OnePass(i: H.Ice, t: Turn): H.Ice
    requires i.phase.Selecting?
  {
    var received := H.Receive(i, t.kind, t.credentials);
    var answered := if received.phase.Answering? then H.AfterAnswer(received, t.answerOk) else received;
    if answered.phase.Exited? then answered else ConnectPart(answered, t)
  }

  /** The loop over the messages it gets to take: it ends at the first failure. */
  function Passes(i: H.Ice, turns: seq<Turn>): H.Ice
    decreases turns
  {
    if turns == [] || !i.phase.Selecting? then i else Passes(OnePass(i, turns[0]), turns[1..])
  }

  /** The spawned loop enters its select. */
  function Entered(i: H.Ice): H.Ice {
    if i.phase.Spawned? then i.(phase := H.Selecting) else i
  }

  /** An Ice whose gathering process has been started and whose loop waits in its select. */
  function Waiting(i: H.Ice): H.Ice {
    i.(phase := H.Selecting, offering := false)
  }

  /** The answers that reach the network meanwhile. */
  function AnswersSent(i: H.Ice, turns: seq<Turn>): seq<H.Envelope>
    decreases turns
  {
    if turns == [] || !i.phase.Selecting? then
      []
    else
      (if turns[0].kind.Offer? && turns[0].answerReaches then [H.Message(i, H.Answer)] else [])
      + AnswersSent(OnePass(i, turns[0]), turns[1..])
  }

  lemma PassesStep(i: H.Ice, turns: seq<Turn>, k: nat)
    requires k < |turns| && i.phase.Selecting?
    ensures Passes(i, turns[k..]) == Passes(OnePass(i, turns[k]), turns[k + 1..])
    ensures AnswersSent(i, turns[k..])
            == (if turns[k].kind.Offer? && turns[k].answerReaches then [H.Message(i, H.Answer)] else [])
               + AnswersSent(OnePass(i, turns[k]), turns[k + 1..])
  {
    hide OnePass;
    assert turns[k..][0] == turns[k] && turns[k..][1..] == turns[k + 1..];
  }

  lemma PassesEnd(i: H.Ice, turns: seq<Turn>)
    requires turns == [] || !i.phase.Selecting?
    ensures Passes(i, turns) == i && AnswersSent(i, turns) == []
  {
  }

  /** All that an Ice object holds but its clean-ups. */
  datatype State = State(view: H.Ice, sent: seq<H.Envelope>, hasAgent: bool)

  class Ice {
    const nk: Text
    const remoteNodeKey: Text
    const wgPubKey: Text
    const remoteWgPubKey: Text
    const agent: H.Credentials
    var offering: bool
    var phase: H.Phase
    var conn: Conn?
    /** What signalOffer and signalAnswer have put on the network. */
    var sent: seq<H.Envelope>
    /** Whether Setup has created the ICE agent, its last resource that Cleanup has to release. */
    var hasAgent: bool
    /** How often Cleanup has run. */
    var cleanups: nat

    ghost function View(): H.Ice
      reads this, conn
    {
      H.Ice(nk, remoteNodeKey, wgPubKey, remoteWgPubKey, agent, offering, phase,
            if conn == null then None
            else Some(H.Conn(conn.credentials, if conn.dialled.Some? then conn.dialled.value else H.Acceptor,
                             conn.proxied)))
    }

    ghost function Now(): State
      reads this, conn
    {
      State(View(), sent, hasAgent)
    }

    constructor (nk: Text, remoteNodeKey: Text, wgPubKey: Text, remoteWgPubKey: Text, agent: H.Credentials)
      ensures View() == H.Ice(nk, remoteNodeKey, wgPubKey, remoteWgPubKey, agent, false, H.NotStarted, None)
      ensures sent == [] && cleanups == 0 && !hasAgent
    {
      this.nk, this.remoteNodeKey, this.wgPubKey, this.remoteWgPubKey := nk, remoteNodeKey, wgPubKey, remoteWgPubKey;
      this.agent := agent;
      offering, phase, conn := false, H.NotStarted, null;
      sent, hasAgent, cleanups := [], false, 0;
    }

    /** Setup: it may fail before the agent exists, or after. */
    method Setup(outcome: Setup) returns (ok: bool)
      modifies this`hasAgent
      ensures ok <==> outcome.Complete?
      ensures hasAgent <==> old(hasAgent) || !outcome.NoAgent?
    {
      if outcome.NoAgent? {
        return false;
      }
      hasAgent := true;
      ok := outcome.Complete?;
    }

    /** Cleanup closes the connection and the agent; what they release is not modelled. Without an agent
        it would follow a nil pointer. */
    method Cleanup()
      requires hasAgent
      modifies this`cleanups
      ensures cleanups == old(cleanups) + 1
    {
      cleanups := cleanups + 1;
    }

    method SignalOffer(reaches: bool)
      requires offering
      modifies this`offering, this`sent
      ensures View() == old(View()).(offering := false)
      ensures sent == old(sent) + if reaches then [H.Message(old(View()), H.Offer)] else []
    {
      if reaches {
        sent := sent + [H.Envelope(remoteNodeKey, nk, H.Offer, agent)];
      }
      offering := false;
    }

    /** StartGatheringProcess spawns the receive loop, which is not yet in its select, and signals. */
    method StartGatheringProcess(reaches: bool)
      requires hasAgent
      modifies this`phase, this`offering, this`sent
      ensures View() == H.StartGathering(old(View())).(offering := false)
      ensures sent == old(sent) + if reaches then [H.Message(old(View()), H.Offer)] else []
    {
      phase := H.Spawned;
      offering := true;
      SignalOffer(reaches);
    }

    /** SendRemoteOfferCh: the send goes through only to a waiting select. */
    method SendRemoteOfferCh(c: H.Credentials)
      modifies this`phase
      ensures View() == H.Receive(old(View()), H.Offer, c)
      ensures phase == if old(phase).Selecting? then H.Answering(c) else old(phase)
    {
      if phase.Selecting? {
        phase := H.Answering(c);
      }
    }

    method SendRemoteAnswerCh(c: H.Credentials)
      modifies this`phase
      ensures View() == H.Receive(old(View()), H.Answer, c)
      ensures phase == if old(phase).Selecting? then H.Gathering(c) else old(phase)
    {
      if phase.Selecting? {
        phase := H.Gathering(c);
      }
    }

    method SignalAnswer(ok: bool, reaches: bool)
      requires phase.Answering?
      modifies this`phase, this`sent
      ensures View() == H.AfterAnswer(old(View()), ok)
      ensures phase == if ok then H.Gathering(old(phase).credentials) else H.Exited
      ensures sent == old(sent) + if reaches then [H.Message(old(View()), H.Answer)] else []
    {
      if reaches {
        sent := sent + [H.Envelope(remoteNodeKey, nk, H.Answer, agent)];
      }
      phase := if ok then H.Gathering(phase.credentials) else H.Exited;
    }

    /** startConn replaces the connection and starts it in the role that the keys decide. */
    method StartConn(linkOk: bool, proxyOk: bool)
      requires phase.Gathering?
      modifies this`phase, this`conn
      ensures View() == H.AfterConn(H.AfterGather(old(View()), true), linkOk && proxyOk)
      ensures conn != null && fresh(conn) && conn.credentials == old(phase).credentials
      ensures conn.dialled == Some(if Less(wgPubKey, remoteWgPubKey) then H.Dialer else H.Acceptor)
      ensures conn.proxied <==> linkOk && proxyOk
      ensures phase == if linkOk && proxyOk then H.Reporting(old(phase).credentials) else H.Exited
    {
      var c := new Conn(phase.credentials, remoteWgPubKey, wgPubKey);
      conn := c;
      phase := H.Connecting(phase.credentials);
      var ok := c.Start(linkOk, proxyOk);
      phase := if ok then H.Reporting(phase.credentials) else H.Exited;
    }

    /** One pass of the loop, for a message that has been taken. */
    method Pass(t: Turn)
      requires phase.Selecting?
      modifies this`phase, this`conn, this`sent
      ensures View() == OnePass(old(View()), t)
      ensures sent == old(sent) + if t.kind.Offer? && t.answerReaches then [H.Message(old(View()), H.Answer)] else []
      ensures conn == old(conn) || (conn != null && fresh(conn))
    {
      if t.kind.Answer? {
        SendRemoteAnswerCh(t.credentials);
      } else {
        SendRemoteOfferCh(t.credentials);
        SignalAnswer(t.answerOk, t.answerReaches);
        if !t.answerOk {
          return;
        }
      }
      if !t.gatherOk {
        phase := H.Exited;
        return;
      }
      StartConn(t.linkOk, t.proxyOk);
      if !t.linkOk || !t.proxyOk {
        return;
      }
      phase := if t.reportOk then H.Selecting else H.Exited;
    }

    /** waitingRemotePeerConnections, fed with the messages that reach its select. */
    method WaitingRemotePeerConnections(turns: seq<Turn>)
      modifies this`phase, this`conn, this`sent
      ensures View() == Passes(Entered(old(View())), turns)
      ensures sent == old(sent) + AnswersSent(Entered(old(View())), turns)
    {
      hide OnePass, Passes, AnswersSent;
      if phase.Spawned? {
        phase := H.Selecting;
      }
      ghost var entered := View();
      assert entered == Entered(old(View()));
      var k := 0;
      assert turns[0..] == turns;
      while k < |turns| && phase.Selecting?
        invariant k <= |turns|
        invariant conn == old(conn) || (conn != null && fresh(conn))
        invariant Passes(View(), turns[k..]) == Passes(entered, turns)
        invariant sent + AnswersSent(View(), turns[k..]) == old(sent) + AnswersSent(entered, turns)
      {
        PassesStep(View(), turns, k);
        Pass(turns[k]);
        k := k + 1;
      }
      PassesEnd(View(), turns[k..]);
    }

    /** The whole life of a gathering process: it is started, and its loop takes messages. */
    method Gather(reaches: bool, turns: seq<Turn>)
      requires hasAgent
      modifies this`phase, this`offering, this`conn, this`sent
      ensures View() == Passes(Waiting(old(View())), turns)
      ensures sent == old(sent) + (if reaches then [H.Message(old(View()), H.Offer)] else [])
                      + AnswersSent(Waiting(old(View())), turns)
    {
      hide Passes, AnswersSent;
      StartGatheringProcess(reaches);
      assert Entered(View()) == Waiting(old(View()));
      WaitingRemotePeerConnections(turns);
    }
  }

  lemma OnePassFacts(i: H.Ice, t: Turn)
    requires i.phase.Selecting?
    ensures var next := OnePass(i, t);
            && H.SameIdentity(next, i)
            && (next.conn == i.conn || (next.conn.Some? && next.conn.value.credentials == t.credentials))
  {
  }

  function Offers(turns: seq<Turn>): nat {
    if turns == [] then 0 else (if turns[0].kind.Offer? then 1 else 0) + Offers(turns[1..])
  }

  /** Whatever the loop takes, it sends at most one answer per offer taken, each with the local
      agent's credentials, and a connection other than the one it found was started from a message that
      it took. */
  lemma {:induction false} LoopAnswersOffers(i: H.Ice, turns: seq<Turn>)
    ensures |AnswersSent(i, turns)| <= Offers(turns)
    ensures forall e <- AnswersSent(i, turns) :: e == H.Message(i, H.Answer)
    ensures Passes(i, turns).conn == i.conn
         || exists t <- turns :: Passes(i, turns).conn.Some? && Passes(i, turns).conn.value.credentials == t.credentials
    ensures H.SameIdentity(Passes(i, turns), i)
    decreases turns
  {
    hide OnePass, H.Receive;
    if turns != [] && i.phase.Selecting? {
      OnePassFacts(i, turns[0]);
      LoopAnswersOffers(OnePass(i, turns[0]), turns[1..]);
    }
  }

  // ---- a pass is a run of the protocol ------------------------------------------------------

  function ConnectActions(l: H.Link, t: Turn): seq<H.Action> {
    [H.Gather(l, t.gatherOk)]
    + (if !t.gatherOk then []
       else [H.FinishConn(l, t.linkOk && t.proxyOk)]
            + if t.linkOk && t.proxyOk then [H.Report(l, t.reportOk)] else [])
  }

  /** The actions of the mesh that make up a pass of the loop at link l for the message at position i. */
  function PassActions(l: H.Link, i: nat, t: Turn): seq<H.Action> {
    [H.Deliver(i)]
    + (if t.kind.Offer? then [H.SignalAnswer(l, t.answerOk, t.answerReaches)] else [])
    + (if t.kind.Offer? && !t.answerOk then [] else ConnectActions(l, t))
  }

  /** Actions that follow each other: a run can be cut anywhere. */
  lemma {:induction false} RunConcat(m: H.Mesh, s: seq<H.Action>, t: seq<H.Action>)
    requires H.Valid(m, s) && H.Valid(H.Run(m, s), t)
    ensures H.Valid(m, s + t) && H.Run(m, s + t) == H.Run(H.Run(m, s), t)
    decreases |t|
  {
    hide H.Apply, H.Enabled;
    if t == [] {
      assert s + t == s;
    } else {
      RunConcat(m, s, t[..|t| - 1]);
      assert (s + t)[..|s + t| - 1] == s + t[..|t| - 1];
    }
  }

  lemma RunOne(m: H.Mesh, a: H.Action)
    requires H.Enabled(m, a)
    ensures H.Valid(m, [a]) && H.Run(m, [a]) == H.Apply(m, a)
  {
    assert [a][..0] == [];
  }

  /** The part of a pass after the message has been answered. */
  lemma ConnectIsRun(m: H.Mesh, l: H.Link, t: Turn)
    requires l in m.peers && m.peers[l].phase.Gathering?
    ensures H.Valid(m, ConnectActions(l, t))
    ensures var m' := H.Run(m, ConnectActions(l, t));
            && m'.net == m.net
            && m'.peers == m.peers[l := ConnectPart(m.peers[l], t)]
  {
    hide H.Run, H.Valid;
    var gather, finish := H.Gather(l, t.gatherOk), H.FinishConn(l, t.linkOk && t.proxyOk);
    var report := H.Report(l, t.reportOk);
    RunOne(m, gather);
    var m1 := H.Apply(m, gather);
    if !t.gatherOk {
      assert ConnectActions(l, t) == [gather];
    } else {
      RunOne(m1, finish);
      RunConcat(m, [gather], [finish]);
      var m2 := H.Apply(m1, finish);
      if t.linkOk && t.proxyOk {
        RunOne(m2, report);
        RunConcat(m, [gather] + [finish], [report]);
        assert ConnectActions(l, t) == [gather] + [finish] + [report];
      } else {
        assert ConnectActions(l, t) == [gather] + [finish];
      }
    }
  }

  /** Message i in flight is the one of this turn. */
  ghost predicate InFlight(m: H.Mesh, l: H.Link, i: nat, t: Turn) {
    && i < |m.net| && H.Target(m.net[i]) == l
    && m.net[i].kind == t.kind && m.net[i].credentials == t.credentials
  }

  function AfterPass(m: H.Mesh, l: H.Link, i: nat, t: Turn): H.Mesh
    requires l in m.peers && m.peers[l].phase.Selecting? && i < |m.net|
  {
    H.Mesh(m.peers[l := OnePass(m.peers[l], t)], H.RemoveAt(m.net, i) + AnswersSent(m.peers[l], [t]))
  }

  lemma AnswerPass(m: H.Mesh, l: H.Link, i: nat, t: Turn)
    requires l in m.peers && m.peers[l].phase.Selecting? && t.kind.Answer?
    requires InFlight(m, l, i, t)
    ensures H.Valid(m, PassActions(l, i, t))
    ensures H.Run(m, PassActions(l, i, t)) == H.Mesh(m.peers[l := OnePass(m.peers[l], t)], H.RemoveAt(m.net, i))
  {
    hide H.Run, H.Valid, ConnectPart, ConnectActions;
    RunOne(m, H.Deliver(i));
    var m1 := H.Apply(m, H.Deliver(i));
    ConnectIsRun(m1, l, t);
    RunConcat(m, [H.Deliver(i)], ConnectActions(l, t));
    assert PassActions(l, i, t) == [H.Deliver(i)] + ConnectActions(l, t);
  }

  lemma OfferPass(m: H.Mesh, l: H.Link, i: nat, t: Turn)
    requires l in m.peers && m.peers[l].phase.Selecting? && t.kind.Offer?
    requires InFlight(m, l, i, t)
    ensures H.Valid(m, PassActions(l, i, t))
    ensures H.Run(m, PassActions(l, i, t))
            == H.Mesh(m.peers[l := OnePass(m.peers[l], t)],
                      H.RemoveAt(m.net, i) + if t.answerReaches then [H.Message(m.peers[l], H.Answer)] else [])
  {
    hide H.Run, H.Valid, ConnectPart, ConnectActions;
    var answer := H.SignalAnswer(l, t.answerOk, t.answerReaches);
    RunOne(m, H.Deliver(i));
    var m1 := H.Apply(m, H.Deliver(i));
    RunOne(m1, answer);
    RunConcat(m, [H.Deliver(i)], [answer]);
    var m2 := H.Apply(m1, answer);
    if t.answerOk {
      ConnectIsRun(m2, l, t);
      RunConcat(m, [H.Deliver(i)] + [answer], ConnectActions(l, t));
    } else {
      assert PassActions(l, i, t) == [H.Deliver(i)] + [answer];
    }
  }

  /** A pass of the loop for a message in flight is a run of the protocol at that link: it does to the
      Ice what the pass does, takes the message, adds the answer, and touches no other Ice. */
  lemma PassRefinesProtocol(m: H.Mesh, l: H.Link, i: nat, t: Turn)
    requires l in m.peers && m.peers[l].phase.Selecting?
    requires InFlight(m, l, i, t)
    ensures H.Valid(m, PassActions(l, i, t))
    ensures H.Run(m, PassActions(l, i, t)) == AfterPass(m, l, i, t)
  {
    PassesStep(m.peers[l], [t], 0);
    PassesEnd(OnePass(m.peers[l], t), []);
    hide OnePass, AnswersSent, PassActions, H.Run, H.Valid;
    assert [t][0..] == [t] && [t][1..] == [];
    if t.kind.Answer? {
      AnswerPass(m, l, i, t);
    } else {
      OfferPass(m, l, i, t);
    }
  }
}
