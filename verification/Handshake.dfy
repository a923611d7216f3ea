/** The offer/answer protocol between the nodes of a mesh, as a state machine over atomic steps, with
    arbitrary interleaving and loss. */
module Handshake {
  import opened Prelude
  import opened ByteOrder

  datatype Credentials = Credentials(userName: Text, pwd: Text)

  datatype Kind = Offer | Answer

  /** A message in flight. The signal server hands it over with the sender's key as the lookup key. */
  datatype Envelope = Envelope(to: Text, from: Text, kind: Kind, credentials: Credentials)

  datatype Role = Dialer | Acceptor

  datatype Conn = Conn(credentials: Credentials, role: Role, established: bool)

  /** Where the goroutine of waitingRemotePeerConnections is. */
  datatype Phase =
    | NotStarted
    | Spawned
    | Selecting
    | Answering(credentials: Credentials)
    | Gathering(credentials: Credentials)
    | Connecting(credentials: Credentials)
    | Reporting(credentials: Credentials)
    | Exited

  /** One Ice: the state a node keeps for one remote node. `offering` holds from the start of the
      gathering process until signalOffer has made its call. */
  datatype Ice = Ice(
    nk: Text,
    remoteNodeKey: Text,
    wgPubKey: Text,
    remoteWgPubKey: Text,
    agent: Credentials,
    offering: bool,
    phase: Phase,
    conn: Option<Conn>)

  // ---- steps of one Ice --------------------------------------------------------------------

  /** Conn.Start: the smaller public key dials. */
  function RoleOf(i: Ice): Role {
    if Less(i.wgPubKey, i.remoteWgPubKey) then Dialer else Acceptor
  }

  function StartGathering(i: Ice): Ice {
    i.(phase := Spawned, offering := true)
  }

  /** A message reaches the channel: taken only by a goroutine that waits in its select. */
  function Receive(i: Ice, kind: Kind, c: Credentials): Ice {
    if !i.phase.Selecting? then i
    else if kind.Answer? then i.(phase := Gathering(c))
    else i.(phase := Answering(c))
  }

  function AfterAnswer(i: Ice, ok: bool): Ice
    requires i.phase.Answering?
  {
    i.(phase := if ok then Gathering(i.phase.credentials) else Exited)
  }

  /** GatherCandidates, then startConn up to the blocking Dial or Accept. */
  function AfterGather(i: Ice, ok: bool): Ice
    requires i.phase.Gathering?
  {
    if ok then
      i.(phase := Connecting(i.phase.credentials), conn := Some(Conn(i.phase.credentials, RoleOf(i), false)))
    else
      i.(phase := Exited)
  }

  function AfterConn(i: Ice, ok: bool): Ice
    requires i.phase.Connecting? && i.conn.Some?
  {
    if ok then
      i.(phase := Reporting(i.phase.credentials), conn := Some(i.conn.value.(established := true)))
    else
      i.(phase := Exited)
  }

  function AfterReport(i: Ice, ok: bool): Ice
    requires i.phase.Reporting?
  {
    i.(phase := if ok then Selecting else Exited)
  }

  /** What signalOffer and signalAnswer send: the agent's local credentials. */
  function Message(i: Ice, kind: Kind): Envelope {
    Envelope(i.remoteNodeKey, i.nk, kind, i.agent)
  }

  // ---- the mesh ------------------------------------------------------------------------------

  /** The entry of `node`'s peerConns under key `remote`. */
  datatype Link = Link(node: Text, remote: Text)

  function Flip(l: Link): Link {
    Link(l.remote, l.node)
  }

  /** All peerConns of all nodes, and the bag of messages in flight (any of them may arrive next). */
  datatype Mesh = Mesh(peers: map<Link, Ice>, net: seq<Envelope>)

  /** Outcomes of foreign calls are part of the action. A signalling call may fail although its message
      reached the network, and may succeed although it is lost later. */
  datatype Action =
    | Start(link: Link)
    | ReachSelect(link: Link)
    | SignalOffer(link: Link, reaches: bool)
    | SignalAnswer(link: Link, ok: bool, reaches: bool)
    | Gather(link: Link, ok: bool)
    | FinishConn(link: Link, ok: bool)
    | Report(link: Link, ok: bool)
    | Deliver(index: nat)
    | Lose(index: nat)

  function Target(e: Envelope): Link {
    Link(e.to, e.from)
  }

  predicate Enabled(m: Mesh, a: Action) {
    match a
    case Start(l) => l in m.peers && m.peers[l].phase.NotStarted?
    case ReachSelect(l) => l in m.peers && m.peers[l].phase.Spawned?
    case SignalOffer(l, _) => l in m.peers && m.peers[l].offering
    case SignalAnswer(l, _, _) => l in m.peers && m.peers[l].phase.Answering?
    case Gather(l, _) => l in m.peers && m.peers[l].phase.Gathering?
    case FinishConn(l, _) => l in m.peers && m.peers[l].phase.Connecting? && m.peers[l].conn.Some?
    case Report(l, _) => l in m.peers && m.peers[l].phase.Reporting?
    case Deliver(i) => i < |m.net| && Target(m.net[i]) in m.peers
    case Lose(i) => i < |m.net|
  }

  function RemoveAt<T>(s: seq<T>, i: nat): seq<T>
    requires i < |s|
  {
    s[..i] + s[i + 1..]
  }

  /** The link that an action belongs to; losing a message belongs to none. */
  function LinkOf(m: Mesh, a: Action): (l: Option<Link>)
    requires Enabled(m, a)
    ensures l.Some? ==> l.value in m.peers
  {
    match a
    case Deliver(i) => Some(Target(m.net[i]))
    case Lose(_) => None
    case _ => Some(a.link)
  }

  /** The Ice of the action's link after the action. */
  function IceAfter(m: Mesh, a: Action): Ice
    requires Enabled(m, a) && !a.Lose?
  {
    match a
    case Start(l) => StartGathering(m.peers[l])
    case ReachSelect(l) => m.peers[l].(phase := Selecting)
    case SignalOffer(l, _) => m.peers[l].(offering := false)
    case SignalAnswer(l, ok, _) => AfterAnswer(m.peers[l], ok)
    case Gather(l, ok) => AfterGather(m.peers[l], ok)
    case FinishConn(l, ok) => AfterConn(m.peers[l], ok)
    case Report(l, ok) => AfterReport(m.peers[l], ok)
    case Deliver(i) => Receive(m.peers[Target(m.net[i])], m.net[i].kind, m.net[i].credentials)
  }

  function NetAfter(m: Mesh, a: Action): seq<Envelope>
    requires Enabled(m, a)
  {
    match a
    case SignalOffer(l, reaches) => if reaches then m.net + [Message(m.peers[l], Offer)] else m.net
    case SignalAnswer(l, _, reaches) => if reaches then m.net + [Message(m.peers[l], Answer)] else m.net
    case Deliver(i) => RemoveAt(m.net, i)
    case Lose(i) => RemoveAt(m.net, i)
    case _ => m.net
  }

  function Apply(m: Mesh, a: Action): Mesh
    requires Enabled(m, a)
  {
    var peers := if a.Lose? then m.peers else m.peers[LinkOf(m, a).value := IceAfter(m, a)];
    Mesh(peers, NetAfter(m, a))
  }

  function Run(m: Mesh, acts: seq<Action>): Mesh
    requires Valid(m, acts)
    decreases |acts|, 1
  {
    if acts == [] then m else Apply(Run(m, acts[..|acts| - 1]), acts[|acts| - 1])
  }

  /** Every action of the run is enabled when its turn comes. */
  predicate Valid(m: Mesh, acts: seq<Action>)
    decreases |acts|, 0
  {
    acts != [] ==> Valid(m, acts[..|acts| - 1]) && Enabled(Run(m, acts[..|acts| - 1]), acts[|acts| - 1])
  }

  /** One more action, run at the end. */
  lemma AppendAction(m: Mesh, acts: seq<Action>, a: Action)
    requires Valid(m, acts) && Enabled(Run(m, acts), a)
    ensures Valid(m, acts + [a]) && Run(m, acts + [a]) == Apply(Run(m, acts), a)
  {
    assert (acts + [a])[..|acts|] == acts;
  }

  // ---- configuration ----------------------------------------------------------------------------

  ghost predicate KeyedAt(peers: map<Link, Ice>, l: Link)
    requires l in peers
  {
    && l.node != l.remote
    && peers[l].nk == l.node
    && peers[l].remoteNodeKey == l.remote
    && Flip(l) in peers
    && peers[l].remoteWgPubKey == peers[Flip(l)].wgPubKey
  }

  /** Each entry describes its own link, links come in both directions, and the server has given each
      side the other side's real public key. */
  ghost predicate WellKeyed(peers: map<Link, Ice>) {
    forall l {:trigger KeyedAt(peers, l)} | l in peers :: KeyedAt(peers, l)
  }

  ghost predicate Initial(m: Mesh) {
    && WellKeyed(m.peers)
    && m.net == []
    && forall l <- m.peers :: m.peers[l].phase.NotStarted? && !m.peers[l].offering && m.peers[l].conn.None?
  }

  // ---- agreement ------------------------------------------------------------------------------------

  predicate Carries(p: Phase) {
    p.Answering? || p.Gathering? || p.Connecting? || p.Reporting?
  }

  /** Whatever this Ice works with came from the agent at the other end. */
  ghost predicate UsesRemote(i: Ice, remote: Ice) {
    && (Carries(i.phase) ==> i.phase.credentials == remote.agent)
    && (i.conn.Some? ==> i.conn.value.credentials == remote.agent && i.conn.value.role == RoleOf(i))
    && (i.phase.Connecting? || i.phase.Reporting? ==> i.conn.Some?)
  }

  ghost predicate Genuine(peers: map<Link, Ice>, e: Envelope) {
    && Link(e.from, e.to) in peers
    && e.credentials == peers[Link(e.from, e.to)].agent
  }

  ghost predicate SafeAt(peers: map<Link, Ice>, l: Link)
    requires l in peers
  {
    KeyedAt(peers, l) && UsesRemote(peers[l], peers[Flip(l)])
  }

  ghost predicate Safe(m: Mesh) {
    && (forall l {:trigger SafeAt(m.peers, l)} | l in m.peers :: SafeAt(m.peers, l))
    && (forall e <- m.net :: Genuine(m.peers, e))
  }

  /** A step of a link rewrites only the progress of that link, never who it is. */
  ghost predicate SameIdentity(i: Ice, j: Ice) {
    && i.nk == j.nk && i.remoteNodeKey == j.remoteNodeKey
    && i.wgPubKey == j.wgPubKey && i.remoteWgPubKey == j.remoteWgPubKey
    && i.agent == j.agent
  }

  /** No action changes the Ice of another link, or the identity of its own. */
  lemma ActionStaysOnItsLink(m: Mesh, a: Action)
    requires Enabled(m, a)
    ensures Apply(m, a).peers.Keys == m.peers.Keys
    ensures forall l <- m.peers :: SameIdentity(Apply(m, a).peers[l], m.peers[l])
    ensures forall l <- m.peers :: LinkOf(m, a) != Some(l) ==> Apply(m, a).peers[l] == m.peers[l]
  {
  }

  /** A message that arrives leaves the network. It is taken exactly by an Ice that waits in its select, which
      then answers an offer and gathers for an answer; any other Ice drops it. */
  lemma TakenOrDropped(m: Mesh, i: nat)
    requires Enabled(m, Deliver(i))
    ensures var e := m.net[i];
            var l := Link(e.to, e.from);
            var before, after := m.peers[l], Apply(m, Deliver(i)).peers[l];
            && Apply(m, Deliver(i)).net == m.net[..i] + m.net[i + 1..]
            && (after != before <==> before.phase.Selecting?)
            && (before.phase.Selecting? ==>
                  after == before.(phase := if e.kind.Offer? then Answering(e.credentials)
                                            else Gathering(e.credentials)))
  {
  }

  /** The Ice that takes the step keeps working with its remote's credentials. */
  lemma IceAfterUsesRemote(m: Mesh, a: Action, remote: Ice)
    requires Enabled(m, a) && !a.Lose?
    requires UsesRemote(m.peers[LinkOf(m, a).value], remote)
    requires a.Deliver? ==> m.net[a.index].credentials == remote.agent
    ensures UsesRemote(IceAfter(m, a), remote)
  {
  }

  lemma SafeAtStep(m: Mesh, a: Action, l: Link)
    requires Safe(m) && Enabled(m, a) && l in m.peers
    ensures l in Apply(m, a).peers && SafeAt(Apply(m, a).peers, l)
  {
    ActionStaysOnItsLink(m, a);
    assert SafeAt(m.peers, l);
    if LinkOf(m, a) == Some(l) {
      if a.Deliver? {
        assert Genuine(m.peers, m.net[a.index]);
      }
      IceAfterUsesRemote(m, a, m.peers[Flip(l)]);
      hide IceAfter, NetAfter;
    } else {
      hide IceAfter, NetAfter;
    }
  }

  lemma GenuineStep(m: Mesh, a: Action, e: Envelope)
    requires Safe(m) && Enabled(m, a) && e in Apply(m, a).net
    ensures Genuine(Apply(m, a).peers, e)
  {
    hide IceAfter;
    ActionStaysOnItsLink(m, a);
    if e in m.net {
      hide NetAfter;
      assert Genuine(m.peers, e);
    } else {
      assert SafeAt(m.peers, a.link);
    }
  }

  lemma SafeStep(m: Mesh, a: Action)
    requires Safe(m) && Enabled(m, a)
    ensures Safe(Apply(m, a))
  {
    hide Apply, Enabled, SafeAt, Genuine, IceAfter, NetAfter, LinkOf;
    var m' := Apply(m, a);
    ActionStaysOnItsLink(m, a);
    forall l <- m'.peers
      ensures SafeAt(m'.peers, l)
    {
      SafeAtStep(m, a, l);
    }
    forall e <- m'.net
      ensures Genuine(m'.peers, e)
    {
      GenuineStep(m, a, e);
    }
  }

  lemma InitialIsSafe(m: Mesh)
    requires Initial(m)
    ensures Safe(m)
  {
    forall l <- m.peers
      ensures SafeAt(m.peers, l)
    {
      assert KeyedAt(m.peers, l);
    }
  }

  lemma SafeIsWellKeyed(m: Mesh)
    requires Safe(m)
    ensures WellKeyed(m.peers)
  {
    forall l <- m.peers
      ensures KeyedAt(m.peers, l)
    {
      assert SafeAt(m.peers, l);
    }
  }

  lemma {:induction false} RunIsSafe(m: Mesh, acts: seq<Action>)
    requires Initial(m) && Valid(m, acts)
    ensures Safe(Run(m, acts)) && WellKeyed(Run(m, acts).peers)
    ensures Run(m, acts).peers.Keys == m.peers.Keys
    ensures forall l <- m.peers :: SameIdentity(Run(m, acts).peers[l], m.peers[l])
  {
    hide Apply, Enabled, SafeAt, Genuine, Safe, WellKeyed;
    if acts == [] {
      InitialIsSafe(m);
    } else {
      var before := acts[..|acts| - 1];
      RunIsSafe(m, before);
      SafeStep(Run(m, before), acts[|acts| - 1]);
      ActionStaysOnItsLink(Run(m, before), acts[|acts| - 1]);
    }
    SafeIsWellKeyed(Run(m, acts));
  }

  /** In every reachable state a peer that connects uses exactly the credentials of the agent at the other
      end, and dials exactly if its own public key is the smaller. If both ends connect, exactly one of them
      dials and the other accepts -- precisely when their public keys differ. */
  lemma HandshakeAgreement(m: Mesh, acts: seq<Action>, l: Link)
    requires Initial(m) && Valid(m, acts) && l in m.peers
    ensures var peers := Run(m, acts).peers;
            && l in peers && Flip(l) in peers && Flip(l) in m.peers
            && (peers[l].conn.Some? ==> peers[l].conn.value.credentials == m.peers[Flip(l)].agent)
            && (Carries(peers[l].phase) ==> peers[l].phase.credentials == m.peers[Flip(l)].agent)
            && (peers[l].conn.Some? ==>
                  (peers[l].conn.value.role.Dialer? <==> Less(m.peers[l].wgPubKey, m.peers[Flip(l)].wgPubKey)))
            && (peers[l].conn.Some? && peers[Flip(l)].conn.Some? ==>
                  (peers[l].conn.value.role != peers[Flip(l)].conn.value.role
                   <==> m.peers[l].wgPubKey != m.peers[Flip(l)].wgPubKey))
  {
    hide Run, Valid;
    RunIsSafe(m, acts);
    LessTrichotomy(m.peers[l].wgPubKey, m.peers[l].remoteWgPubKey);
    var peers := Run(m, acts).peers;
    assert KeyedAt(m.peers, l);
    assert KeyedAt(m.peers, Flip(l));
    assert SafeAt(peers, l) && SafeAt(peers, Flip(l));
  }
}
