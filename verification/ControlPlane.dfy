/** The control plane: which Ice belongs to which remote node, and how that map follows the server. */
module ControlPlane {
  import opened Prelude
  import opened ByteOrder
  import opened Interval
  import opened Policies
  import opened BackOffObjects
  import opened Budget
  import opened Retry
  import Calls
  import Jitter
  import H = Handshake
  import I = IceObjects

  /** A remote node as the server lists it, with the credentials that the ICE agent created for it draws. */
  datatype Node = Node(remoteNodeKey: Text, remoteWgPubKey: Text, agent: H.Credentials)

  /** What SyncRemoteNodesConfig returns: an error of the call, or the list, which is nil if empty. */
  datatype Response = Failed(id: nat) | Listed(nodes: Option<seq<Node>>)

  /** What WaitForRemoteConn meets when it handles an Ice: the peer map as the other goroutines have made it
      by then, whether the signal client is ready, where Setup ends, and whether the offer reaches the
      network. */
  datatype Startup = Startup(peers: map<Text, I.Ice>, ready: bool, setup: I.Setup, reaches: bool)

  const PARSE_ERROR := Plain(0)

  // ---- what an attempt of initialOfferToRemotePeer returns --------------------------------------

  /** newIce parses both configured keys, and nothing else of it can fail. */
  predicate ConfigParses(parses: Text -> bool, wgPrivateKey: Text, preSharedKey: Text) {
    parses(wgPrivateKey) && (preSharedKey != [] ==> parses(preSharedKey))
  }

  function AttemptError(configOk: bool, r: Response): Option<Error> {
    match r
    case Failed(id) => Some(Plain(id))
    case Listed(nodes) => if nodes.Some? && nodes.value != [] && !configOk then Some(PARSE_ERROR) else None
  }

  /** The attempt succeeds: the server answered, and the list is nil, empty, or the configured keys parse. */
  ghost predicate Answered(parses: Text -> bool, wgPrivateKey: Text, preSharedKey: Text, r: Response) {
    && r.Listed?
    && (r.nodes == None || r.nodes == Some([])
        || (parses(wgPrivateKey) && (preSharedKey == [] || parses(preSharedKey))))
  }

  lemma AttemptMeaning(parses: Text -> bool, wgPrivateKey: Text, preSharedKey: Text, r: Response)
    ensures var err := AttemptError(ConfigParses(parses, wgPrivateKey, preSharedKey), r);
            && (err.None? <==> Answered(parses, wgPrivateKey, preSharedKey, r))
            && (r.Failed? ==> err == Some(Plain(r.id)))
            && (r.Listed? && err.Some? ==> err == Some(PARSE_ERROR))
  {
  }

  /** The retry world of the operation. */
  function OfferWorld(configOk: bool, responses: nat -> Response, start: int, ticks: nat -> Tick): World<()> {
    World(start, k => Attempt((), AttemptError(configOk, responses(k))), ticks, (_, _) => None, (_, _) => None)
  }

  /** Every entry is the Ice of its own key. */
  ghost predicate Keyed(peers: map<Text, I.Ice>) {
    forall k <- peers :: peers[k].remoteNodeKey == k
  }

  /** What becomes of an announced Ice: it is set up if the client is ready and its node still registered,
      and starts its gathering process if the setup succeeds. Its offer call has then been made. */
  function Handled(i: I.State, call: Startup): I.State {
    if !call.ready || i.view.remoteNodeKey !in call.peers then i
    else if !call.setup.Complete? then i.(hasAgent := i.hasAgent || call.setup.Incomplete?)
    else I.State(H.StartGathering(i.view).(offering := false),
                 i.sent + if call.reaches then [H.Message(i.view, H.Offer)] else [],
                 true)
  }

  /** Told from the fields: the gathering process is started exactly for a registered node of a ready client
      after a complete setup; it then sends one offer with the local agent's credentials if the call gets
      through. The agent exists exactly if it did before or if the setup was reached and came so far. */
  lemma HandledMeaning(i: I.State, call: Startup)
    ensures var after := Handled(i, call);
            var tried := call.ready && i.view.remoteNodeKey in call.peers;
            var starts := tried && call.setup.Complete?;
            && (i.view.phase.NotStarted? ==> (after.view.phase.Spawned? <==> starts))
            && after.view == (if starts then i.view.(phase := H.Spawned, offering := false) else i.view)
            && after.sent == (if starts && call.reaches then
                                i.sent + [H.Envelope(i.view.remoteNodeKey, i.view.nk, H.Offer, i.view.agent)]
                              else
                                i.sent)
            && (after.hasAgent <==> i.hasAgent || (tried && (call.setup.Incomplete? || call.setup.Complete?)))
  {
  }

  /** The Ice that newIce makes for a listed node. */
  function NewState(nk: Text, wgPubKey: Text, n: Node): I.State {
    I.State(H.Ice(nk, n.remoteNodeKey, wgPubKey, n.remoteWgPubKey, n.agent, false, H.NotStarted, None), [], false)
  }

  /** The Ices that the nodes make for each other, when every list gives each node's real public key, are an
      initial state of the protocol. */
  lemma NewIcesAreInitial(links: set<H.Link>, wgPubKey: Text -> Text, agent: H.Link -> H.Credentials)
    requires forall l <- links :: l.node != l.remote && H.Flip(l) in links
    ensures var peers := map l | l in links ::
              NewState(l.node, wgPubKey(l.node), Node(l.remote, wgPubKey(l.remote), agent(l))).view;
            && H.Initial(H.Mesh(peers, []))
            && forall l <- peers :: peers[l].agent == agent(l) && peers[l].wgPubKey == wgPubKey(l.node)
  {
    var peers := map l | l in links ::
      NewState(l.node, wgPubKey(l.node), Node(l.remote, wgPubKey(l.remote), agent(l))).view;
    forall l <- peers
      ensures H.KeyedAt(peers, l)
    {
      assert H.Flip(l) in links;
    }
  }

  // ---- the peer map as a value --------------------------------------------------------------------

  /** What syncRemotePeerConfig leaves. */
  function Kept<T>(peers: map<Text, T>, remotes: seq<Text>): map<Text, T> {
    map k | k in peers && k in remotes :: peers[k]
  }

  lemma KeptMeaning<T>(peers: map<Text, T>, remotes: seq<Text>)
    ensures forall k :: k in Kept(peers, remotes) <==> k in peers && k in remotes
    ensures forall k <- Kept(peers, remotes) :: Kept(peers, remotes)[k] == peers[k]
  {
  }

  /** Syncing with the same list again changes nothing and finds nothing to clean up. */
  lemma SyncIsIdempotent<T>(peers: map<Text, T>, remotes: seq<Text>)
    ensures Kept(Kept(peers, remotes), remotes) == Kept(peers, remotes)
    ensures forall k <- Kept(peers, remotes) :: k in remotes
  {
  }

  // ---- the rounds of SyncRemoteNodes on values ----------------------------------------------------

  function NodeKeys(nodes: seq<Node>): (keys: seq<Text>)
    ensures |keys| == |nodes|
  {
    seq(|nodes|, i requires 0 <= i < |nodes| => nodes[i].remoteNodeKey)
  }

  function AfterResponse<T>(peers: map<Text, T>, r: Response): map<Text, T> {
    if r.Listed? && r.nodes.Some? then Kept(peers, NodeKeys(r.nodes.value)) else peers
  }

  /** The map after one round per response. */
  function Followed<T>(peers: map<Text, T>, responses: seq<Response>): map<Text, T> {
    if responses == [] then peers
    else AfterResponse(Followed(peers, responses[..|responses| - 1]), responses[|responses| - 1])
  }

  /** How SyncRemoteNodes stands when the responses are used up. */
  datatype SyncEnd = Polling | ServerError(id: nat) | Panicked

  /** No list omits the key; lists that are nil do not count. */
  ghost predicate NeverOmitted(k: Text, responses: seq<Response>) {
    forall r <- responses :: r.Listed? && r.nodes.Some? ==> exists n <- r.nodes.value :: n.remoteNodeKey == k
  }

  lemma ListsKey(nodes: seq<Node>, k: Text)
    ensures k in NodeKeys(nodes) <==> exists n <- nodes :: n.remoteNodeKey == k
  {
    if n :| n in nodes && n.remoteNodeKey == k {
      var i :| 0 <= i < |nodes| && nodes[i] == n;
      assert NodeKeys(nodes)[i] == k;
    }
  }

  /** An entry survives the rounds exactly if every list named it, and then it is as it was. */
  lemma {:induction false} FollowedMeaning<T>(peers: map<Text, T>, responses: seq<Response>, k: Text)
    ensures k in Followed(peers, responses) <==> k in peers && NeverOmitted(k, responses)
    ensures k in Followed(peers, responses) ==> Followed(peers, responses)[k] == peers[k]
  {
    if responses != [] {
      var front, last := responses[..|responses| - 1], responses[|responses| - 1];
      FollowedMeaning(peers, front, k);
      assert responses == front + [last];
      assert NeverOmitted(k, responses) <==> NeverOmitted(k, front) && NeverOmitted(k, [last]);
      if last.Listed? && last.nodes.Some? {
        ListsKey(last.nodes.value, k);
      }
      hide NodeKeys;
    }
  }

  /** A list that has been followed before, however long ago, changes nothing: by SyncRemoteNodes no Ice is
      then cleaned up. */
  lemma ListAgain<T>(peers: map<Text, T>, responses: seq<Response>, r: Response)
    requires r in responses
    ensures Followed(peers, responses + [r]) == Followed(peers, responses)
  {
    forall k
      ensures k in Followed(peers, responses + [r]) <==> k in Followed(peers, responses)
      ensures k in Followed(peers, responses) ==>
                && k in Followed(peers, responses + [r])
                && Followed(peers, responses + [r])[k] == Followed(peers, responses)[k]
    {
      FollowedMeaning(peers, responses, k);
      FollowedMeaning(peers, responses + [r], k);
      assert NeverOmitted(k, responses) ==> NeverOmitted(k, responses + [r]);
    }
  }

  // ---- registration --------------------------------------------------------------------------------

  function Keys(nodes: seq<Node>): set<Text> {
    set i | 0 <= i < |nodes| :: nodes[i].remoteNodeKey
  }

  /** The map after the entries have been registered one by one. */
  function Register<T>(before: map<Text, T>, nodes: seq<Node>, ices: seq<T>): map<Text, T>
    requires |ices| == |nodes|
  {
    if nodes == [] then
      before
    else
      var n := |nodes| - 1;
      Register(before, nodes[..n], ices[..n])[nodes[n].remoteNodeKey := ices[n]]
  }

  lemma RegisterNothing<T>(before: map<Text, T>)
    ensures Register(before, [], []) == before
  {
  }

  lemma RegisterGrows<T>(before: map<Text, T>, nodes: seq<Node>, ices: seq<T>, k: nat, ice: T)
    requires k < |nodes| && |ices| == k
    ensures Register(before, nodes[..k + 1], ices + [ice])
            == Register(before, nodes[..k], ices)[nodes[k].remoteNodeKey := ice]
  {
    assert nodes[..k + 1][..k] == nodes[..k] && (ices + [ice])[..k] == ices;
  }

  predicate LastEntry(nodes: seq<Node>, i: nat)
    requires i < |nodes|
  {
    forall j | i < j < |nodes| :: nodes[j].remoteNodeKey != nodes[i].remoteNodeKey
  }

  lemma KeysGrow(nodes: seq<Node>)
    requires nodes != []
    ensures Keys(nodes) == Keys(nodes[..|nodes| - 1]) + {nodes[|nodes| - 1].remoteNodeKey}
  {
    var front := nodes[..|nodes| - 1];
    assert forall i | 0 <= i < |front| :: front[i] == nodes[i];
  }

  lemma {:induction false} RegisterKeys<T>(before: map<Text, T>, nodes: seq<Node>, ices: seq<T>)
    requires |ices| == |nodes|
    ensures Register(before, nodes, ices).Keys == before.Keys + Keys(nodes)
    ensures forall k | k in before && k !in Keys(nodes) :: Register(before, nodes, ices)[k] == before[k]
  {
    if nodes != [] {
      KeysGrow(nodes);
      RegisterKeys(before, nodes[..|nodes| - 1], ices[..|nodes| - 1]);
      hide Keys;
    }
  }

  /** The last entry of a key is the one that counts. */
  lemma {:induction false} RegisterLast<T>(before: map<Text, T>, nodes: seq<Node>, ices: seq<T>, i: nat)
    requires |ices| == |nodes| && i < |nodes| && LastEntry(nodes, i)
    ensures nodes[i].remoteNodeKey in Register(before, nodes, ices)
    ensures Register(before, nodes, ices)[nodes[i].remoteNodeKey] == ices[i]
  {
    var n := |nodes| - 1;
    if i < n {
      assert nodes[n].remoteNodeKey != nodes[i].remoteNodeKey;
      assert LastEntry(nodes[..n], i) by {
        forall j | i < j < n ensures nodes[..n][j].remoteNodeKey != nodes[..n][i].remoteNodeKey {
          assert nodes[..n][j] == nodes[j];
        }
      }
      RegisterLast(before, nodes[..n], ices[..n], i);
    }
  }

  /** Every listed node ends up in the map, under its own key and with the Ice of its last entry; the
      entries of other keys stay. */
  lemma RegisterMeaning<T>(before: map<Text, T>, nodes: seq<Node>, ices: seq<T>)
    requires |ices| == |nodes|
    ensures var after := Register(before, nodes, ices);
            && after.Keys == before.Keys + Keys(nodes)
            && (forall k | k in before && k !in Keys(nodes) :: after[k] == before[k])
            && (forall i | 0 <= i < |nodes| && LastEntry(nodes, i) ::
                  nodes[i].remoteNodeKey in after && after[nodes[i].remoteNodeKey] == ices[i])
  {
    RegisterKeys(before, nodes, ices);
    forall i | 0 <= i < |nodes| && LastEntry(nodes, i)
      ensures nodes[i].remoteNodeKey in Register(before, nodes, ices)
      ensures Register(before, nodes, ices)[nodes[i].remoteNodeKey] == ices[i]
    {
      RegisterLast(before, nodes, ices, i);
    }
  }

  /** One distinct new Ice per entry of the list, in its order. */
  ghost predicate OnePerEntry(ices: seq<I.Ice>, nodes: seq<Node>) {
    && |ices| == |nodes|
    && (forall i | 0 <= i < |ices| :: ices[i].remoteNodeKey == nodes[i].remoteNodeKey)
    && (forall i, j | 0 <= i < j < |ices| :: ices[i] != ices[j])
  }

  /** What an attempt does to the map: nothing if it fails or the list is nil, else it registers every entry. */
  ghost predicate Applied(before: map<Text, I.Ice>, after: map<Text, I.Ice>, answered: bool, r: Response,
                          ices: seq<I.Ice>)
  {
    if !answered || r.Failed? || r.nodes.None? then
      ices == [] && after == before
    else
      OnePerEntry(ices, r.nodes.value) && after == Register(before, r.nodes.value, ices)
  }

  lemma FailureAppliesNothing(before: map<Text, I.Ice>, after: map<Text, I.Ice>, r: Response, ices: seq<I.Ice>)
    requires Applied(before, after, false, r, ices)
    ensures ices == [] && after == before
  {
  }

  lemma OneMoreEntry(ices: seq<I.Ice>, nodes: seq<Node>, k: nat, ice: I.Ice)
    requires k < |nodes| && OnePerEntry(ices, nodes[..k])
    requires ice !in ices && ice.remoteNodeKey == nodes[k].remoteNodeKey
    ensures OnePerEntry(ices + [ice], nodes[..k + 1])
  {
  }

  lemma OneDecorator(base: Policy, max: nat)
    ensures Stack([max], base) == Tries(base, max, 0)
    ensures Min([max]) == max
  {
    assert [max][1..] == [];
  }

  lemma BackgroundUnderTries(base: Policy, max: nat, start: int)
    requires base.Exponential?
    ensures GetContext(Reset(Tries(base, max, 0), start)) == Background
  {
  }

  /** What the retry loop makes of the operation: an attempt decides when it succeeds, or when the
      policy stops; the error is then the attempt's own. */
  lemma OfferDecision(configOk: bool, responses: nat -> Response, start: int, ticks: nat -> Tick, p: Policy)
    requires GetContext(p) == Background
    ensures var w := OfferWorld(configOk, responses, start, ticks);
            && (forall k: nat :: Retries(p, w, k)
                                 <==> AttemptError(configOk, responses(k)).Some? && DelayAt(p, w.tick, k) != STOP)
            && (forall k: nat :: FirstDeciding(p, w, k) ==> Dictated(p, w, k) == AttemptError(configOk, responses(k)))
  {
  }

  /** A retry after attempt n would fall due later than 15 minutes after the start. */
  ghost predicate Overdue(start: int, t: Tick, n: nat) {
    start + 900_000_000_000 < t.now + Jitter.Delay(0.5, t.random, IntervalAfter(DEFAULT_CONFIG, n))
  }

  /** The policy ends the loop at the fourth attempt, or before it where the budget is used up. */
  lemma OfferStops(base: Policy, start: int, ticks: nat -> Tick, n: nat)
    requires base.Exponential? && base.config == DEFAULT_CONFIG && 0.0 <= ticks(n).random < 1.0
    ensures DelayAt(Reset(Tries(base, 3, 0), start), ticks, n) == STOP <==> 3 <= n || Overdue(start, ticks(n), n)
  {
    hide Jitter.Delay, IntervalAfter, Next;
    var p := Tries(base, 3, 0);
    assert Calls.Limits(base) == [] && Calls.Limits(p) == [3];
    assert Calls.Base(p) == base;
    Calls.DecoratedCall(p, start, ticks, n);
    Calls.GeneratorCall(base, start, ticks, n);
    IntervalInRange(DEFAULT_CONFIG, n);
    Jitter.DelayWithinInterval(0.5, ticks(n).random, IntervalAfter(DEFAULT_CONFIG, n));
  }

  ghost predicate RandomIsFraction(ticks: nat -> Tick) {
    forall k: nat :: 0.0 <= ticks(k).random < 1.0
  }

  lemma OfferStopsAll(base: Policy, start: int, ticks: nat -> Tick)
    requires base.Exponential? && base.config == DEFAULT_CONFIG && RandomIsFraction(ticks)
    ensures forall n: nat :: DelayAt(Reset(Tries(base, 3, 0), start), ticks, n) == STOP
                             <==> 3 <= n || Overdue(start, ticks(n), n)
  {
    forall n: nat
      ensures DelayAt(Reset(Tries(base, 3, 0), start), ticks, n) == STOP <==> 3 <= n || Overdue(start, ticks(n), n)
    {
      OfferStops(base, start, ticks, n);
    }
  }

  /** The retry loop of initialOfferToRemotePeer: it ends with the first success, with the fourth attempt, or
      where the budget is used up. */
  method RetryOffers(configOk: bool, responses: nat -> Response, start: int, ticks: nat -> Tick)
    returns (err: Option<Error>, attempts: nat)
    ensures 1 <= attempts <= 4
    ensures forall k: nat | k < attempts - 1 :: AttemptError(configOk, responses(k)).Some?
    ensures RandomIsFraction(ticks) ==>
              && (err.None? || attempts == 4 || Overdue(start, ticks(attempts - 1), attempts - 1))
              && forall k: nat | k < attempts - 1 :: !Overdue(start, ticks(k), k)
    ensures err == AttemptError(configOk, responses(attempts - 1))
  {
    hide Next, Stack, AttemptError, Retries, Dictated, SleepsFirst, ReportsFirst, Overdue, DelayAt;
    var exponential := new ExponentialBackOff(DEFAULT_CONFIG, start);
    var tries := new BackOffTries(ExponentialRef(exponential), 3);
    var b := TriesRef(tries);
    var w := OfferWorld(configOk, responses, start, ticks);
    ghost var base := View(ExponentialRef(exponential));
    OneDecorator(base, 3);
    SmallestLimitDecides([3], base, w);
    ghost var p := Reset(View(b), start);
    BackgroundUnderTries(base, 3, start);
    OfferDecision(configOk, responses, start, ticks, p);
    if RandomIsFraction(ticks) {
      OfferStopsAll(base, start, ticks);
    }
    var value, notices, timers;
    value, err, attempts, notices, timers := DoRetryNotify(b, w, false, 3);
  }

  class ControlPlane {
    const nk: Text
    const wgPubKey: Text
    const wgPrivateKey: Text
    const preSharedKey: Text
    /** wgtypes.ParseKey succeeds */
    const parses: Text -> bool
    var peerConns: map<Text, I.Ice>
    /** What has gone through waitForRemoteConnCh. */
    var announced: seq<I.Ice>

    ghost predicate Valid()
      reads this
    {
      Keyed(peerConns)
    }

    constructor (nk: Text, wgPubKey: Text, wgPrivateKey: Text, preSharedKey: Text, parses: Text -> bool)
      ensures Valid() && peerConns == map[] && announced == []
      ensures this.nk == nk && this.wgPubKey == wgPubKey && this.wgPrivateKey == wgPrivateKey
      ensures this.preSharedKey == preSharedKey && this.parses == parses
    {
      this.nk, this.wgPubKey, this.wgPrivateKey, this.preSharedKey := nk, wgPubKey, wgPrivateKey, preSharedKey;
      this.parses := parses;
      peerConns, announced := map[], [];
    }

    predicate ConfigOk() {
      ConfigParses(parses, wgPrivateKey, preSharedKey)
    }

    method NewIce(n: Node) returns (ice: I.Ice?)
      ensures ice == null <==> !ConfigOk()
      ensures ice != null ==> fresh(ice) && ice.Now() == NewState(nk, wgPubKey, n)
    {
      if !parses(wgPrivateKey) {
        return null;
      }
      if preSharedKey != [] {
        if !parses(preSharedKey) {
          return null;
        }
      }
      ice := new I.Ice(nk, n.remoteNodeKey, wgPubKey, n.remoteWgPubKey, n.agent);
    }

    /** One pass of the loop over the list: a new Ice, its entry in the map, and its announcement. */
    method RegisterNode(n: Node) returns (ice: I.Ice?)
      requires Valid()
      modifies this
      ensures Valid()
      ensures ice == null <==> !ConfigOk()
      ensures ice == null ==> peerConns == old(peerConns) && announced == old(announced)
      ensures ice != null ==>
                && fresh(ice) && ice.Now() == NewState(nk, wgPubKey, n)
                && peerConns == old(peerConns)[n.remoteNodeKey := ice]
                && announced == old(announced) + [ice]
    {
      ice := NewIce(n);
      if ice != null {
        peerConns := peerConns[n.remoteNodeKey := ice];
        announced := announced + [ice];
      }
    }

    /** The operation that initialOfferToRemotePeer retries. */
    method OfferOnce(r: Response) returns (err: Option<Error>, ghost ices: seq<I.Ice>)
      requires Valid()
      modifies this
      ensures Valid()
      ensures err == AttemptError(ConfigOk(), r)
      ensures err.None? <==> Answered(parses, wgPrivateKey, preSharedKey, r)
      ensures announced == old(announced) + ices
      ensures Applied(old(peerConns), peerConns, err.None?, r, ices)
      ensures forall i | 0 <= i < |ices| :: fresh(ices[i])
      ensures ices != [] ==> r.Listed? && r.nodes.Some? && |ices| == |r.nodes.value|
      ensures forall i | 0 <= i < |ices| :: ices[i].Now() == NewState(nk, wgPubKey, r.nodes.value[i])
    {
      hide Register, ConfigParses, Keys, Answered;
      AttemptMeaning(parses, wgPrivateKey, preSharedKey, r);
      ices := [];
      if r.Failed? {
        return Some(Plain(r.id)), [];
      }
      if r.nodes.None? {
        return None, [];
      }
      var nodes := r.nodes.value;
      assert nodes[..0] == [];
      RegisterNothing(peerConns);
      for k := 0 to |nodes|
        invariant OnePerEntry(ices, nodes[..k])
        invariant Valid()
        invariant k > 0 ==> ConfigOk()
        invariant announced == old(announced) + ices
        invariant forall i | 0 <= i < |ices| :: fresh(ices[i]) && ices[i].Now() == NewState(nk, wgPubKey, nodes[i])
        invariant k == 0 ==> peerConns == old(peerConns)
        invariant peerConns == Register(old(peerConns), nodes[..k], ices)
      {
        var ice := RegisterNode(nodes[k]);
        if ice == null {
          return Some(PARSE_ERROR), [];
        }
        var made: I.Ice := ice;
        RegisterGrows<I.Ice>(old(peerConns), nodes, ices, k, made);
        OneMoreEntry(ices, nodes, k, made);
        ices := ices + [made];
      }
      assert nodes[..|nodes|] == nodes;
      err := None;
    }

    /** initialOfferToRemotePeer: the operation under WithMaxRetries(NewExponentialBackOff(), 3). Since its
        error depends on the response and the fixed configuration only, the retry loop decides how many
        attempts there are, and those attempts act on the control plane. */
    method InitialOfferToRemotePeer(responses: nat -> Response, start: int, ticks: nat -> Tick)
      returns (err: Option<Error>, attempts: nat, ghost ices: seq<I.Ice>)
      requires Valid()
      modifies this
      ensures Valid() && 1 <= attempts <= 4
      ensures forall k: nat | k < attempts - 1 :: !Answered(parses, wgPrivateKey, preSharedKey, responses(k))
      ensures err.None? <==> Answered(parses, wgPrivateKey, preSharedKey, responses(attempts - 1))
      ensures err.Some? ==> err.value == match responses(attempts - 1)
                                         case Failed(id) => Plain(id)
                                         case Listed(_) => PARSE_ERROR
      ensures RandomIsFraction(ticks) ==>
                && (err.None? || attempts == 4 || Overdue(start, ticks(attempts - 1), attempts - 1))
                && forall k: nat | k < attempts - 1 :: !Overdue(start, ticks(k), k)
      ensures announced == old(announced) + ices
      ensures Applied(old(peerConns), peerConns, err.None?, responses(attempts - 1), ices)
      ensures forall i | 0 <= i < |ices| :: fresh(ices[i])
    {
      hide Applied, Answered, AttemptError, ConfigParses, Overdue, RandomIsFraction;
      forall k: nat
        ensures AttemptError(ConfigOk(), responses(k)).None?
                <==> Answered(parses, wgPrivateKey, preSharedKey, responses(k))
      {
        AttemptMeaning(parses, wgPrivateKey, preSharedKey, responses(k));
      }
      err, attempts := RetryOffers(ConfigOk(), responses, start, ticks);
      AttemptMeaning(parses, wgPrivateKey, preSharedKey, responses(attempts - 1));
      ices := [];
      for k := 0 to attempts
        invariant Valid()
        invariant announced == old(announced) + ices
        invariant k < attempts ==> ices == [] && peerConns == old(peerConns)
        invariant k == attempts ==> Applied(old(peerConns), peerConns, err.None?, responses(attempts - 1), ices)
        invariant forall i | 0 <= i < |ices| :: fresh(ices[i])
      {
        assert k < attempts - 1 ==> AttemptError(ConfigOk(), responses(k)).Some?;
        ghost var before := peerConns;
        var e;
        e, ices := OfferOnce(responses(k));
        if k < attempts - 1 {
          FailureAppliesNothing(before, peerConns, responses(k), ices);
        }
      }
    }

    method HandleRemoteConn(ice: I.Ice, call: Startup)
      requires peerConns == call.peers
      modifies ice`phase, ice`offering, ice`sent, ice`hasAgent
      ensures ice.Now() == Handled(old(ice.Now()), call)
    {
      if !call.ready || ice.remoteNodeKey !in peerConns {
        return;
      }
      var ok := ice.Setup(call.setup);
      if !ok {
        return;
      }
      ice.StartGatheringProcess(call.reaches);
    }

    /** WaitForRemoteConn, for the Ices that come through the channel. An announced Ice starts its gathering
        process at most once, and not at all if it is no longer registered when it arrives. */
    method WaitForRemoteConn(arrivals: seq<I.Ice>, calls: seq<Startup>)
      requires |calls| == |arrivals|
      requires forall i, j | 0 <= i < j < |arrivals| :: arrivals[i] != arrivals[j]
      requires Valid() && forall i | 0 <= i < |calls| :: Keyed(calls[i].peers)
      modifies this`peerConns
      modifies (set i | 0 <= i < |arrivals| :: arrivals[i])`phase
      modifies (set i | 0 <= i < |arrivals| :: arrivals[i])`offering
      modifies (set i | 0 <= i < |arrivals| :: arrivals[i])`sent
      modifies (set i | 0 <= i < |arrivals| :: arrivals[i])`hasAgent
      ensures Valid()
      ensures peerConns == if calls == [] then old(peerConns) else calls[|calls| - 1].peers
      ensures forall i | 0 <= i < |arrivals| :: arrivals[i].Now() == Handled(old(arrivals[i].Now()), calls[i])
    {
      hide Handled, Keyed;
      for n := 0 to |arrivals|
        invariant Valid()
        invariant peerConns == if n == 0 then old(peerConns) else calls[n - 1].peers
        invariant forall i | n <= i < |arrivals| :: arrivals[i].Now() == old(arrivals[i].Now())
        invariant forall i | 0 <= i < n :: arrivals[i].Now() == Handled(old(arrivals[i].Now()), calls[i])
      {
        peerConns := calls[n].peers;
        HandleRemoteConn(arrivals[n], calls[n]);
      }
    }

    /** The dispatch closure of ConnectSignalServer: the handshake message goes to the Ice of the key that
        the server put into the message. */
    method ReceiveSignalRequest(key: Text, kind: H.Kind, c: H.Credentials)
      requires key in peerConns
      modifies {peerConns[key]}`phase
      ensures peerConns[key].View() == H.Receive(old(peerConns[key].View()), kind, c)
    {
      match kind
      case Answer => peerConns[key].SendRemoteAnswerCh(c);
      case Offer => peerConns[key].SendRemoteOfferCh(c);
    }

    /** The Ices of keys that are no longer listed. */
    ghost function Removed(remotes: seq<Text>): set<I.Ice>
      reads this
    {
      set k | k in peerConns && k !in remotes :: peerConns[k]
    }

    /** The keys to drop, in the arbitrary order in which a map is traversed. */
    method Unnecessary(remotePeerMap: set<Text>) returns (order: seq<Text>)
      ensures forall i, j | 0 <= i < j < |order| :: order[i] != order[j]
      ensures forall k :: k in order <==> k in peerConns && k !in remotePeerMap
    {
      order := [];
      var todo := peerConns.Keys;
      while todo != {}
        invariant todo <= peerConns.Keys
        invariant forall i, j | 0 <= i < j < |order| :: order[i] != order[j]
        invariant forall k :: k in order <==> k in peerConns && k !in todo && k !in remotePeerMap
        decreases todo
      {
        var p :| p in todo;
        todo := todo - {p};
        if p !in remotePeerMap {
          order := order + [p];
        }
      }
    }

    /** Deletes the entries and cleans up their Ices; `before` is the map as it was. The cleanup of an Ice
        without an agent follows a nil pointer, and the process panics. */
    method Remove(order: seq<Text>, ghost before: map<Text, I.Ice>) returns (ok: bool)
      requires Valid() && before == peerConns
      requires forall i, j | 0 <= i < j < |order| :: order[i] != order[j]
      modifies this`peerConns, (set k | k in order && k in before :: before[k])`cleanups
      ensures Valid()
      ensures ok <==> forall k | k in order && k in before :: before[k].hasAgent
      ensures ok ==> peerConns == map k | k in before && k !in order :: before[k]
      ensures ok ==> forall k | k in order && k in before :: before[k].cleanups == old(before[k].cleanups) + 1
    {
      for n := 0 to |order|
        invariant peerConns == map k | k in before && k !in order[..n] :: before[k]
        invariant forall i | 0 <= i < n :: order[i] in before ==>
                    before[order[i]].hasAgent && before[order[i]].cleanups == old(before[order[i]].cleanups) + 1
        invariant forall i | n <= i < |order| :: order[i] in before ==>
                    before[order[i]].cleanups == old(before[order[i]].cleanups)
      {
        var p := order[n];
        assert order[..n + 1] == order[..n] + [p];
        if p in peerConns {
          var conn := peerConns[p];
          peerConns := peerConns - {p};
          if !conn.hasAgent {
            assert p in order && !before[p].hasAgent;
            return false;
          }
          conn.Cleanup();
        }
      }
      assert order[..|order|] == order;
      ok := true;
    }

    /** syncRemotePeerConfig; not ok stands for a panic, which comes exactly if the Ice of some unlisted
        entry has no agent. The frame says that no other Ice is touched. */
    method SyncRemotePeerConfig(remotes: seq<Text>) returns (ok: bool)
      requires Valid()
      modifies this`peerConns, Removed(remotes)`cleanups
      ensures Valid()
      ensures ok <==> forall ice <- old(Removed(remotes)) :: ice.hasAgent
      ensures ok ==> peerConns == Kept(old(peerConns), remotes)
      ensures ok ==> forall ice <- old(Removed(remotes)) :: ice.cleanups == old(ice.cleanups) + 1
    {
      var remotePeerMap: set<Text> := {};
      for i := 0 to |remotes|
        invariant forall k :: k in remotePeerMap <==> k in remotes[..i]
      {
        assert remotes[..i + 1] == remotes[..i] + [remotes[i]];
        remotePeerMap := remotePeerMap + {remotes[i]};
      }
      assert remotes[..|remotes|] == remotes;
      var order := Unnecessary(remotePeerMap);
      if |order| == 0 {
        assert peerConns == Kept(peerConns, remotes);
        return true;
      }
      assert forall k :: k in order ==> k in peerConns;
      ok := Remove(order, peerConns);
      assert ok ==> peerConns == Kept(old(peerConns), remotes);
    }

    /** SyncRemoteNodes: follows each response in turn until the call fails. A list that is nil, which is
        also how an empty one arrives, is ignored. `rounds` is the number of responses dealt with. */
    method SyncRemoteNodes(responses: seq<Response>) returns (end: SyncEnd, rounds: nat)
      requires Valid()
      modifies this`peerConns, peerConns.Values`cleanups
      ensures Valid() && rounds <= |responses|
      ensures forall i | 0 <= i < rounds :: responses[i].Listed?
      ensures end.Polling? ==> rounds == |responses|
      ensures end.ServerError? ==> rounds < |responses| && responses[rounds] == Failed(end.id)
      ensures end.Panicked? ==>
                && rounds < |responses| && responses[rounds].Listed?
                && var now := Followed(old(peerConns), responses[..rounds]);
                   exists k <- now :: k !in AfterResponse(now, responses[rounds]) && !now[k].hasAgent
      ensures !end.Panicked? ==> peerConns == Followed(old(peerConns), responses[..rounds])
      ensures !end.Panicked? ==> forall k <- old(peerConns) ::
                && old(peerConns)[k].cleanups == old(peerConns[k].cleanups) + (if k in peerConns then 0 else 1)
                && (k !in peerConns ==> old(peerConns)[k].hasAgent)
    {
      hide Kept;
      ghost var before := peerConns;
      rounds := 0;
      assert responses[..0] == [];
      while rounds < |responses|
        invariant Valid() && rounds <= |responses|
        invariant forall i | 0 <= i < rounds :: responses[i].Listed?
        invariant peerConns == Followed(before, responses[..rounds])
        invariant forall k <- peerConns :: k in before && peerConns[k] == before[k]
        invariant forall k <- before :: k in peerConns ==> before[k].cleanups == old(peerConns[k].cleanups)
        invariant forall k <- before :: k !in peerConns ==>
                    before[k].cleanups == old(peerConns[k].cleanups) + 1 && before[k].hasAgent
      {
        var r := responses[rounds];
        if r.Failed? {
          return ServerError(r.id), rounds;
        }
        ghost var now := peerConns;
        assert responses[..rounds + 1][..rounds] == responses[..rounds];
        if r.nodes.Some? {
          KeptMeaning(now, NodeKeys(r.nodes.value));
          var ok := SyncRemotePeerConfig(NodeKeys(r.nodes.value));
          if !ok {
            return Panicked, rounds;
          }
        }
        rounds := rounds + 1;
      }
      assert responses[..|responses|] == responses;
      end := Polling;
    }
  }

  /** A panic does come about: a node is registered, its Ice cannot be set up, and a later list omits it. */
  method UnpreparedIcePanics(cp: ControlPlane, n: Node, remotes: seq<Text>) returns (ok: bool)
    requires cp.Valid() && cp.ConfigOk() && cp.peerConns == map[] && n.remoteNodeKey !in remotes
    modifies cp
    ensures !ok
  {
    hide Keyed, ConfigParses;
    var err, ices := cp.OfferOnce(Listed(Some([n])));
    assert cp.peerConns == map[n.remoteNodeKey := ices[0]] by {
      RegisterGrows<I.Ice>(map[], [n], [], 0, ices[0]);
      assert ices == [] + [ices[0]];
    }
    assert cp.announced[|cp.announced| - 1] == ices[0];
    var ice := cp.announced[|cp.announced| - 1];
    cp.WaitForRemoteConn([ice], [Startup(cp.peerConns, true, I.NoAgent, false)]);
    ok := cp.SyncRemotePeerConfig(remotes);
  }
}
