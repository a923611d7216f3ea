/** A mesh looked at from a subset of its nodes: what happens among them is itself a run of the
    protocol, so whatever holds of every run of a pair holds of every pair of a mesh. */
module Projection {
  import opened Prelude
  import opened ByteOrder
  import opened Handshake

  predicate Inside(nodes: set<Text>, l: Link) {
    l.node in nodes && l.remote in nodes
  }

  /** The messages among the nodes, in order. */
  function Among(nodes: set<Text>, net: seq<Envelope>): seq<Envelope> {
    if net == [] then
      []
    else
      var rest := Among(nodes, net[..|net| - 1]);
      var e := net[|net| - 1];
      if Inside(nodes, Target(e)) then rest + [e] else rest
  }

  function Restrict(nodes: set<Text>, m: Mesh): Mesh {
    Mesh(map l | l in m.peers && Inside(nodes, l) :: m.peers[l], Among(nodes, m.net))
  }

  /** The action as the nodes see it: a message is found at its position among theirs. Other actions
      are invisible. */
  function Seen(nodes: set<Text>, m: Mesh, a: Action): seq<Action>
    requires Enabled(m, a)
  {
    match a
    case Deliver(i) => if Inside(nodes, Target(m.net[i])) then [Deliver(|Among(nodes, m.net[..i])|)] else []
    case Lose(i) => if Inside(nodes, Target(m.net[i])) then [Lose(|Among(nodes, m.net[..i])|)] else []
    case _ => if Inside(nodes, a.link) then [a] else []
  }

  function SeenRun(nodes: set<Text>, m: Mesh, acts: seq<Action>): seq<Action>
    requires Valid(m, acts)
  {
    if acts == [] then
      []
    else
      var before := acts[..|acts| - 1];
      SeenRun(nodes, m, before) + Seen(nodes, Run(m, before), acts[|acts| - 1])
  }

  // ---- messages among the nodes -------------------------------------------------------------

  lemma {:induction false} AmongConcat(nodes: set<Text>, s: seq<Envelope>, t: seq<Envelope>)
    ensures Among(nodes, s + t) == Among(nodes, s) + Among(nodes, t)
    decreases |t|
  {
    if t == [] {
      assert s + t == s;
    } else {
      var front := t[..|t| - 1];
      AmongConcat(nodes, s, front);
      assert (s + t)[..|s + t| - 1] == s + front;
    }
  }

  lemma AmongSplit(nodes: set<Text>, front: seq<Envelope>, e: Envelope, back: seq<Envelope>)
    ensures Among(nodes, front + [e] + back)
            == Among(nodes, front) + (if Inside(nodes, Target(e)) then [e] else []) + Among(nodes, back)
  {
    AmongConcat(nodes, front + [e], back);
    assert (front + [e])[..|front|] == front;
  }

  /** A message among the nodes sits at the position that counts those before it, and taking it out
      commutes with the restriction; taking out another message is invisible. */
  lemma AmongRemove(nodes: set<Text>, net: seq<Envelope>, i: nat)
    requires i < |net|
    ensures Inside(nodes, Target(net[i])) ==>
              var j := |Among(nodes, net[..i])|;
              && j < |Among(nodes, net)| && Among(nodes, net)[j] == net[i]
              && RemoveAt(Among(nodes, net), j) == Among(nodes, RemoveAt(net, i))
    ensures !Inside(nodes, Target(net[i])) ==> Among(nodes, RemoveAt(net, i)) == Among(nodes, net)
  {
    hide Among, Inside;
    assert net == net[..i] + [net[i]] + net[i + 1..];
    AmongSplit(nodes, net[..i], net[i], net[i + 1..]);
    AmongConcat(nodes, net[..i], net[i + 1..]);
  }

  lemma AmongSend(nodes: set<Text>, net: seq<Envelope>, e: Envelope)
    ensures Among(nodes, net + [e]) == if Inside(nodes, Target(e)) then Among(nodes, net) + [e] else Among(nodes, net)
  {
    assert (net + [e])[..|net|] == net;
  }

  // ---- one action ---------------------------------------------------------------------------------

  lemma SeenIsEnabled(nodes: set<Text>, m: Mesh, a: Action)
    requires Enabled(m, a)
    ensures |Seen(nodes, m, a)| <= 1
    ensures |Seen(nodes, m, a)| == 1 ==> Enabled(Restrict(nodes, m), Seen(nodes, m, a)[0])
  {
    if a.Deliver? || a.Lose? {
      AmongRemove(nodes, m.net, a.index);
    }
  }

  lemma NetCommutes(nodes: set<Text>, m: Mesh, a: Action)
    requires WellKeyed(m.peers) && Enabled(m, a)
    ensures var seen := Seen(nodes, m, a);
            if |seen| == 1 then
              Enabled(Restrict(nodes, m), seen[0])
              && NetAfter(Restrict(nodes, m), seen[0]) == Among(nodes, NetAfter(m, a))
            else
              Among(nodes, NetAfter(m, a)) == Among(nodes, m.net)
  {
    SeenIsEnabled(nodes, m, a);
    hide Among;
    match a
    case Deliver(i) => AmongRemove(nodes, m.net, i);
    case Lose(i) => AmongRemove(nodes, m.net, i);
    case SignalOffer(l, _) =>
      AmongSend(nodes, m.net, Message(m.peers[l], Offer));
      assert KeyedAt(m.peers, l);
    case SignalAnswer(l, _, _) =>
      AmongSend(nodes, m.net, Message(m.peers[l], Answer));
      assert KeyedAt(m.peers, l);
    case _ =>
  }

  /** A visible action finds the same Ice and leaves it the same; an invisible one belongs to a link
      outside. */
  lemma SeenIce(nodes: set<Text>, m: Mesh, a: Action)
    requires Enabled(m, a) && !a.Lose?
    ensures var seen := Seen(nodes, m, a);
            if |seen| == 1 then
              && !seen[0].Lose? && Enabled(Restrict(nodes, m), seen[0])
              && LinkOf(Restrict(nodes, m), seen[0]) == LinkOf(m, a)
              && IceAfter(Restrict(nodes, m), seen[0]) == IceAfter(m, a)
              && Inside(nodes, LinkOf(m, a).value)
            else
              !Inside(nodes, LinkOf(m, a).value)
  {
    SeenIsEnabled(nodes, m, a);
    if a.Deliver? {
      AmongRemove(nodes, m.net, a.index);
    }
    hide Among;
  }

  lemma PeersCommute(nodes: set<Text>, m: Mesh, a: Action)
    requires Enabled(m, a)
    ensures var seen := Seen(nodes, m, a);
            if |seen| == 1 then
              Enabled(Restrict(nodes, m), seen[0])
              && Apply(Restrict(nodes, m), seen[0]).peers == Restrict(nodes, Apply(m, a)).peers
            else
              Restrict(nodes, Apply(m, a)).peers == Restrict(nodes, m).peers
  {
    SeenIsEnabled(nodes, m, a);
    if !a.Lose? {
      SeenIce(nodes, m, a);
      hide Among, IceAfter, NetAfter, Seen, LinkOf, Enabled, Inside;
    } else {
      hide Among, IceAfter, NetAfter;
    }
  }

  /** One action of the mesh is one action of the nodes, or stutters for them. */
  lemma ActionProjects(nodes: set<Text>, m: Mesh, a: Action)
    requires WellKeyed(m.peers) && Enabled(m, a)
    ensures var seen := Seen(nodes, m, a);
            if |seen| == 1 then
              Enabled(Restrict(nodes, m), seen[0])
              && Apply(Restrict(nodes, m), seen[0]) == Restrict(nodes, Apply(m, a))
            else
              seen == [] && Restrict(nodes, Apply(m, a)) == Restrict(nodes, m)
  {
    SeenIsEnabled(nodes, m, a);
    NetCommutes(nodes, m, a);
    PeersCommute(nodes, m, a);
  }

  // ---- whole runs -------------------------------------------------------------------------------------

  lemma RestrictedInitial(nodes: set<Text>, m: Mesh)
    requires Initial(m)
    ensures Initial(Restrict(nodes, m))
  {
    var peers := Restrict(nodes, m).peers;
    forall l <- peers
      ensures KeyedAt(peers, l)
    {
      assert KeyedAt(m.peers, l);
    }
  }

  /** The run of the mesh, seen from any subset of the nodes, is a run of the protocol among them and
      ends in the restriction of the mesh's state. */
  lemma {:induction false} RunProjects(nodes: set<Text>, m: Mesh, acts: seq<Action>)
    requires Initial(m) && Valid(m, acts)
    ensures Initial(Restrict(nodes, m))
    ensures Valid(Restrict(nodes, m), SeenRun(nodes, m, acts))
    ensures Run(Restrict(nodes, m), SeenRun(nodes, m, acts)) == Restrict(nodes, Run(m, acts))
  {
    RestrictedInitial(nodes, m);
    if acts != [] {
      var before, a := acts[..|acts| - 1], acts[|acts| - 1];
      RunProjects(nodes, m, before);
      RunIsSafe(m, before);
      ActionProjects(nodes, Run(m, before), a);
      var seen := Seen(nodes, Run(m, before), a);
      if |seen| == 1 {
        AppendAction(Restrict(nodes, m), SeenRun(nodes, m, before), seen[0]);
        assert seen == [seen[0]];
      } else {
        assert SeenRun(nodes, m, acts) == SeenRun(nodes, m, before);
      }
    }
  }
}
