/** A whole gathering process -- its start and its loop, as the objects perform them -- is a run of the
    protocol, whatever the rest of the mesh does between the passes. */
module GatheringRuns {
  import opened Prelude
  import opened IceObjects
  import H = Handshake

  // ---- what one link sends in a run --------------------------------------------------------------

  function SentNow(m: H.Mesh, a: H.Action, l: H.Link): seq<H.Envelope>
    requires H.Enabled(m, a)
  {
    match a
    case SignalOffer(k, reaches) => if k == l && reaches then [H.Message(m.peers[l], H.Offer)] else []
    case SignalAnswer(k, _, reaches) => if k == l && reaches then [H.Message(m.peers[l], H.Answer)] else []
    case _ => []
  }

  /** What link l puts on the network in a run, in order. */
  function SentBy(m: H.Mesh, acts: seq<H.Action>, l: H.Link): seq<H.Envelope>
    requires H.Valid(m, acts)
  {
    if acts == [] then
      []
    else
      var front, a := acts[..|acts| - 1], acts[|acts| - 1];
      SentBy(m, front, l) + SentNow(H.Run(m, front), a, l)
  }

  lemma {:induction false} SentConcat(m: H.Mesh, s: seq<H.Action>, t: seq<H.Action>, l: H.Link)
    requires H.Valid(m, s) && H.Valid(H.Run(m, s), t)
    ensures H.Valid(m, s + t)
    ensures SentBy(m, s + t, l) == SentBy(m, s, l) + SentBy(H.Run(m, s), t, l)
    decreases |t|
  {
    hide H.Apply, H.Enabled, SentNow;
    RunConcat(m, s, t);
    if t == [] {
      assert s + t == s;
    } else {
      var front := t[..|t| - 1];
      SentConcat(m, s, front, l);
      RunConcat(m, s, front);
      assert (s + t)[..|s + t| - 1] == s + front;
    }
  }

  lemma SentOne(m: H.Mesh, a: H.Action, l: H.Link)
    requires H.Enabled(m, a)
    ensures H.Valid(m, [a]) && SentBy(m, [a], l) == SentNow(m, a, l)
  {
    RunOne(m, a);
    assert [a][..0] == [];
  }

  lemma {:induction false} SilentActions(m: H.Mesh, acts: seq<H.Action>, l: H.Link)
    requires H.Valid(m, acts) && forall a <- acts :: !a.SignalOffer? && !a.SignalAnswer?
    ensures SentBy(m, acts, l) == []
  {
    if acts != [] {
      SilentActions(m, acts[..|acts| - 1], l);
    }
  }

  // ---- what the others do --------------------------------------------------------------------------

  /** No action of the run belongs to link l. */
  ghost predicate Elsewhere(m: H.Mesh, acts: seq<H.Action>, l: H.Link)
    requires H.Valid(m, acts)
  {
    acts != [] ==>
      var front, a := acts[..|acts| - 1], acts[|acts| - 1];
      Elsewhere(m, front, l) && H.LinkOf(H.Run(m, front), a) != Some(l)
  }

  lemma {:induction false} ElsewhereKeeps(m: H.Mesh, acts: seq<H.Action>, l: H.Link)
    requires l in m.peers && H.Valid(m, acts) && Elsewhere(m, acts, l)
    ensures l in H.Run(m, acts).peers && H.Run(m, acts).peers[l] == m.peers[l]
    ensures SentBy(m, acts, l) == []
  {
    if acts != [] {
      var front := acts[..|acts| - 1];
      ElsewhereKeeps(m, front, l);
      H.ActionStaysOnItsLink(H.Run(m, front), acts[|acts| - 1]);
      hide H.Apply;
    }
  }

  // ---- a pass ----------------------------------------------------------------------------------------

  lemma ConnectSends(m: H.Mesh, l: H.Link, t: Turn)
    requires l in m.peers && m.peers[l].phase.Gathering?
    ensures H.Valid(m, ConnectActions(l, t)) && SentBy(m, ConnectActions(l, t), l) == []
  {
    ConnectIsRun(m, l, t);
    hide H.Run, H.Valid, SentBy;
    SilentActions(m, ConnectActions(l, t), l);
  }

  lemma AnswerPassSends(m: H.Mesh, l: H.Link, i: nat, t: Turn)
    requires l in m.peers && m.peers[l].phase.Selecting? && InFlight(m, l, i, t) && t.kind.Answer?
    ensures H.Valid(m, PassActions(l, i, t)) && SentBy(m, PassActions(l, i, t), l) == []
  {
    hide H.Run, H.Valid, SentBy, ConnectActions;
    RunOne(m, H.Deliver(i));
    SentOne(m, H.Deliver(i), l);
    ConnectSends(H.Apply(m, H.Deliver(i)), l, t);
    SentConcat(m, [H.Deliver(i)], ConnectActions(l, t), l);
    assert PassActions(l, i, t) == [H.Deliver(i)] + ConnectActions(l, t);
  }

  lemma OfferPassSends(m: H.Mesh, l: H.Link, i: nat, t: Turn)
    requires l in m.peers && m.peers[l].phase.Selecting? && InFlight(m, l, i, t) && t.kind.Offer?
    ensures H.Valid(m, PassActions(l, i, t))
    ensures SentBy(m, PassActions(l, i, t), l) == if t.answerReaches then [H.Message(m.peers[l], H.Answer)] else []
  {
    hide H.Run, H.Valid, SentBy, ConnectActions;
    var answer := H.SignalAnswer(l, t.answerOk, t.answerReaches);
    RunOne(m, H.Deliver(i));
    SentOne(m, H.Deliver(i), l);
    var m1 := H.Apply(m, H.Deliver(i));
    RunOne(m1, answer);
    SentOne(m1, answer, l);
    RunConcat(m, [H.Deliver(i)], [answer]);
    SentConcat(m, [H.Deliver(i)], [answer], l);
    if t.answerOk {
      ConnectSends(H.Apply(m1, answer), l, t);
      SentConcat(m, [H.Deliver(i)] + [answer], ConnectActions(l, t), l);
    } else {
      assert PassActions(l, i, t) == [H.Deliver(i)] + [answer];
    }
  }

  lemma PassSends(m: H.Mesh, l: H.Link, i: nat, t: Turn)
    requires l in m.peers && m.peers[l].phase.Selecting? && InFlight(m, l, i, t)
    ensures H.Valid(m, PassActions(l, i, t))
    ensures SentBy(m, PassActions(l, i, t), l) == AnswersSent(m.peers[l], [t])
  {
    PassesStep(m.peers[l], [t], 0);
    PassesEnd(OnePass(m.peers[l], t), []);
    hide OnePass, AnswersSent, PassActions, H.Run, H.Valid, SentBy;
    assert [t][0..] == [t] && [t][1..] == [];
    if t.kind.Answer? {
      AnswerPassSends(m, l, i, t);
    } else {
      OfferPassSends(m, l, i, t);
    }
  }

  // ---- the rounds of the loop --------------------------------------------------------------------------

  /** One round of the loop: what the rest of the mesh does first, and the message that is then taken. */
  datatype Round = Round(others: seq<H.Action>, index: nat, turn: Turn)

  function Turns(rounds: seq<Round>): seq<Turn> {
    if rounds == [] then [] else [rounds[0].turn] + Turns(rounds[1..])
  }

  /** The actions of the mesh in those rounds; a loop that has ended takes nothing more. */
  function RoundActions(i: H.Ice, l: H.Link, rounds: seq<Round>): seq<H.Action>
    decreases rounds
  {
    if rounds == [] || !i.phase.Selecting? then
      []
    else
      var r := rounds[0];
      (r.others + PassActions(l, r.index, r.turn)) + RoundActions(OnePass(i, r.turn), l, rounds[1..])
  }

  /** What the others do is possible and concerns other links, and each message taken is then in flight. */
  ghost predicate Feeds(m: H.Mesh, l: H.Link, rounds: seq<Round>)
    requires l in m.peers
    decreases rounds
  {
    rounds != [] && m.peers[l].phase.Selecting? ==>
      var r := rounds[0];
      && H.Valid(m, r.others) && Elsewhere(m, r.others, l)
      && (ElsewhereKeeps(m, r.others, l);
          var m1 := H.Run(m, r.others);
          InFlight(m1, l, r.index, r.turn) && Feeds(AfterPass(m1, l, r.index, r.turn), l, rounds[1..]))
  }

  lemma RoundIsRun(m: H.Mesh, l: H.Link, r: Round)
    requires l in m.peers && m.peers[l].phase.Selecting?
    requires H.Valid(m, r.others) && Elsewhere(m, r.others, l)
    requires InFlight(H.Run(m, r.others), l, r.index, r.turn)
    ensures H.Run(m, r.others).peers.Keys >= {l} && H.Run(m, r.others).peers[l] == m.peers[l]
    ensures var acts := r.others + PassActions(l, r.index, r.turn);
            && H.Valid(m, acts)
            && H.Run(m, acts) == AfterPass(H.Run(m, r.others), l, r.index, r.turn)
            && SentBy(m, acts, l) == AnswersSent(m.peers[l], [r.turn])
  {
    hide OnePass, AnswersSent, H.Run, H.Valid, SentBy, Elsewhere, PassActions, InFlight;
    ElsewhereKeeps(m, r.others, l);
    var m1 := H.Run(m, r.others);
    PassRefinesProtocol(m1, l, r.index, r.turn);
    PassSends(m1, l, r.index, r.turn);
    RunConcat(m, r.others, PassActions(l, r.index, r.turn));
    SentConcat(m, r.others, PassActions(l, r.index, r.turn), l);
  }

  lemma FirstTurn(i: H.Ice, rounds: seq<Round>)
    requires rounds != [] && i.phase.Selecting?
    ensures var t, rest := rounds[0].turn, Turns(rounds[1..]);
            && Passes(i, Turns(rounds)) == Passes(OnePass(i, t), rest)
            && AnswersSent(i, Turns(rounds)) == AnswersSent(i, [t]) + AnswersSent(OnePass(i, t), rest)
  {
    hide OnePass;
    var t := rounds[0].turn;
    PassesStep(i, Turns(rounds), 0);
    PassesStep(i, [t], 0);
    PassesEnd(OnePass(i, t), []);
    assert Turns(rounds)[0..] == Turns(rounds) && Turns(rounds)[1..] == Turns(rounds[1..]);
    assert [t][0..] == [t] && [t][1..] == [];
  }

  /** The loop as a run: it leaves the Ice of the object, and has sent what the object has sent. */
  lemma {:induction false} RoundsAreRun(m: H.Mesh, l: H.Link, rounds: seq<Round>)
    requires l in m.peers && Feeds(m, l, rounds)
    ensures var acts := RoundActions(m.peers[l], l, rounds);
            && H.Valid(m, acts)
            && l in H.Run(m, acts).peers
            && H.Run(m, acts).peers[l] == Passes(m.peers[l], Turns(rounds))
            && SentBy(m, acts, l) == AnswersSent(m.peers[l], Turns(rounds))
    decreases rounds
  {
    var i := m.peers[l];
    if rounds != [] && i.phase.Selecting? {
      var r, rest := rounds[0], rounds[1..];
      RoundIsRun(m, l, r);
      var next := AfterPass(H.Run(m, r.others), l, r.index, r.turn);
      RoundsAreRun(next, l, rest);
      var first := r.others + PassActions(l, r.index, r.turn);
      RunConcat(m, first, RoundActions(next.peers[l], l, rest));
      SentConcat(m, first, RoundActions(next.peers[l], l, rest), l);
      FirstTurn(i, rounds);
      hide OnePass, AnswersSent, H.Run, H.Valid, SentBy, Elsewhere, PassActions, Passes, Feeds, Turns;
    } else {
      PassesEnd(i, Turns(rounds));
    }
  }

  // ---- from the start -------------------------------------------------------------------------------------

  function StartActions(l: H.Link, reaches: bool): seq<H.Action> {
    [H.Start(l)] + [H.SignalOffer(l, reaches)] + [H.ReachSelect(l)]
  }

  function OfferSent(i: H.Ice, reaches: bool): seq<H.Envelope> {
    if reaches then [H.Message(i, H.Offer)] else []
  }

  /** The mesh once the offer has been made and the loop waits. */
  function Started(m: H.Mesh, l: H.Link, reaches: bool): H.Mesh
    requires l in m.peers
  {
    H.Mesh(m.peers[l := Waiting(m.peers[l])], m.net + OfferSent(m.peers[l], reaches))
  }

  lemma StartIsRun(m: H.Mesh, l: H.Link, reaches: bool)
    requires l in m.peers && m.peers[l].phase.NotStarted?
    ensures H.Valid(m, StartActions(l, reaches))
    ensures H.Run(m, StartActions(l, reaches)) == Started(m, l, reaches)
    ensures SentBy(m, StartActions(l, reaches), l) == OfferSent(m.peers[l], reaches)
  {
    hide H.Run, H.Valid, SentBy;
    var start, offer, enter := H.Start(l), H.SignalOffer(l, reaches), H.ReachSelect(l);
    RunOne(m, start);
    SentOne(m, start, l);
    var m1 := H.Apply(m, start);
    RunOne(m1, offer);
    SentOne(m1, offer, l);
    RunConcat(m, [start], [offer]);
    SentConcat(m, [start], [offer], l);
    var m2 := H.Apply(m1, offer);
    RunOne(m2, enter);
    SentOne(m2, enter, l);
    RunConcat(m, [start] + [offer], [enter]);
    SentConcat(m, [start] + [offer], [enter], l);
  }

  /** What Ice.Gather does on the object -- the final state of the Ice, and all that it has sent, in order --
      is what a run of the mesh does to the Ice of link l and sends from it. The run consists of the start,
      the passes, and in between whatever the others do. */
  lemma GatherIsRun(m: H.Mesh, l: H.Link, reaches: bool, rounds: seq<Round>)
    requires l in m.peers && m.peers[l].phase.NotStarted?
    requires Feeds(Started(m, l, reaches), l, rounds)
    ensures var acts := StartActions(l, reaches) + RoundActions(Waiting(m.peers[l]), l, rounds);
            && H.Valid(m, acts)
            && l in H.Run(m, acts).peers
            && H.Run(m, acts).peers[l] == Passes(Waiting(m.peers[l]), Turns(rounds))
            && SentBy(m, acts, l)
               == OfferSent(m.peers[l], reaches) + AnswersSent(Waiting(m.peers[l]), Turns(rounds))
  {
    hide OnePass, AnswersSent, H.Run, H.Valid, SentBy, StartActions, RoundActions, Passes, Feeds, Turns;
    StartIsRun(m, l, reaches);
    var rest := RoundActions(Waiting(m.peers[l]), l, rounds);
    RoundsAreRun(Started(m, l, reaches), l, rounds);
    RunConcat(m, StartActions(l, reaches), rest);
    SentConcat(m, StartActions(l, reaches), rest, l);
  }
}
