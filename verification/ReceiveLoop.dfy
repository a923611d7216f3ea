/** What the receive loop has done after any sequence of turns, told from the outcomes of the calls alone. */
module ReceiveLoop {
  import opened Prelude
  import opened ByteOrder
  import opened IceObjects
  import H = Handshake

  /** Everything that the loop looks at in this turn goes well. */
  predicate AllWell(t: Turn) {
    && (t.kind.Offer? ==> t.answerOk)
    && t.gatherOk && t.linkOk && t.proxyOk && t.reportOk
  }

  /** The turn gets as far as a new connection. */
  predicate Connects(t: Turn) {
    (t.kind.Offer? ==> t.answerOk) && t.gatherOk
  }

  predicate AllTurnsWell(turns: seq<Turn>) {
    turns == [] || (AllWell(turns[0]) && AllTurnsWell(turns[1..]))
  }

  /** The turns up to and including the first that fails. */
  function Taken(turns: seq<Turn>): seq<Turn> {
    if turns == [] then []
    else [turns[0]] + if AllWell(turns[0]) then Taken(turns[1..]) else []
  }

  lemma {:induction false} TakenMeaning(turns: seq<Turn>)
    ensures AllTurnsWell(turns) <==> forall t <- turns :: AllWell(t)
    ensures Taken(turns) <= turns
    ensures forall k | 0 <= k < |Taken(turns)| - 1 :: AllWell(turns[k])
    ensures AllTurnsWell(turns) ==> Taken(turns) == turns
    ensures !AllTurnsWell(turns) ==> Taken(turns) != [] && !AllWell(turns[|Taken(turns)| - 1])
  {
    hide AllWell;
    if turns != [] {
      TakenMeaning(turns[1..]);
      assert turns == [turns[0]] + turns[1..];
    }
  }

  /** One answer per offer in these turns, unless it is lost, each with the local credentials. */
  function Answers(i: H.Ice, turns: seq<Turn>): seq<H.Envelope> {
    if turns == [] then
      []
    else
      var t := turns[|turns| - 1];
      Answers(i, turns[..|turns| - 1])
      + if t.kind.Offer? && t.answerReaches then [H.Envelope(i.remoteNodeKey, i.nk, H.Answer, i.agent)] else []
  }

  /** The connection made in the last of these turns that made one: the side with the smaller key dials. */
  function LatestConn(i: H.Ice, turns: seq<Turn>): Option<H.Conn> {
    if turns == [] then
      i.conn
    else
      var t := turns[|turns| - 1];
      if Connects(t) then
        var role := if Less(i.wgPubKey, i.remoteWgPubKey) then H.Dialer else H.Acceptor;
        Some(H.Conn(t.credentials, role, t.linkOk && t.proxyOk))
      else
        LatestConn(i, turns[..|turns| - 1])
  }

  /** The Ice once these turns have been taken. */
  function AfterTurns(i: H.Ice, turns: seq<Turn>, waits: bool): H.Ice {
    i.(phase := if waits then H.Selecting else H.Exited, conn := LatestConn(i, turns))
  }

  lemma OneTurn(i: H.Ice, t: Turn)
    requires i.phase.Selecting?
    ensures OnePass(i, t) == AfterTurns(i, [t], AllWell(t))
  {
    assert [t][..0] == [];
    assert LatestConn(i, []) == i.conn;
    if Connects(t) {
      assert OnePass(i, t).conn == LatestConn(i, [t]);
    } else {
      assert LatestConn(i, [t]) == i.conn;
      assert OnePass(i, t).conn == i.conn;
    }
  }

  lemma {:induction false} LatestConnConcat(i: H.Ice, t: Turn, turns: seq<Turn>, j: H.Ice)
    requires H.SameIdentity(i, j) && j.conn == LatestConn(i, [t])
    ensures LatestConn(i, [t] + turns) == LatestConn(j, turns)
  {
    if turns == [] {
      assert [t] + turns == [t];
    } else {
      assert ([t] + turns)[..|turns|] == [t] + turns[..|turns| - 1];
      LatestConnConcat(i, t, turns[..|turns| - 1], j);
    }
  }

  lemma {:induction false} AnswersConcat(i: H.Ice, t: Turn, turns: seq<Turn>, j: H.Ice)
    requires H.SameIdentity(i, j)
    ensures Answers(i, [t] + turns) == Answers(i, [t]) + Answers(j, turns)
  {
    if turns == [] {
      assert [t] + turns == [t];
    } else {
      assert ([t] + turns)[..|turns|] == [t] + turns[..|turns| - 1];
      AnswersConcat(i, t, turns[..|turns| - 1], j);
    }
  }

  lemma SingleAnswer(i: H.Ice, t: Turn)
    ensures Answers(i, [t]) == if t.kind.Offer? && t.answerReaches then [H.Message(i, H.Answer)] else []
  {
    assert [t][..0] == [];
  }

  lemma NothingTaken(i: H.Ice)
    ensures LatestConn(i, []) == i.conn && Answers(i, []) == []
  {
  }

  lemma {:induction false} LoopSteps(i: H.Ice, turns: seq<Turn>)
    requires i.phase.Selecting?
    ensures Passes(i, turns) == AfterTurns(i, Taken(turns), AllTurnsWell(turns))
    ensures AnswersSent(i, turns) == Answers(i, Taken(turns))
    decreases |turns|
  {
    hide OnePass, LatestConn, Answers, AllWell;
    if turns == [] {
      PassesEnd(i, turns);
      NothingTaken(i);
    } else {
      var t, rest := turns[0], turns[1..];
      assert turns[0..] == turns;
      PassesStep(i, turns, 0);
      OneTurn(i, t);
      SingleAnswer(i, t);
      var next := OnePass(i, t);
      if AllWell(t) {
        LoopSteps(next, rest);
        LatestConnConcat(i, t, Taken(rest), next);
        AnswersConcat(i, t, Taken(rest), next);
      } else {
        PassesEnd(next, rest);
        assert [t] + [] == [t];
      }
    }
  }

  /** The loop still waits if and only if everything it looks at went well in every turn, and has ended
      otherwise. Up to the first failure it has answered each offer, and its connection is the latest made;
      from then on it sends nothing more and makes no new connection. */
  lemma LoopOutcome(i: H.Ice, turns: seq<Turn>)
    requires i.phase.Selecting?
    ensures Passes(i, turns).phase.Selecting? <==> forall t <- turns :: AllWell(t)
    ensures Passes(i, turns) == AfterTurns(i, Taken(turns), forall t <- turns :: AllWell(t))
    ensures AnswersSent(i, turns) == Answers(i, Taken(turns))
  {
    LoopSteps(i, turns);
    TakenMeaning(turns);
  }

  lemma {:induction false} SameFacts(i: H.Ice, j: H.Ice, turns: seq<Turn>)
    requires H.SameIdentity(i, j) && i.conn == j.conn
    ensures LatestConn(i, turns) == LatestConn(j, turns) && Answers(i, turns) == Answers(j, turns)
  {
    if turns != [] {
      SameFacts(i, j, turns[..|turns| - 1]);
    }
  }

  /** The same from the start of the gathering process on, as Ice.Gather performs it. */
  lemma GatherOutcome(i: H.Ice, turns: seq<Turn>)
    ensures Passes(Waiting(i), turns).phase.Selecting? <==> forall t <- turns :: AllWell(t)
    ensures Passes(Waiting(i), turns)
            == AfterTurns(i, Taken(turns), forall t <- turns :: AllWell(t)).(offering := false)
    ensures AnswersSent(Waiting(i), turns) == Answers(i, Taken(turns))
  {
    LoopOutcome(Waiting(i), turns);
    SameFacts(Waiting(i), i, Taken(turns));
  }
}
