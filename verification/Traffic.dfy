/** Signalling is finite: conservation of messages, and a bound on the length of every run. */
module Traffic {
  import opened Prelude
  import opened ByteOrder
  import opened Handshake
  import opened Projection

  // ---- sums over all links ----------------------------------------------------------------------

  ghost function Sum(peers: map<Link, Ice>, weight: Ice -> nat): nat
    decreases |peers|
  {
    if peers == map[] then
      0
    else
      var l :| l in peers;
      weight(peers[l]) + Sum(peers - {l}, weight)
  }

  /** The sum does not depend on the order in which links are taken. */
  lemma {:induction false} SumTakes(peers: map<Link, Ice>, weight: Ice -> nat, l: Link)
    requires l in peers
    ensures Sum(peers, weight) == weight(peers[l]) + Sum(peers - {l}, weight)
    decreases |peers|
  {
    var k :| k in peers && Sum(peers, weight) == weight(peers[k]) + Sum(peers - {k}, weight);
    if k != l {
      SumTakes(peers - {k}, weight, l);
      SumTakes(peers - {l}, weight, k);
      assert peers - {k} - {l} == peers - {l} - {k};
    }
  }

  lemma SumUpdate(peers: map<Link, Ice>, weight: Ice -> nat, l: Link, i: Ice)
    requires l in peers
    ensures Sum(peers[l := i], weight) + weight(peers[l]) == Sum(peers, weight) + weight(i)
  {
    SumTakes(peers, weight, l);
    SumTakes(peers[l := i], weight, l);
    assert peers[l := i] - {l} == peers - {l};
  }

  lemma {:induction false} SumAtMost(peers: map<Link, Ice>, weight: Ice -> nat)
    requires forall i :: weight(i) <= 1
    ensures Sum(peers, weight) <= |peers|
    decreases |peers|
  {
    if peers != map[] {
      var l :| l in peers;
      SumTakes(peers, weight, l);
      SumAtMost(peers - {l}, weight);
    }
  }

  lemma {:induction false} SumOfZeros(peers: map<Link, Ice>, weight: Ice -> nat)
    requires forall l <- peers :: weight(peers[l]) == 0
    ensures Sum(peers, weight) == 0
    decreases |peers|
  {
    if peers != map[] {
      var l :| l in peers;
      SumTakes(peers, weight, l);
      SumOfZeros(peers - {l}, weight);
    }
  }

  /** How one action moves a sum over the links. */
  lemma SumAfter(m: Mesh, a: Action, weight: Ice -> nat)
    requires Enabled(m, a)
    ensures a.Lose? ==> Sum(Apply(m, a).peers, weight) == Sum(m.peers, weight)
    ensures !a.Lose? ==>
              Sum(Apply(m, a).peers, weight) + weight(m.peers[LinkOf(m, a).value])
              == Sum(m.peers, weight) + weight(IceAfter(m, a))
  {
    if !a.Lose? {
      SumUpdate(m.peers, weight, LinkOf(m, a).value, IceAfter(m, a));
    }
  }

  // ---- counting what a run does ----------------------------------------------------------------------

  /** Totals of a run: calls made, messages that reached the network, and what became of them. */
  datatype Ledger = Ledger(
    starts: nat,
    offerCalls: nat,
    offersSent: nat,
    offersAccepted: nat,
    offersDropped: nat,
    answerCalls: nat,
    answersSent: nat,
    answersTaken: nat)

  function Enter(t: Ledger, m: Mesh, a: Action): Ledger
    requires Enabled(m, a)
  {
    match a
    case Start(_) => t.(starts := t.starts + 1)
    case SignalOffer(_, reaches) =>
      t.(offerCalls := t.offerCalls + 1, offersSent := t.offersSent + if reaches then 1 else 0)
    case SignalAnswer(_, _, reaches) =>
      t.(answerCalls := t.answerCalls + 1, answersSent := t.answersSent + if reaches then 1 else 0)
    case Deliver(i) =>
      if m.net[i].kind.Answer? then t.(answersTaken := t.answersTaken + 1)
      else if m.peers[Target(m.net[i])].phase.Selecting? then t.(offersAccepted := t.offersAccepted + 1)
      else t.(offersDropped := t.offersDropped + 1)
    case Lose(i) =>
      if m.net[i].kind.Answer? then t.(answersTaken := t.answersTaken + 1)
      else t.(offersDropped := t.offersDropped + 1)
    case _ => t
  }

  function Totals(m: Mesh, acts: seq<Action>): Ledger
    requires Valid(m, acts)
  {
    if acts == [] then
      Ledger(0, 0, 0, 0, 0, 0, 0, 0)
    else
      var before := acts[..|acts| - 1];
      Enter(Totals(m, before), Run(m, before), acts[|acts| - 1])
  }

  function Count(net: seq<Envelope>, kind: Kind): nat {
    if net == [] then 0 else Count(net[..|net| - 1], kind) + if net[|net| - 1].kind == kind then 1 else 0
  }

  lemma {:induction false} CountConcat(s: seq<Envelope>, t: seq<Envelope>, kind: Kind)
    ensures Count(s + t, kind) == Count(s, kind) + Count(t, kind)
    decreases |t|
  {
    if t == [] {
      assert s + t == s;
    } else {
      CountConcat(s, t[..|t| - 1], kind);
      assert (s + t)[..|s + t| - 1] == s + t[..|t| - 1];
    }
  }

  lemma CountRemove(net: seq<Envelope>, i: nat, kind: Kind)
    requires i < |net|
    ensures Count(net, kind) == Count(RemoveAt(net, i), kind) + if net[i].kind == kind then 1 else 0
  {
    assert net == net[..i] + ([net[i]] + net[i + 1..]);
    CountConcat(net[..i], [net[i]] + net[i + 1..], kind);
    CountConcat([net[i]], net[i + 1..], kind);
    CountConcat(net[..i], net[i + 1..], kind);
    assert [net[i]][..0] == [];
  }

  lemma CountOne(e: Envelope, kind: Kind)
    ensures Count([e], kind) == if e.kind == kind then 1 else 0
  {
    assert [e][..0] == [];
  }

  /** How one action moves the number of messages in flight. */
  lemma CountAfter(m: Mesh, a: Action, kind: Kind)
    requires Enabled(m, a)
    ensures match a
            case SignalOffer(_, reaches) =>
              Count(NetAfter(m, a), kind) == Count(m.net, kind) + if reaches && kind.Offer? then 1 else 0
            case SignalAnswer(_, _, reaches) =>
              Count(NetAfter(m, a), kind) == Count(m.net, kind) + if reaches && kind.Answer? then 1 else 0
            case Deliver(i) =>
              Count(m.net, kind) == Count(NetAfter(m, a), kind) + if m.net[i].kind == kind then 1 else 0
            case Lose(i) => Count(m.net, kind) == Count(NetAfter(m, a), kind) + if m.net[i].kind == kind then 1 else 0
            case _ => NetAfter(m, a) == m.net
  {
    match a
    case SignalOffer(l, _) =>
      CountConcat(m.net, [Message(m.peers[l], Offer)], kind);
      CountOne(Message(m.peers[l], Offer), kind);
    case SignalAnswer(l, _, _) =>
      CountConcat(m.net, [Message(m.peers[l], Answer)], kind);
      CountOne(Message(m.peers[l], Answer), kind);
    case Deliver(i) => CountRemove(m.net, i, kind);
    case Lose(i) => CountRemove(m.net, i, kind);
    case _ =>
  }

  // ---- conservation -----------------------------------------------------------------------------------

  function Begun(i: Ice): nat {
    if i.phase.NotStarted? then 0 else 1
  }

  function OfferPending(i: Ice): nat {
    if i.offering then 1 else 0
  }

  function AnswerPending(i: Ice): nat {
    if i.phase.Answering? then 1 else 0
  }

  ghost predicate Balanced(t: Ledger, m: Mesh) {
    && t.starts == Sum(m.peers, Begun)
    && t.starts == t.offerCalls + Sum(m.peers, OfferPending)
    && t.offersSent <= t.offerCalls
    && t.offersSent == t.offersAccepted + t.offersDropped + Count(m.net, Offer)
    && t.offersAccepted == t.answerCalls + Sum(m.peers, AnswerPending)
    && t.answersSent <= t.answerCalls
    && t.answersSent == t.answersTaken + Count(m.net, Answer)
  }

  /** An Ice that has not started offers nothing. */
  ghost predicate QuietUntilStarted(m: Mesh) {
    forall l <- m.peers :: m.peers[l].phase.NotStarted? ==> !m.peers[l].offering
  }

  lemma OffersBalance(t: Ledger, m: Mesh, a: Action)
    requires Enabled(m, a) && Balanced(t, m) && QuietUntilStarted(m)
    ensures var t', m' := Enter(t, m, a), Apply(m, a);
            && t'.starts == Sum(m'.peers, Begun)
            && t'.starts == t'.offerCalls + Sum(m'.peers, OfferPending)
            && t'.offersSent <= t'.offerCalls
            && t'.offersSent == t'.offersAccepted + t'.offersDropped + Count(m'.net, Offer)
            && QuietUntilStarted(m')
  {
    hide Count, Sum;
    SumAfter(m, a, Begun);
    SumAfter(m, a, OfferPending);
    CountAfter(m, a, Offer);
  }

  lemma AnswersBalance(t: Ledger, m: Mesh, a: Action)
    requires Enabled(m, a) && Balanced(t, m)
    ensures var t', m' := Enter(t, m, a), Apply(m, a);
            && t'.offersAccepted == t'.answerCalls + Sum(m'.peers, AnswerPending)
            && t'.answersSent <= t'.answerCalls
            && t'.answersSent == t'.answersTaken + Count(m'.net, Answer)
  {
    hide Count, Sum;
    SumAfter(m, a, AnswerPending);
    CountAfter(m, a, Answer);
  }

  lemma BalancedStep(t: Ledger, m: Mesh, a: Action)
    requires Enabled(m, a) && Balanced(t, m) && QuietUntilStarted(m)
    ensures Balanced(Enter(t, m, a), Apply(m, a)) && QuietUntilStarted(Apply(m, a))
  {
    OffersBalance(t, m, a);
    AnswersBalance(t, m, a);
    hide Enter, Apply, Count, Sum, QuietUntilStarted;
  }

  /** In every reachable state each start, offer and answer is accounted for. */
  lemma {:induction false} Conservation(m: Mesh, acts: seq<Action>)
    requires Initial(m) && Valid(m, acts)
    ensures Balanced(Totals(m, acts), Run(m, acts)) && QuietUntilStarted(Run(m, acts))
  {
    if acts == [] {
      SumOfZeros(m.peers, Begun);
      SumOfZeros(m.peers, OfferPending);
      SumOfZeros(m.peers, AnswerPending);
    } else {
      var before := acts[..|acts| - 1];
      Conservation(m, before);
      BalancedStep(Totals(m, before), Run(m, before), acts[|acts| - 1]);
    }
  }

  lemma SameKeysSameSize(p: map<Link, Ice>, q: map<Link, Ice>)
    requires p.Keys == q.Keys
    ensures |p| == |q|
  {
    assert |p| == |p.Keys| && |q| == |q.Keys|;
  }

  /** Answers never trigger messages, and an accepted offer triggers at most one answer. */
  lemma FiniteSignalling(m: Mesh, acts: seq<Action>)
    requires Initial(m) && Valid(m, acts)
    ensures var t := Totals(m, acts);
            t.answersSent <= t.offersAccepted <= t.offersSent <= t.starts <= |m.peers|
  {
    Conservation(m, acts);
    RunIsSafe(m, acts);
    SumAtMost(Run(m, acts).peers, Begun);
    SameKeysSameSize(m.peers, Run(m, acts).peers);
  }

  // ---- a measure that every step after a start decreases --------------------------------------------------

  function Effort(i: Ice): nat {
    (if i.offering then 10 else 0)
    + match i.phase
      case Spawned => 1
      case Answering(_) => 8
      case Gathering(_) => 3
      case Connecting(_) => 2
      case Reporting(_) => 1
      case _ => 0
  }

  ghost function Potential(m: Mesh): nat {
    Sum(m.peers, Effort) + 9 * Count(m.net, Offer) + 4 * Count(m.net, Answer)
  }

  /** Starting costs 11; every other action, delivery and loss included, strictly decreases the measure. */
  lemma PotentialStep(m: Mesh, a: Action)
    requires Enabled(m, a) && QuietUntilStarted(m)
    ensures a.Start? ==> Potential(Apply(m, a)) == Potential(m) + 11
    ensures !a.Start? ==> Potential(Apply(m, a)) < Potential(m)
  {
    hide Count, Sum;
    SumAfter(m, a, Effort);
    CountAfter(m, a, Offer);
    CountAfter(m, a, Answer);
  }

  lemma {:induction false} PotentialRun(m: Mesh, acts: seq<Action>)
    requires Initial(m) && Valid(m, acts)
    ensures |acts| + Potential(Run(m, acts)) <= 12 * Totals(m, acts).starts
  {
    if acts == [] {
      SumOfZeros(m.peers, Effort);
    } else {
      var before := acts[..|acts| - 1];
      PotentialRun(m, before);
      Conservation(m, before);
      PotentialStep(Run(m, before), acts[|acts| - 1]);
    }
  }

  /** Every run is finite: at most twelve steps per gathering process started, and each link starts once. */
  lemma RunsAreBounded(m: Mesh, acts: seq<Action>)
    requires Initial(m) && Valid(m, acts)
    ensures |acts| <= 12 * Totals(m, acts).starts <= 12 * |m.peers|
  {
    PotentialRun(m, acts);
    FiniteSignalling(m, acts);
  }

  lemma RestrictedLink(nodes: set<Text>, m: Mesh, l: Link)
    requires Initial(m) && l in Restrict(nodes, m).peers.Keys
    ensures Inside(nodes, l) && l.node != l.remote
  {
    hide Among;
    assert KeyedAt(m.peers, l);
  }

  lemma InsidePair(a: Text, b: Text, l: Link)
    requires Inside({a, b}, l) && l.node != l.remote
    ensures l == Link(a, b) || l == Link(b, a)
  {
  }

  lemma AtMostTwo(p: map<Link, Ice>, x: Link, y: Link)
    requires p.Keys <= {x, y}
    ensures |p| <= 2
  {
    assert |p| == |p.Keys|;
    assert p.Keys - {x} - {y} == {};
    assert |p.Keys| <= |p.Keys - {x}| + 1 <= |p.Keys - {x} - {y}| + 2;
  }

  lemma PairHasTwoLinks(m: Mesh, a: Text, b: Text)
    requires Initial(m)
    ensures |Restrict({a, b}, m).peers| <= 2
  {
    var keys := Restrict({a, b}, m).peers.Keys;
    hide *;
    forall l | l in keys
      ensures l in {Link(a, b), Link(b, a)}
    {
      RestrictedLink({a, b}, m, l);
      InsidePair(a, b, l);
    }
    AtMostTwo(Restrict({a, b}, m).peers, Link(a, b), Link(b, a));
  }

  /** In a mesh of any size, at most 24 steps of a run ever concern a given pair of nodes. */
  lemma PairTrafficIsBounded(m: Mesh, acts: seq<Action>, a: Text, b: Text)
    requires Initial(m) && Valid(m, acts)
    ensures |SeenRun({a, b}, m, acts)| <= 24
  {
    hide *;
    RunProjects({a, b}, m, acts);
    RunsAreBounded(Restrict({a, b}, m), SeenRun({a, b}, m, acts));
    PairHasTwoLinks(m, a, b);
  }
}
