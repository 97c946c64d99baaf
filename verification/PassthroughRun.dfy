/** Passthrough mode, turn by turn: every packet crosses to the server and back. */
module PassthroughRun {
  import opened Prelude
  import opened EapTls
  import opened Radius
  import opened SessionState
  import opened Endpoints
  import opened Authentication

  /** In passthrough the server must give consecutive Requests different Identifiers. */
  ghost predicate FreshIds(sc: Scenario) {
    forall n: nat :: sc.ids(n + 1) != sc.ids(n)
  }

  predicate Between(sc: Scenario, a: Auth, v: Srv) {
    && sc.settings.mode.Passthrough? && a.session.settings == sc.settings && a.session.result.None?
    && Linked(sc, a.session.server, v)
    && a.session.server.roundTrips == |a.session.server.requests|
    && a.peer.verdict.None? && a.peer.lastId == sc.ids(v.count - 1)
  }

  /** One packet each way. */
  const CROSSING := Bill(1, Metrics(1, 1, 0, 0), Metrics(0, 1, 0, 0))

  /** k packets over, a challenge back for each but the terminal one, if any. */
  function Crossings(k: nat, turn: Turn): Bill
    requires k >= 1
  {
    Bill(k, Metrics(k, k, 0, 0), Metrics(0, if turn.Close? then k - 1 else k, 0, 0))
  }

  /** The packet reaches the server as it is, and a challenge comes back as it is. */
  lemma Relay(sc: Scenario, a: Auth, v: Srv)
    requires Proper(sc) && Between(sc, a, v) && |a.session.server.requests| < sc.lifetime
    requires a.peer.toSend != [] ==> WellCut(a.peer.toSend, sc.overhead)
    requires v.pending != [] ==> WellCut(v.pending, sc.overhead)
    requires SrvHear(sc, v, NextPacket(a.peer)).Some?
    requires SrvHear(sc, v, NextPacket(a.peer)).value.1.code == ACCESS_CHALLENGE
    ensures var (v', answer) := SrvHear(sc, v, NextPacket(a.peer)).value;
            && answer.Eap().Some?
            && var peer := PeerReceive(sc, a.peer, answer.Eap().value);
            peer.Some? && peer.value.lastId == sc.ids(v.count) && peer.value.verdict.None? ==>
              && Step(sc, a).Some? && Step(sc, a).value.peer == peer.value
              && Between(sc, Step(sc, a).value, v')
              && Billed(a.session, Step(sc, a).value.session, CROSSING)
  {
    hide SrvStep, Encode, Exchange, Parse, SrvHear;
    var eap := PeerPacket(a.peer);
    PeerPacketParses(sc, a.peer);
    StrictExchange(sc, Noted(sc, a).server, v, eap);
    ReactionFacts(sc, v, NextPacket(a.peer));
  }

  /** A fragment of a flight crosses for the supplicant's ACK. */
  lemma FlightStep(sc: Scenario, a: Auth, v: Srv)
    requires Proper(sc) && FreshIds(sc) && Between(sc, a, v) && |a.session.server.requests| < sc.lifetime
    requires WellCut(v.pending, sc.overhead) && a.peer.toSend == []
    ensures Step(sc, a).Some?
    ensures var b := Step(sc, a).value;
            && b.peer == PeerAfterFragment(sc, a.peer, sc.ids(v.count), v.pending)
            && Between(sc, b, v.(count := v.count + 1, pending := v.pending[1..]))
            && Billed(a.session, b.session, CROSSING)
  {
    assert sc.ids(v.count - 1 + 1) != sc.ids(v.count - 1);
    FragFacts(sc, v.count, v.pending);
    PrintedFrag(REQUEST, sc.ids(v.count), v.pending, sc.overhead);
    PeerTakesFragment(sc, a.peer, PrintFrag(REQUEST, sc.ids(v.count), v.pending), sc.ids(v.count), v.pending);
    Relay(sc, a, v);
  }

  lemma Settled(sc: Scenario, a: Auth, v: Srv, d: Dialogue)
    requires Between(sc, a, v) && v.heard == d.said && v.inbox == CLOSED && v.pending == []
    requires PeerReady(sc, a.peer, d)
    ensures AtTurn(sc, a, d)
  {
    assert v == RestingSrv(a.session.server, d.said);
  }

  /** The rest of a flight crosses, one ACK for each fragment. */
  lemma {:induction false} FlightCrosses(sc: Scenario, a: Auth, v: Srv, d: Dialogue)
    requires Proper(sc) && FreshIds(sc) && Between(sc, a, v)
    requires WellCut(v.pending, sc.overhead) && v.inbox == CLOSED && v.heard == d.said
    requires a.peer.toSend == [] && a.peer.said == d.said
    requires d.verdict.None? && d.heard == a.peer.heard + [a.peer.inbox.data + Content(v.pending)]
    requires |a.session.server.requests| + |v.pending| <= sc.lifetime
    ensures Arrives(sc, a, |v.pending|, Crossings(|v.pending|, Flight(v.pending)), d)
    decreases |v.pending|
  {
    hide Arrives, Step, Parse, Encode, SrvAfter;
    FlightStep(sc, a, v);
    var b := Step(sc, a).value;
    if |v.pending| == 1 {
      PeerFinishes(sc, a.peer, sc.ids(v.count), v.pending, d);
      Settled(sc, b, v.(count := v.count + 1, pending := v.pending[1..]), d);
      ArrivesNow(sc, a, CROSSING, d);
    } else {
      PeerGoesOn(sc, a.peer, sc.ids(v.count), v.pending);
      TailIsWellCut(v.pending, sc.overhead);
      FlightCrosses(sc, b, v.(count := v.count + 1, pending := v.pending[1..]), d);
      ArrivesStep(sc, a, |v.pending|, CROSSING, Crossings(|v.pending| - 1, Flight(v.pending)), d);
    }
  }

  /** How many exchanges the server's turn costs beyond the packet that ended the supplicant's. */
  function FlightCost(turn: Turn): nat {
    match turn
    case Flight(cut) => if cut == [] then 0 else |cut| - 1
    case Close(_) => 0
  }

  /** The packet that hands the turn to the server is about to cross. */
  predicate TurnIsDue(sc: Scenario, a: Auth, v: Srv, d: Dialogue) {
    && Between(sc, a, v) && v.heard == d.said && v.pending == []
    && |a.peer.toSend| <= 1 && (a.peer.toSend != [] ==> WellCut(a.peer.toSend, sc.overhead))
    && d.verdict.None? && a.peer.heard == d.heard && a.peer.inbox == CLOSED
    && a.peer.said == d.said + [ActMeans(sc.client(d.heard))]
    && SrvHear(sc, v, NextPacket(a.peer)) == SrvTurn(sc, v, a.peer.said)
  }

  /** That packet, and all that follows up to the next turn. */
  lemma TurnCrosses(sc: Scenario, a: Auth, v: Srv, d: Dialogue)
    requires Proper(sc) && FreshIds(sc) && TurnIsDue(sc, a, v, d)
    requires |a.session.server.requests| + 1 + FlightCost(sc.serve(a.peer.said)) <= sc.lifetime
    ensures var turn := sc.serve(a.peer.said);
            var k := 1 + FlightCost(turn);
            Arrives(sc, a, k, Crossings(k, turn), NextDialogue(sc, d))
  {
    hide Arrives, Step;
    if sc.serve(a.peer.said).Close? {
      ClosingCrosses(sc, a, v, d);
      ArrivesNow(sc, a, Crossings(1, sc.serve(a.peer.said)), NextDialogue(sc, d));
    } else {
      AnswerCrosses(sc, a, v, d);
    }
  }

  lemma ClosingCrosses(sc: Scenario, a: Auth, v: Srv, d: Dialogue)
    requires Proper(sc) && TurnIsDue(sc, a, v, d) && |a.session.server.requests| < sc.lifetime
    requires sc.serve(a.peer.said).Close?
    ensures Step(sc, a).Some?
    ensures var b := Step(sc, a).value;
            Over(sc, b, NextDialogue(sc, d)) && Billed(a.session, b.session, Crossings(1, sc.serve(a.peer.said)))
  {
    hide SrvStep, Exchange, Encode;
    PeerPacketParses(sc, a.peer);
    StrictExchange(sc, Noted(sc, a).server, v, PeerPacket(a.peer));
    ClosingFacts(sc.serve(a.peer.said).verdict, sc.ids(v.count - 1));
  }

  lemma AnswerCrosses(sc: Scenario, a: Auth, v: Srv, d: Dialogue)
    requires Proper(sc) && FreshIds(sc) && TurnIsDue(sc, a, v, d)
    requires sc.serve(a.peer.said).Flight?
    requires |a.session.server.requests| + |sc.serve(a.peer.said).cut| <= sc.lifetime
    ensures var turn := sc.serve(a.peer.said);
            turn.cut != [] && Arrives(sc, a, |turn.cut|, Crossings(|turn.cut|, turn), NextDialogue(sc, d))
  {
    hide Arrives, Step, AtTurn, PrintFrag, Encode, Parse, Exchange, SrvAfter;
    var cut, d' := sc.serve(a.peer.said).cut, NextDialogue(sc, d);
    assert sc.ids(v.count - 1 + 1) != sc.ids(v.count - 1);
    FragFacts(sc, v.count, cut);
    PrintedFrag(REQUEST, sc.ids(v.count), cut, sc.overhead);
    PeerTakesFragment(sc, a.peer, PrintFrag(REQUEST, sc.ids(v.count), cut), sc.ids(v.count), cut);
    Relay(sc, a, v);
    var b, v' := Step(sc, a).value, Srv(v.count + 1, a.peer.said, CLOSED, cut[1..]);
    assert CLOSED.data + Content(cut) == Content(cut);
    if |cut| == 1 {
      PeerFinishes(sc, a.peer, sc.ids(v.count), cut, d');
      Settled(sc, b, v', d');
      ArrivesNow(sc, a, CROSSING, d');
    } else {
      PeerGoesOn(sc, a.peer, sc.ids(v.count), cut);
      TailIsWellCut(cut, sc.overhead);
      FlightCrosses(sc, b, v', d');
      ArrivesStep(sc, a, |cut|, CROSSING, Crossings(|cut| - 1, Flight(cut)), d');
    }
  }

  /** In the middle of the supplicant's message: what it has sent is with the server. */
  predicate Saying(sc: Scenario, a: Auth, v: Srv, d: Dialogue) {
    var act := sc.client(d.heard);
    && Between(sc, a, v) && v.heard == d.said && v.pending == []
    && d.verdict.None? && a.peer.heard == d.heard && a.peer.inbox == CLOSED
    && act.Say? && a.peer.said == d.said + [Some(Content(act.cut))]
    && WellCut(a.peer.toSend, sc.overhead) && v.inbox.data + Content(a.peer.toSend) == Content(act.cut)
  }

  /** The supplicant's message crosses fragment by fragment, then the server takes its turn. */
  lemma {:induction false} MessageCrosses(sc: Scenario, a: Auth, v: Srv, d: Dialogue)
    requires Proper(sc) && FreshIds(sc) && Saying(sc, a, v, d)
    requires |a.session.server.requests| + |a.peer.toSend| + FlightCost(sc.serve(a.peer.said)) <= sc.lifetime
    ensures var turn := sc.serve(a.peer.said);
            var k := |a.peer.toSend| + FlightCost(turn);
            Arrives(sc, a, k, Crossings(k, turn), NextDialogue(sc, d))
    decreases |a.peer.toSend|
  {
    hide Arrives, Step, Encode, Parse, Linked, SrvAfter;
    PrintedFrag(RESPONSE, a.peer.lastId, a.peer.toSend, sc.overhead);
    ContentStep(a.peer.toSend);
    if |a.peer.toSend| == 1 {
      assert Content(a.peer.toSend) == a.peer.toSend[0].data;
      TurnCrosses(sc, a, v, d);
    } else {
      FragmentCrosses(sc, a, v, d);
      var b := Step(sc, a).value;
      var inbox := Inbox(true, v.inbox.data + a.peer.toSend[0].data);
      MessageCrosses(sc, b, v.(count := v.count + 1, inbox := inbox), d);
      var k := |a.peer.toSend| + FlightCost(sc.serve(a.peer.said));
      ArrivesStep(sc, a, k, CROSSING, Crossings(k - 1, sc.serve(a.peer.said)), NextDialogue(sc, d));
    }
  }

  lemma FragmentCrosses(sc: Scenario, a: Auth, v: Srv, d: Dialogue)
    requires Proper(sc) && FreshIds(sc) && Saying(sc, a, v, d) && |a.peer.toSend| > 1
    requires |a.session.server.requests| < sc.lifetime
    ensures Step(sc, a).Some?
    ensures var b := Step(sc, a).value;
            && b.peer.toSend == a.peer.toSend[1..] && b.peer.said == a.peer.said
            && Billed(a.session, b.session, CROSSING)
            && Saying(sc, b, v.(count := v.count + 1, inbox := Inbox(true, v.inbox.data + a.peer.toSend[0].data)), d)
  {
    hide Arrives, Step, Encode, Parse, Exchange, SrvAfter;
    PrintedFrag(RESPONSE, a.peer.lastId, a.peer.toSend, sc.overhead);
    AckParses(REQUEST, sc.ids(v.count));
    AckFits(sc, REQUEST, sc.ids(v.count));
    ChallengeFacts(sc, v.count, BuildAck(REQUEST, sc.ids(v.count)));
    assert sc.ids(v.count - 1 + 1) != sc.ids(v.count - 1);
    Relay(sc, a, v);
    TailIsWellCut(a.peer.toSend, sc.overhead);
    ContentStep(a.peer.toSend);
    assert v.inbox.data + Content(a.peer.toSend)
        == (v.inbox.data + a.peer.toSend[0].data) + Content(a.peer.toSend[1..]);
  }

  /** Datagrams, and exchanges, of one turn of each side in passthrough: one per packet of either. */
  function TurnCost(sc: Scenario, d: Dialogue): (k: nat)
    requires sc.client(d.heard).Say? ==> sc.client(d.heard).cut != []
    ensures k >= 1
  {
    var act := sc.client(d.heard);
    (if act.Say? then |act.cut| else 1) + FlightCost(sc.serve(d.said + [ActMeans(act)]))
  }

  function TurnBill(sc: Scenario, d: Dialogue): Bill
    requires sc.client(d.heard).Say? ==> sc.client(d.heard).cut != []
  {
    Crossings(TurnCost(sc, d), sc.serve(d.said + [ActMeans(sc.client(d.heard))]))
  }

  /** From one turn to the next. */
  lemma NextTurn(sc: Scenario, a: Auth, d: Dialogue)
    requires sc.settings.mode.Passthrough?
    requires Proper(sc) && FreshIds(sc) && AtTurn(sc, a, d) && d.verdict.None?
    requires |a.session.server.requests| + TurnCost(sc, d) <= sc.lifetime
    ensures Arrives(sc, a, TurnCost(sc, d), TurnBill(sc, d), NextDialogue(sc, d))
  {
    hide Arrives, Step, Encode, Parse, SrvAfter;
    var v, act := RestingSrv(a.session.server, d.said), sc.client(d.heard);
    if act.Say? {
      assert CLOSED.data + Content(act.cut) == Content(act.cut);
      MessageCrosses(sc, a, v, d);
    } else {
      TurnCrosses(sc, a, v, d);
    }
  }
}
