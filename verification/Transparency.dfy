/**
 The claim of the whole repository: acceleration changes framing, Identifiers and the number
 of exchanges, never what the two TLS stacks say to each other or how it ends. Both modes are
 shown to hold the ideal dialogue, datagram by datagram, at an exactly known price.
 */
module Transparency {
  import opened Prelude
  import opened Octets
  import opened EapTls
  import opened Radius
  import opened SessionState
  import opened MediatorSpec
  import opened Endpoints
  import opened Authentication
  import R = ReassembleRun
  import P = PassthroughRun

  const START := Dialogue([], [], None)

  /** The dialogue of a scenario after n turns. */
  function DialogueOf(sc: Scenario, n: nat): Dialogue {
    if n == 0 then START
    else
      var d := DialogueOf(sc, n - 1);
      if d.verdict.Some? then d else NextDialogue(sc, d)
  }

  /** It is the ideal one, whatever the cutting. */
  lemma {:induction false} DialogueIsIdeal(sc: Scenario, tls: Tls, n: nat)
    requires Runs(sc, tls)
    ensures DialogueOf(sc, n) == Ideal(tls, n)
  {
    if n > 0 {
      DialogueIsIdeal(sc, tls, n - 1);
      var d := Ideal(tls, n - 1);
      assert ActMeans(sc.client(d.heard)) == tls.client(d.heard);
      var said := d.said + [tls.client(d.heard)];
      assert TurnMeans(sc.serve(said)) == tls.server(said);
    }
  }

  /** Everything needed of a scenario; passthrough also needs fresh Identifiers from the server. */
  ghost predicate Sound(sc: Scenario) {
    Proper(sc) && (sc.settings.mode.Passthrough? ==> P.FreshIds(sc))
  }

  ghost function TurnDatagrams(sc: Scenario, d: Dialogue): nat
    requires Sound(sc)
  {
    if sc.settings.mode.Reassemble? then R.TurnDatagrams(sc, d) else P.TurnCost(sc, d)
  }

  ghost function TurnBill(sc: Scenario, d: Dialogue): Bill
    requires Sound(sc)
  {
    if sc.settings.mode.Reassemble? then R.TurnBill(sc, d) else P.TurnBill(sc, d)
  }

  /** Datagrams of the first n turns. */
  ghost function Datagrams(sc: Scenario, n: nat): nat
    requires Sound(sc)
  {
    if n == 0 then 0
    else
      var d := DialogueOf(sc, n - 1);
      Datagrams(sc, n - 1) + if d.verdict.Some? then 0 else TurnDatagrams(sc, d)
  }

  /** All that the first n turns add to the measurements. */
  ghost function Total(sc: Scenario, n: nat): Bill
    requires Sound(sc)
  {
    if n == 0 then Bill(0, NO_METRICS, NO_METRICS)
    else
      var d := DialogueOf(sc, n - 1);
      if d.verdict.Some? then Total(sc, n - 1) else AddBills(Total(sc, n - 1), TurnBill(sc, d))
  }

  /** EAP-TLS Start, as the server answers the Identity. */
  function StartPacket(sc: Scenario): Bytes {
    Encode(REQUEST, sc.ids(0), [], false, None, true)
  }

  /** The Identity exchange brings it. */
  lemma StartArrives(sc: Scenario, leg: ServerLeg)
    requires Proper(sc) && sc.lifetime >= 1 && leg.requests == []
    ensures var (leg', reply) := Exchange(StrictServer(sc), leg, sc.caller, sc.identity);
            && reply == Some(Reply(ACCESS_CHALLENGE, Some(StartPacket(sc)), sc.states(0)))
            && Linked(sc, leg', Srv(1, [], CLOSED, []))
            && |leg'.requests| == 1 && leg'.roundTrips == leg.roundTrips + 1
  {
    ChallengeFacts(sc, 0, StartPacket(sc));
    ChunksCutExactly(sc.identity, MAX_VALUE);
    var request := RequestFor(leg, sc.caller, leg.radiusState, sc.identity);
    assert [] + [request] == [request] && [request][..0] == [];
    assert StrictServer(sc).answer([request]) == StrictAnswer(sc, [request]) == Some(Challenge(sc, 0, StartPacket(sc)));
    assert SrvAfter(sc, [request]) == Some(Srv(1, [], CLOSED, []));
  }

  /** The Identity exchange leaves everything in place for the first turn. */
  lemma OpeningSucceeds(sc: Scenario, key: string)
    requires Sound(sc) && sc.lifetime >= 1
    ensures var opening := Opened(sc, NewSession(key, sc.settings));
            && opening.Some?
            && AtTurn(sc, opening.value, START)
            && |opening.value.session.server.requests| == 1
            && opening.value.session.up == opening.value.session.down == NO_METRICS
  {
    hide Exchange, SrvAfter, Encode, Parse;
    StartArrives(sc, Mirrored(NewSession(key, sc.settings), sc.authenticators(0)).server);
    ParseBuilt(REQUEST, sc.ids(0), [], false, None, true);
    EncodeLayout(REQUEST, sc.ids(0), [], false, None, true);
    AckFits(sc, REQUEST, 0);
  }

  lemma TurnGoesThrough(sc: Scenario, a: Auth, d: Dialogue)
    requires Sound(sc) && AtTurn(sc, a, d) && d.verdict.None?
    requires |a.session.server.requests| + TurnBill(sc, d).exchanges <= sc.lifetime
    ensures Arrives(sc, a, TurnDatagrams(sc, d), TurnBill(sc, d), NextDialogue(sc, d))
  {
    hide Arrives, AtTurn, NextDialogue;
    if sc.settings.mode.Reassemble? {
      R.NextTurn(sc, a, d);
    } else {
      P.NextTurn(sc, a, d);
    }
  }

  /**
   The dialogue goes through: after exactly so many datagrams, at exactly this bill, both ends
   have held exactly the first n turns of it. The server need only last as many exchanges.
   */
  lemma {:induction false} DialogueGoesThrough(sc: Scenario, a: Auth, n: nat)
    requires Sound(sc) && AtTurn(sc, a, START)
    requires |a.session.server.requests| + Total(sc, n).exchanges <= sc.lifetime
    ensures Arrives(sc, a, Datagrams(sc, n), Total(sc, n), DialogueOf(sc, n))
  {
    hide AtTurn, Over, NextDialogue, TurnBill, TurnDatagrams, Step;
    if n == 0 {
      assert Run(sc, a, 0) == Some(a);
    } else {
      var d := DialogueOf(sc, n - 1);
      DialogueGoesThrough(sc, a, n - 1);
      if d.verdict.None? {
        var k := Datagrams(sc, n - 1);
        var b := Run(sc, a, k).value;
        TurnGoesThrough(sc, b, d);
        RunCompose(sc, a, k, TurnDatagrams(sc, d));
        BillsAddUp(a.session, b.session, Run(sc, b, TurnDatagrams(sc, d)).value.session,
                   Total(sc, n - 1), TurnBill(sc, d));
      }
    }
  }

  lemma BillsAddUp(a: SessionView, b: SessionView, c: SessionView, first: Bill, second: Bill)
    requires Billed(a, b, first) && Billed(b, c, second)
    ensures Billed(a, c, AddBills(first, second))
  {
  }

  /** What both ends hold at the end of a run. */
  predicate Holds(sc: Scenario, a: Auth, d: Dialogue) {
    && a.peer.heard == d.heard && a.peer.verdict == d.verdict && a.session.result == d.verdict
    && d.said <= a.peer.said
    && SrvAfter(sc, a.session.server.requests).Some?
    && SrvAfter(sc, a.session.server.requests).value.heard == d.said
  }

  /** A whole authentication from the first packet: Identity, then so many datagrams. */
  function Authenticate(sc: Scenario, key: string, k: nat): Option<Auth> {
    match Opened(sc, NewSession(key, sc.settings))
    case None => None
    case Some(a) => Run(sc, a, k)
  }

  /**
   Against a server and a supplicant as strict as the standards allow, with any TLS stacks, any
   cutting on either leg and any fragment sizes, either mode brings both ends exactly through the
   ideal dialogue, and the session's measurements are exactly the sum over its turns.
   */
  lemma AuthenticationIsIdeal(sc: Scenario, tls: Tls, key: string, n: nat)
    requires Sound(sc) && Runs(sc, tls) && 1 + Total(sc, n).exchanges <= sc.lifetime
    ensures var end := Authenticate(sc, key, Datagrams(sc, n));
            && end.Some? && Holds(sc, end.value, Ideal(tls, n))
            && end.value.session.server.roundTrips == 1 + Total(sc, n).exchanges
            && end.value.session.up == Total(sc, n).up
            && end.value.session.down == Total(sc, n).down
  {
    hide Step, NextDialogue, TurnBill, TurnDatagrams, Opened, Run, SrvAfter, Total, Datagrams, Runs;
    OpeningSucceeds(sc, key);
    var a := Opened(sc, NewSession(key, sc.settings)).value;
    DialogueGoesThrough(sc, a, n);
    DialogueIsIdeal(sc, tls, n);
  }

  /**
   Transparency: a reassembling and a passthrough proxy between the same TLS stacks deliver the same
   messages to each end, in the same order, and the same verdict.
   */
  lemma ProxyIsTransparent(r: Scenario, p: Scenario, tls: Tls, key: string, n: nat)
    requires Sound(r) && Runs(r, tls) && r.settings.mode.Reassemble? && 1 + Total(r, n).exchanges <= r.lifetime
    requires Sound(p) && Runs(p, tls) && p.settings.mode.Passthrough? && 1 + Total(p, n).exchanges <= p.lifetime
    ensures var x, y := Authenticate(r, key, Datagrams(r, n)), Authenticate(p, key, Datagrams(p, n));
            && x.Some? && y.Some?
            && x.value.peer.heard == y.value.peer.heard
            && x.value.peer.verdict == y.value.peer.verdict == x.value.session.result == y.value.session.result
            && SrvAfter(r, x.value.session.server.requests).Some?
            && SrvAfter(p, y.value.session.server.requests).Some?
            && SrvAfter(r, x.value.session.server.requests).value.heard
            == SrvAfter(p, y.value.session.server.requests).value.heard
  {
    hide Authenticate, Datagrams, Total, SrvAfter, Sound, Runs;
    AuthenticationIsIdeal(r, tls, key, n);
    AuthenticationIsIdeal(p, tls, key, n);
  }

  // ---- The price ----------------------------------------------------------

  /**
   In reassemble mode the number of exchanges depends on the messages, the upstream fragment size and
   the server's cutting alone: neither the supplicant's cutting nor the downstream size enters.
   */
  lemma SupplicantCuttingIsFree(a: Scenario, b: Scenario, tls: Tls, key: string, n: nat)
    requires Sound(a) && Sound(b) && Runs(a, tls) && Runs(b, tls)
    requires a.settings.mode.Reassemble? && b.settings.mode.Reassemble?
    requires a.settings.upstreamFragmentSize == b.settings.upstreamFragmentSize
    requires forall said :: a.serve(said) == b.serve(said)
    requires 1 + Total(a, n).exchanges <= a.lifetime && 1 + Total(b, n).exchanges <= b.lifetime
    ensures var x, y := Authenticate(a, key, Datagrams(a, n)), Authenticate(b, key, Datagrams(b, n));
            && x.Some? && y.Some? && x.value.peer.heard == y.value.peer.heard
            && x.value.session.server.roundTrips == y.value.session.server.roundTrips
  {
    hide Authenticate, Datagrams, Total, Sound, Runs, SrvAfter;
    AuthenticationIsIdeal(a, tls, key, n);
    AuthenticationIsIdeal(b, tls, key, n);
    TotalsAgree(a, b, tls, n);
  }

  lemma {:induction false} TotalsAgree(a: Scenario, b: Scenario, tls: Tls, n: nat)
    requires Sound(a) && Sound(b) && Runs(a, tls) && Runs(b, tls)
    requires a.settings.mode.Reassemble? && b.settings.mode.Reassemble?
    requires a.settings.upstreamFragmentSize == b.settings.upstreamFragmentSize
    requires forall said :: a.serve(said) == b.serve(said)
    ensures Total(a, n).exchanges == Total(b, n).exchanges
  {
    hide TurnBill, Runs, NextDialogue, DialogueOf, Ideal, Sound;
    if n > 0 {
      TotalsAgree(a, b, tls, n - 1);
      DialogueIsIdeal(a, tls, n - 1);
      DialogueIsIdeal(b, tls, n - 1);
      TurnsCostTheSame(a, b, tls, Ideal(tls, n - 1));
    }
  }

  lemma TurnsCostTheSame(a: Scenario, b: Scenario, tls: Tls, d: Dialogue)
    requires Sound(a) && Sound(b) && Runs(a, tls) && Runs(b, tls)
    requires a.settings.mode.Reassemble? && b.settings.mode.Reassemble?
    requires a.settings.upstreamFragmentSize == b.settings.upstreamFragmentSize
    requires forall said :: a.serve(said) == b.serve(said)
    ensures TurnBill(a, d).exchanges == TurnBill(b, d).exchanges
  {
    hide R.TurnBill, R.Exchanges;
    R.TurnBillCosts(a, d);
    R.TurnBillCosts(b, d);
    assert ActMeans(a.client(d.heard)) == tls.client(d.heard) == ActMeans(b.client(d.heard));
    assert a.serve(d.said + [tls.client(d.heard)]) == b.serve(d.said + [tls.client(d.heard)]);
  }

  /** The acceleration: if every message fits one packet upstream, a run costs one exchange a turn, and the first. */
  lemma OneExchangePerTurn(sc: Scenario, tls: Tls, key: string, n: nat)
    requires Sound(sc) && Runs(sc, tls) && sc.settings.mode.Reassemble?
    requires forall heard :: sc.client(heard).Say? ==>
               |Content(sc.client(heard).cut)| <= sc.settings.upstreamFragmentSize
    requires forall said :: sc.serve(said).Flight? ==> |sc.serve(said).cut| == 1
    requires 1 + |Ideal(tls, n).said| <= sc.lifetime
    ensures var end := Authenticate(sc, key, Datagrams(sc, n));
            end.Some? && end.value.session.server.roundTrips == 1 + |Ideal(tls, n).said|
  {
    hide Authenticate, Datagrams, Total, Sound, Runs, SrvAfter, Content;
    TotalIsTurns(sc, n);
    DialogueIsIdeal(sc, tls, n);
    AuthenticationIsIdeal(sc, tls, key, n);
  }

  lemma {:induction false} TotalIsTurns(sc: Scenario, n: nat)
    requires Sound(sc) && sc.settings.mode.Reassemble?
    requires forall heard :: sc.client(heard).Say? ==>
               |Content(sc.client(heard).cut)| <= sc.settings.upstreamFragmentSize
    requires forall said :: sc.serve(said).Flight? ==> |sc.serve(said).cut| == 1
    ensures Total(sc, n).exchanges == |DialogueOf(sc, n).said|
  {
    hide R.TurnBill, Content;
    if n > 0 {
      TotalIsTurns(sc, n - 1);
      R.TurnBillCosts(sc, DialogueOf(sc, n - 1));
    }
  }

  /** In passthrough each datagram of a run costs one exchange, whatever the ends do. */
  lemma {:induction false} RunPaysPerPacket(sc: Scenario, a: Auth, k: nat)
    requires sc.settings.mode.Passthrough? && a.session.settings == sc.settings && Run(sc, a, k).Some?
    ensures var b := Run(sc, a, k).value;
            b.session.server.roundTrips - a.session.server.roundTrips == b.sent - a.sent
    decreases k
  {
    hide Exchange, Parse, PeerGets;
    if k > 0 && a.peer.verdict.None? {
      StepPaysOnce(sc, a);
      RunPaysPerPacket(sc, Step(sc, a).value, k - 1);
    } else if k > 0 {
      RunPaysPerPacket(sc, a, k - 1);
    }
  }

  lemma StepPaysOnce(sc: Scenario, a: Auth)
    requires sc.settings.mode.Passthrough? && a.session.settings == sc.settings
    requires a.peer.verdict.None? && Step(sc, a).Some?
    ensures var b := Step(sc, a).value;
            && b.session.settings == sc.settings && b.sent == a.sent + 1
            && b.session.server.roundTrips == a.session.server.roundTrips + 1
  {
    hide Parse, PeerGets;
  }

  /** The baseline pays for every packet the supplicant sends. */
  lemma PassthroughPaysPerPacket(sc: Scenario, tls: Tls, key: string, n: nat)
    requires Sound(sc) && Runs(sc, tls) && 1 + Total(sc, n).exchanges <= sc.lifetime
    requires sc.settings.mode.Passthrough?
    ensures var end := Authenticate(sc, key, Datagrams(sc, n));
            && end.Some? && end.value.session.server.roundTrips == end.value.sent == 1 + Datagrams(sc, n)
  {
    hide Step, Datagrams, Total, Sound, Runs, SrvAfter;
    AuthenticationIsIdeal(sc, tls, key, n);
    TotalIsDatagrams(sc, n);
    OpeningPaysOnce(sc, key);
    RunPaysPerPacket(sc, Opened(sc, NewSession(key, sc.settings)).value, Datagrams(sc, n));
  }

  lemma OpeningPaysOnce(sc: Scenario, key: string)
    requires Opened(sc, NewSession(key, sc.settings)).Some?
    ensures var a := Opened(sc, NewSession(key, sc.settings)).value;
            a.sent == 1 && a.session.server.roundTrips == 1 && a.session.settings == sc.settings
  {
  }

  lemma {:induction false} TotalIsDatagrams(sc: Scenario, n: nat)
    requires Sound(sc) && sc.settings.mode.Passthrough?
    ensures Total(sc, n).exchanges == Datagrams(sc, n)
  {
    hide R.TurnBill, R.TurnDatagrams, Content;
    if n > 0 {
      TotalIsDatagrams(sc, n - 1);
    }
  }
}
