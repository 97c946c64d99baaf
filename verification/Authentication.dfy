/**
 A whole authentication: the strict supplicant and server of Endpoints with the mediator in
 between, one datagram after another.
 */
module Authentication {
  import opened Prelude
  import opened Octets
  import opened EapTls
  import opened Radius
  import opened SessionState
  import opened MediatorSpec
  import opened Endpoints

  /** `sent` datagrams have gone to the proxy so far. */
  datatype Auth = Auth(peer: Peer, session: SessionView, sent: nat)

  /** The session as the next datagram finds it, once its authenticator is noted. */
  function Noted(sc: Scenario, a: Auth): SessionView {
    Mirrored(a.session, sc.authenticators(a.sent))
  }

  /** The Identity exchange, relayed as any non-TLS packet is, and the Start it brings back. */
  function Opened(sc: Scenario, session: SessionView): Option<Auth> {
    var noted := Mirrored(session, sc.authenticators(0));
    var (leg, reply) := Exchange(StrictServer(sc), noted.server, sc.caller, sc.identity);
    if reply.None? || reply.value.eap.None? then None
    else
      match PeerStart(sc, reply.value.eap.value)
      case None => None
      case Some(peer) => Some(Auth(peer, session.(server := leg), 1))
  }

  /** What the supplicant makes of an outcome of the mediator. */
  function PeerGets(sc: Scenario, p: Peer, o: Outcome): Option<Peer> {
    match o.action
    case ActAccept => PeerEnd(p, Accepted, o.eap)
    case ActReject => PeerEnd(p, Rejected, o.eap)
    case _ => if o.eap.None? then None else PeerReceive(sc, p, o.eap.value)
  }

  /** One datagram and its answer; None if anything raised or fell silent. */
  function Step(sc: Scenario, a: Auth): Option<Auth> {
    if a.peer.verdict.Some? then Some(a)
    else
      var (session, handled) := HandleSupplicantEap(StrictServer(sc), Noted(sc, a), sc.caller, PeerPacket(a.peer));
      if handled.Err? then None
      else
        var peer := PeerGets(sc, a.peer, handled.value);
        if peer.None? then None else Some(Auth(peer.value, session, a.sent + 1))
  }

  /** k datagrams. */
  function Run(sc: Scenario, a: Auth, k: nat): Option<Auth>
    decreases k
  {
    if k == 0 then Some(a)
    else
      match Step(sc, a)
      case None => None
      case Some(b) => Run(sc, b, k - 1)
  }

  lemma RunStep(sc: Scenario, a: Auth, k: nat)
    requires k > 0 && Step(sc, a).Some?
    ensures Run(sc, a, k) == Run(sc, Step(sc, a).value, k - 1)
  {
  }

  lemma {:induction false} RunCompose(sc: Scenario, a: Auth, j: nat, k: nat)
    requires Run(sc, a, j).Some?
    ensures Run(sc, a, j + k) == Run(sc, Run(sc, a, j).value, k)
    decreases j
  {
    if j > 0 {
      RunCompose(sc, Step(sc, a).value, j - 1, k);
    }
  }

  /** The session and the server agree on where their conversation stands. */
  predicate Linked(sc: Scenario, leg: ServerLeg, v: Srv) {
    && v.count == |leg.requests| > 0
    && SrvAfter(sc, leg.requests) == Some(v)
    && leg.lastEapReqId == Some(sc.ids(v.count - 1))
    && leg.radiusState == sc.states(v.count - 1)
  }

  lemma ChallengeFacts(sc: Scenario, n: nat, eap: Bytes)
    requires |eap| >= 2 && eap[0] == REQUEST
    ensures var a := Challenge(sc, n, eap);
            a.Eap() == Some(eap) && a.State() == sc.states(n) && RequestId(a) == Some(eap[1])
  {
    ChunksCutExactly(eap, MAX_VALUE);
    assert Lookup(Challenge(sc, n, eap).attrs, Plain(EAP_MESSAGE)) == SplitEap(eap);
  }

  lemma ClosingFacts(verdict: Verdict, id: byte)
    ensures Closing(verdict, id).Eap() == Some(TerminalPacket(verdict, id))
  {
    ChunksCutExactly(TerminalPacket(verdict, id), MAX_VALUE);
    assert Lookup(Closing(verdict, id).attrs, Plain(EAP_MESSAGE)) == SplitEap(TerminalPacket(verdict, id));
  }

  /** The session after the server reacted: the same view of the conversation, unless it is over. */
  predicate Told(sc: Scenario, leg: ServerLeg, v: Srv, answer: Answer) {
    && SrvAfter(sc, leg.requests) == Some(v)
    && (answer.code == ACCESS_CHALLENGE ==> Linked(sc, leg, v))
  }

  /** Every reaction of a properly cutting server is a challenge with its next Identifier, or the end. */
  lemma ReactionFacts(sc: Scenario, v: Srv, p: EapTlsPacket)
    requires Proper(sc) && v.count > 0 && SrvHear(sc, v, p).Some?
    requires v.pending != [] ==> WellCut(v.pending, sc.overhead)
    ensures var (v', answer) := SrvHear(sc, v, p).value;
            && v'.count == v.count + 1
            && (answer.code == ACCESS_CHALLENGE ==>
                  answer.State() == sc.states(v.count) && RequestId(answer) == Some(sc.ids(v.count)))
  {
    var (_, answer) := SrvHear(sc, v, p).value;
    if v.pending != [] {
      FragFacts(sc, v.count, v.pending);
    } else if !p.IsAck() && p.moreFragments {
      ChallengeFacts(sc, v.count, BuildAck(REQUEST, sc.ids(v.count)));
    } else {
      var heard := v.heard + [if p.IsAck() then None else Some(v.inbox.data + p.tlsData)];
      if sc.serve(heard).Flight? {
        FragFacts(sc, v.count, sc.serve(heard).cut);
      }
    }
  }

  lemma FragFacts(sc: Scenario, n: nat, flight: seq<Frag>)
    requires WellCut(flight, sc.overhead)
    ensures var eap := PrintFrag(REQUEST, sc.ids(n), flight);
            var a := Challenge(sc, n, eap);
            a.Eap() == Some(eap) && a.State() == sc.states(n) && RequestId(a) == Some(sc.ids(n))
  {
    assert flight[0] in flight;
    ChallengeFacts(sc, n, PrintFrag(REQUEST, sc.ids(n), flight));
  }

  /** A packet with the right Identifier reaches the server, and its reaction comes back. */
  lemma StrictExchange(sc: Scenario, leg: ServerLeg, v: Srv, eap: Bytes)
    requires Proper(sc) && Linked(sc, leg, v) && |leg.requests| < sc.lifetime
    requires Parse(eap).Ok? && Parse(eap).value.code == RESPONSE && Parse(eap).value.identifier == sc.ids(v.count - 1)
    requires SrvHear(sc, v, Parse(eap).value).Some? && EapFits(|eap|, sc.overhead)
    requires v.pending != [] ==> WellCut(v.pending, sc.overhead)
    ensures var (v', answer) := SrvHear(sc, v, Parse(eap).value).value;
            var (leg', reply) := Exchange(StrictServer(sc), leg, sc.caller, eap);
            && reply == Some(ReplyOf(answer))
            && Told(sc, leg', v', answer)
            && |leg'.requests| == |leg.requests| + 1
            && (leg.roundTrips == |leg.requests| ==> leg'.roundTrips == |leg'.requests|)
  {
    ChunksCutExactly(eap, MAX_VALUE);
    ReactionFacts(sc, v, Parse(eap).value);
    var request := RequestFor(leg, sc.caller, leg.radiusState, eap);
    var requests := leg.requests + [request];
    assert requests[..|requests| - 1] == leg.requests;
    assert StrictServer(sc).answer(requests) == StrictAnswer(sc, requests);
  }

  lemma TailIsWellCut(cut: seq<Frag>, other: nat)
    requires WellCut(cut, other) && |cut| > 1
    ensures WellCut(cut[1..], other)
  {
    forall f | f in cut[1..] ensures Fits(f.data, f.length) && EapFits(FragOctets(f), other) {
      assert f in cut;
    }
  }

  /** The empty packet always fits. */
  lemma AckFits(sc: Scenario, code: byte, id: byte)
    requires Proper(sc)
    ensures |BuildAck(code, id)| == 6 && EapFits(6, sc.overhead)
  {
  }

  /** What the supplicant sends next. */
  function NextPacket(p: Peer): EapTlsPacket {
    if p.toSend == [] then BuiltPacket(RESPONSE, p.lastId, [], false, None, false)
    else FragPacket(RESPONSE, p.lastId, p.toSend)
  }

  lemma PeerPacketParses(sc: Scenario, p: Peer)
    requires Proper(sc)
    requires p.toSend != [] ==> WellCut(p.toSend, sc.overhead)
    ensures Parse(PeerPacket(p)) == Ok(NextPacket(p)) && EapFits(|PeerPacket(p)|, sc.overhead)
  {
    if p.toSend == [] {
      AckParses(RESPONSE, p.lastId);
      AckFits(sc, RESPONSE, p.lastId);
    } else {
      PrintedFrag(RESPONSE, p.lastId, p.toSend, sc.overhead);
    }
  }

  // ---- Between turns ------------------------------------------------------

  /** The server between turns, having heard so much. */
  function RestingSrv(leg: ServerLeg, said: seq<Option<Bytes>>): Srv {
    Srv(|leg.requests|, said, CLOSED, [])
  }

  /** The supplicant between turns: the dialogue so far behind it, its next act decided. */
  predicate PeerReady(sc: Scenario, p: Peer, d: Dialogue) {
    var act := sc.client(d.heard);
    && p.verdict.None? && p.inbox == CLOSED && p.heard == d.heard
    && p.said == d.said + [ActMeans(act)]
    && p.toSend == if act.Say? then act.cut else []
  }

  /** The whole authentication between turns, after the dialogue `d`. */
  predicate AtTurn(sc: Scenario, a: Auth, d: Dialogue) {
    && PeerReady(sc, a.peer, d)
    && Linked(sc, a.session.server, RestingSrv(a.session.server, d.said))
    && a.session.settings == sc.settings && a.session.result.None?
    && a.session.server.roundTrips == |a.session.server.requests|
    && (sc.settings.mode.Passthrough? ==> a.peer.lastId == sc.ids(|a.session.server.requests| - 1))
    && (sc.settings.mode.Reassemble? ==>
          && a.session.supplicant.outbox == []
          && !a.session.upReasm.state.InProgress? && !a.session.downReasm.state.InProgress?)
  }

  /** The authentication is over: both ends have the dialogue and the verdict. */
  predicate Over(sc: Scenario, a: Auth, d: Dialogue) {
    && d.verdict.Some?
    && a.peer.verdict == d.verdict && a.session.result == d.verdict
    && a.peer.said == d.said && a.peer.heard == d.heard
    && SrvAfter(sc, a.session.server.requests).Some?
    && SrvAfter(sc, a.session.server.requests).value.heard == d.said
    && a.session.server.roundTrips == |a.session.server.requests|
  }

  predicate Reached(sc: Scenario, a: Auth, d: Dialogue) {
    if d.verdict.Some? then Over(sc, a, d) else AtTurn(sc, a, d)
  }

  /** What a stretch of an authentication adds to the measurements. */
  datatype Bill = Bill(exchanges: nat, up: Metrics, down: Metrics)

  function AddBills(a: Bill, b: Bill): Bill {
    Bill(a.exchanges + b.exchanges, AddMetrics(a.up, b.up), AddMetrics(a.down, b.down))
  }

  /** The session has measured so much more than before. */
  predicate Billed(before: SessionView, after: SessionView, bill: Bill) {
    && |after.server.requests| == |before.server.requests| + bill.exchanges
    && after.up == AddMetrics(before.up, bill.up)
    && after.down == AddMetrics(before.down, bill.down)
  }

  /** After k datagrams, at this bill, the authentication has come to `d`. */
  predicate Arrives(sc: Scenario, a: Auth, k: nat, bill: Bill, d: Dialogue) {
    match Run(sc, a, k)
    case None => false
    case Some(b) => Reached(sc, b, d) && Billed(a.session, b.session, bill)
  }

  lemma ArrivesStep(sc: Scenario, a: Auth, k: nat, first: Bill, rest: Bill, d: Dialogue)
    requires k > 0 && Step(sc, a).Some? && Billed(a.session, Step(sc, a).value.session, first)
    requires Arrives(sc, Step(sc, a).value, k - 1, rest, d)
    ensures Arrives(sc, a, k, AddBills(first, rest), d)
  {
    hide Step;
    RunStep(sc, a, k);
  }

  lemma ArrivesNow(sc: Scenario, a: Auth, bill: Bill, d: Dialogue)
    requires Step(sc, a).Some? && Reached(sc, Step(sc, a).value, d)
    requires Billed(a.session, Step(sc, a).value.session, bill)
    ensures Arrives(sc, a, 1, bill, d)
  {
    hide Step, Reached;
    assert Run(sc, Step(sc, a).value, 0) == Some(Step(sc, a).value);
  }

  /** The dialogue after one more turn. */
  function NextDialogue(sc: Scenario, d: Dialogue): Dialogue {
    var said := d.said + [ActMeans(sc.client(d.heard))];
    match sc.serve(said)
    case Flight(cut) => Dialogue(said, d.heard + [Content(cut)], None)
    case Close(verdict) => Dialogue(said, d.heard, Some(verdict))
  }

  /** A supplicant with nothing more to send takes in the first packet of what is left of a flight. */
  lemma PeerTakesFragment(sc: Scenario, p: Peer, eap: Bytes, id: byte, cut: seq<Frag>)
    requires WellCut(cut, sc.overhead) && |p.toSend| <= 1 && id != p.lastId
    requires Parse(eap) == Ok(FragPacket(REQUEST, id, cut)) && EapFits(|eap|, sc.overhead)
    ensures PeerReceive(sc, p, eap) == Some(PeerAfterFragment(sc, p, id, cut))
  {
    PrintedFrag(REQUEST, id, cut, sc.overhead);
  }

  function PeerAfterFragment(sc: Scenario, p: Peer, id: byte, cut: seq<Frag>): Peer
    requires cut != []
  {
    var data := p.inbox.data + cut[0].data;
    if |cut| > 1 then p.(lastId := id, toSend := [], inbox := Inbox(true, data))
    else NextAct(sc, p.(lastId := id, inbox := CLOSED, heard := p.heard + [data]))
  }

  /** The last fragment completes the message, and the supplicant is ready for its next act. */
  lemma PeerFinishes(sc: Scenario, p: Peer, id: byte, cut: seq<Frag>, d: Dialogue)
    requires |cut| == 1 && p.verdict.None? && p.said == d.said
    requires d.heard == p.heard + [p.inbox.data + Content(cut)]
    ensures PeerReady(sc, PeerAfterFragment(sc, p, id, cut), d)
  {
    ContentStep(cut);
    assert Content(cut) == cut[0].data;
  }

  /** Any other fragment leaves less to come of the same message. */
  lemma PeerGoesOn(sc: Scenario, p: Peer, id: byte, cut: seq<Frag>)
    requires |cut| > 1
    ensures var p' := PeerAfterFragment(sc, p, id, cut);
            p'.inbox.data + Content(cut[1..]) == p.inbox.data + Content(cut)
  {
    ContentStep(cut);
  }

  // ---- The mediator's own cuts --------------------------------------------

  /** A record as the mediator cuts it for either side: L with the total on the first fragment. */
  function CutOf(record: Bytes, size: nat): seq<Frag>
    requires size >= 1
  {
    var chunks := Chunks(record, size);
    seq(|chunks|, i requires 0 <= i < |chunks| => Frag(chunks[i], if i == 0 then Some(|record|) else None))
  }

  lemma CutOfFacts(sc: Scenario, record: Bytes, size: nat)
    requires 1 <= size <= 65000 && |record| < U32_LIMIT && FitsRadius(size, sc.overhead)
    ensures |CutOf(record, size)| == ChunkCount(|record|, size) == |Chunks(record, size)|
    ensures Content(CutOf(record, size)) == record
    ensures forall i :: 0 <= i < |CutOf(record, size)| ==> WellCut(CutOf(record, size)[i..], sc.overhead)
  {
    hide Chunks;
    var cut, chunks := CutOf(record, size), Chunks(record, size);
    ChunksCutExactly(record, size);
    assert Payloads(cut) == chunks;
    forall i | 0 <= i < |cut| ensures WellCut(cut[i..], sc.overhead) {
      forall f | f in cut[i..] ensures Fits(f.data, f.length) && EapFits(FragOctets(f), sc.overhead) {
        var j :| 0 <= j < |cut| && cut[j] == f;
        assert chunks[j] in chunks;
        SmallerFits(FragOctets(f), size + 10, sc.overhead);
      }
      assert cut[i..][|cut| - i - 1] == cut[|cut| - 1];
      assert chunks[|cut| - 1] in chunks;
    }
  }
}
