/**
 The two ends of an authentication as strict lock-step machines, and the dialogue of TLS
 messages they would hold with nothing in between.

 What the ends say is arbitrary, and so is how each message is cut. What they accept is not:
 the server is silent unless a Response echoes the Identifier and State it sent last, the
 supplicant discards a Request whose Identifier it has just answered and a terminal packet
 whose Identifier is not that of its last Response, and neither tolerates an ACK where data is
 due or data where an ACK is due.
 */
module Endpoints {
  import opened Prelude
  import opened Octets
  import opened EapTls
  import opened Radius
  import opened SessionState

  // ---- Messages and how they are cut --------------------------------------

  /** One fragment of a message: its octets and, if the sender set L, the length it declared. */
  datatype Frag = Frag(data: Bytes, length: Option<nat>)

  function Payloads(cut: seq<Frag>): seq<Bytes> {
    seq(|cut|, i requires 0 <= i < |cut| => cut[i].data)
  }

  function Content(cut: seq<Frag>): Bytes {
    Join(Payloads(cut))
  }

  lemma ContentStep(cut: seq<Frag>)
    requires cut != []
    ensures Content(cut) == cut[0].data + Content(cut[1..])
  {
    assert Payloads(cut)[1..] == Payloads(cut[1..]);
  }

  /** Octets of the EAP packet that carries a fragment. */
  function FragOctets(f: Frag): nat {
    |f.data| + if f.length.Some? then 10 else 6
  }

  /**
   Fragments that can be printed and that fit a RADIUS packet with so many other attribute octets; the
   last of them is not an ACK.
   */
  predicate WellCut(cut: seq<Frag>, other: nat) {
    && cut != []
    && (forall f :: f in cut ==> Fits(f.data, f.length) && EapFits(FragOctets(f), other))
    && (cut[|cut| - 1].length.Some? || cut[|cut| - 1].data != [])
  }

  /** A whole message within the limit, as is the length its first fragment may declare. */
  predicate WithinLimit(cut: seq<Frag>, max: nat) {
    && cut != [] && |Content(cut)| <= max
    && (cut[0].length.Some? ==> cut[0].length.value <= max)
  }

  function FragPacket(code: byte, id: byte, cut: seq<Frag>): EapTlsPacket
    requires cut != []
  {
    BuiltPacket(code, id, cut[0].data, |cut| > 1, cut[0].length, false)
  }

  function PrintFrag(code: byte, id: byte, cut: seq<Frag>): Bytes
    requires cut != []
  {
    if Fits(cut[0].data, cut[0].length) then Encode(code, id, cut[0].data, |cut| > 1, cut[0].length, false) else []
  }

  lemma PrintedFrag(code: byte, id: byte, cut: seq<Frag>, other: nat)
    requires WellCut(cut, other)
    ensures Parse(PrintFrag(code, id, cut)) == Ok(FragPacket(code, id, cut))
    ensures !FragPacket(code, id, cut).IsAck()
    ensures EapFits(|PrintFrag(code, id, cut)|, other)
  {
    assert cut[0] in cut;
    EncodeLayout(code, id, cut[0].data, |cut| > 1, cut[0].length, false);
    ParseBuilt(code, id, cut[0].data, |cut| > 1, cut[0].length, false);
  }

  lemma FirstFits(cut: seq<Frag>, other: nat)
    requires WellCut(cut, other)
    ensures EapFits(FragOctets(cut[0]), other)
  {
    assert cut[0] in cut;
  }

  lemma AckParses(code: byte, id: byte)
    ensures Parse(BuildAck(code, id)) == Ok(BuiltPacket(code, id, [], false, None, false))
  {
    ParseBuilt(code, id, [], false, None, false);
  }

  /** The supplicant's act: a message cut in its way, or the empty packet that hands over the turn. */
  datatype Act = Say(cut: seq<Frag>) | Quiet

  /** The server's act: a flight cut in its way, or the end. */
  datatype Turn = Flight(cut: seq<Frag>) | Close(verdict: Verdict)

  // ---- The ideal dialogue -------------------------------------------------

  datatype TlsTurn = TlsMessage(data: Bytes) | TlsEnd(verdict: Verdict)

  /** What the two TLS stacks do, each a function of all it received so far. */
  datatype Tls = Tls(client: seq<Bytes> -> Option<Bytes>, server: seq<Option<Bytes>> -> TlsTurn)

  /** What the client handed over and the server handed over, in order, and the verdict. */
  datatype Dialogue = Dialogue(said: seq<Option<Bytes>>, heard: seq<Bytes>, verdict: Option<Verdict>)

  /** The dialogue after n turns, or earlier if it has ended. */
  function Ideal(tls: Tls, n: nat): (d: Dialogue)
    ensures d.verdict.None? ==> |d.said| == |d.heard| == n
  {
    if n == 0 then Dialogue([], [], None)
    else
      var d := Ideal(tls, n - 1);
      if d.verdict.Some? then d
      else
        var said := d.said + [tls.client(d.heard)];
        match tls.server(said)
        case TlsMessage(m) => Dialogue(said, d.heard + [m], None)
        case TlsEnd(v) => Dialogue(said, d.heard, Some(v))
  }

  function ActMeans(act: Act): Option<Bytes> {
    if act.Say? then Some(Content(act.cut)) else None
  }

  function TurnMeans(turn: Turn): TlsTurn {
    if turn.Flight? then TlsMessage(Content(turn.cut)) else TlsEnd(turn.verdict)
  }

  // ---- A scenario ---------------------------------------------------------

  datatype Scenario = Scenario(
    client: seq<Bytes> -> Act,
    serve: seq<Option<Bytes>> -> Turn,
    ids: nat -> byte,                  // Identifier of the server's n-th Request
    states: nat -> Option<Bytes>,      // State of the server's n-th answer
    settings: Settings,
    caller: Caller,
    identity: Bytes,                   // the opening EAP-Response/Identity
    authenticators: nat -> Bytes,      // Request Authenticator of the NAS's n-th datagram
    overhead: nat,                     // octets of all other attributes, at most, of any RADIUS packet on the way
    lifetime: nat)

  /** The ends of the scenario run these TLS stacks. */
  ghost predicate Runs(sc: Scenario, tls: Tls) {
    && (forall heard :: ActMeans(sc.client(heard)) == tls.client(heard))
    && (forall said :: TurnMeans(sc.serve(said)) == tls.server(said))
  }

  /** Both ends cut properly: all they send has room in a RADIUS packet. What a mode needs besides is its own affair. */
  ghost predicate Proper(sc: Scenario) {
    && EapFits(|sc.identity|, sc.overhead) && EapFits(6, sc.overhead)
    && (forall heard :: sc.client(heard).Say? ==> WellCut(sc.client(heard).cut, sc.overhead))
    && (forall said :: sc.serve(said).Flight? ==> WellCut(sc.serve(said).cut, sc.overhead))
    && (sc.settings.mode.Reassemble? ==> Configured(sc))
  }

  /**
   A reassembling proxy is configured within its limits, those it checks and the room that a RADIUS packet
   leaves, and no message is above its limit.
   */
  ghost predicate Configured(sc: Scenario) {
    && 1 <= sc.settings.upstreamFragmentSize <= 65000
    && 1 <= sc.settings.downstreamFragmentSize <= 65000
    && FitsRadius(sc.settings.upstreamFragmentSize, sc.overhead)
    && FitsRadius(sc.settings.downstreamFragmentSize, sc.overhead)
    && sc.settings.maxMessageLen < U32_LIMIT
    && (forall heard :: sc.client(heard).Say? ==> WithinLimit(sc.client(heard).cut, sc.settings.maxMessageLen))
    && (forall said :: sc.serve(said).Flight? ==> WithinLimit(sc.serve(said).cut, sc.settings.maxMessageLen))
  }

  // ---- The server ---------------------------------------------------------

  /** A message being received. */
  datatype Inbox = Inbox(open: bool, data: Bytes)

  const CLOSED := Inbox(false, [])

  /** `count` answers given so far, `pending` fragments of the current flight still to send. */
  datatype Srv = Srv(count: nat, heard: seq<Option<Bytes>>, inbox: Inbox, pending: seq<Frag>)

  function Challenge(sc: Scenario, n: nat, eap: Bytes): Answer {
    var attrs := map[Plain(EAP_MESSAGE) := SplitEap(eap)];
    Answer(ACCESS_CHALLENGE, if sc.states(n).Some? then attrs[STATE_KEY := [sc.states(n).value]] else attrs)
  }

  /** Success or Failure with the Identifier of the Response it answers. */
  function TerminalPacket(verdict: Verdict, id: byte): Bytes {
    [if verdict.Accepted? then SUCCESS else FAILURE, id, 0, 4]
  }

  function Closing(verdict: Verdict, id: byte): Answer {
    Answer(if verdict.Accepted? then ACCESS_ACCEPT else ACCESS_REJECT,
           map[Plain(EAP_MESSAGE) := SplitEap(TerminalPacket(verdict, id))])
  }

  /** The next fragment of a flight. */
  function SrvSend(sc: Scenario, v: Srv, flight: seq<Frag>): (Srv, Answer)
    requires flight != []
  {
    (v.(count := v.count + 1, pending := flight[1..]),
     Challenge(sc, v.count, PrintFrag(REQUEST, sc.ids(v.count), flight)))
  }

  /** The server takes its turn. */
  function SrvTurn(sc: Scenario, v: Srv, heard: seq<Option<Bytes>>): Option<(Srv, Answer)>
    requires v.count > 0
  {
    var v' := v.(heard := heard, inbox := CLOSED);
    match sc.serve(heard)
    case Flight(cut) => if cut == [] then None else Some(SrvSend(sc, v', cut))
    case Close(verdict) => Some((v'.(count := v.count + 1), Closing(verdict, sc.ids(v.count - 1))))
  }

  /** The server's reaction to a Response that passed the checks; None is silence. */
  function SrvHear(sc: Scenario, v: Srv, p: EapTlsPacket): Option<(Srv, Answer)>
    requires v.count > 0
  {
    if v.pending != [] then
      if p.IsAck() then Some(SrvSend(sc, v, v.pending)) else None
    else if p.IsAck() then
      if v.inbox.open then None else SrvTurn(sc, v, v.heard + [None])
    else
      var data := v.inbox.data + p.tlsData;
      if p.moreFragments then
        Some((v.(count := v.count + 1, inbox := Inbox(true, data)),
              Challenge(sc, v.count, BuildAck(REQUEST, sc.ids(v.count)))))
      else SrvTurn(sc, v, v.heard + [Some(data)])
  }

  /** A request whose EAP packet does not fit a RADIUS packet cannot be sent, and so is never answered. */
  function SrvStep(sc: Scenario, v: Srv, request: Request): Option<(Srv, Answer)> {
    if !EapFits(|request.Eap()|, sc.overhead) then None
    else if v.count == 0 then
      // Identity: answer with EAP-TLS Start
      Some((v.(count := 1), Challenge(sc, 0, Encode(REQUEST, sc.ids(0), [], false, None, true))))
    else if request.state != sc.states(v.count - 1) then None
    else
      match Parse(request.Eap())
      case Err(_) => None
      case Ok(p) =>
        if p.code != RESPONSE || p.identifier != sc.ids(v.count - 1) then None else SrvHear(sc, v, p)
  }

  const NEW_SRV := Srv(0, [], CLOSED, [])

  /** The server after a series of requests; None once it has fallen silent. */
  function SrvAfter(sc: Scenario, requests: seq<Request>): Option<Srv> {
    if requests == [] then Some(NEW_SRV)
    else
      var n := |requests| - 1;
      match SrvAfter(sc, requests[..n])
      case None => None
      case Some(v) =>
        match SrvStep(sc, v, requests[n])
        case None => None
        case Some((v', _)) => Some(v')
  }

  function StrictAnswer(sc: Scenario, requests: seq<Request>): Option<Answer> {
    if requests == [] then None
    else
      var n := |requests| - 1;
      match SrvAfter(sc, requests[..n])
      case None => None
      case Some(v) =>
        match SrvStep(sc, v, requests[n])
        case None => None
        case Some((_, answer)) => Some(answer)
  }

  function StrictServer(sc: Scenario): Server {
    Server(requests => StrictAnswer(sc, requests), sc.lifetime)
  }

  // ---- The supplicant -----------------------------------------------------

  /** `toSend` is what is left of its message, the next packet first; empty when it only ACKs. */
  datatype Peer = Peer(lastId: byte, toSend: seq<Frag>, said: seq<Option<Bytes>>,
                       inbox: Inbox, heard: seq<Bytes>, verdict: Option<Verdict>)

  function PeerPacket(p: Peer): Bytes {
    if p.toSend == [] then BuildAck(RESPONSE, p.lastId) else PrintFrag(RESPONSE, p.lastId, p.toSend)
  }

  function NextAct(sc: Scenario, p: Peer): Peer {
    var act := sc.client(p.heard);
    p.(toSend := if act.Say? then act.cut else [], said := p.said + [ActMeans(act)])
  }

  /** The opening: EAP-TLS Start puts the supplicant to work. */
  function PeerStart(sc: Scenario, eap: Bytes): Option<Peer> {
    match Parse(eap)
    case Err(_) => None
    case Ok(q) =>
      if q.code != REQUEST || !q.start || !EapFits(|eap|, sc.overhead) then None
      else Some(NextAct(sc, Peer(q.identifier, [], [], CLOSED, [], None)))
  }

  /** The supplicant's reaction to a Request; None is silence. One that fits no RADIUS packet cannot reach it. */
  function PeerReceive(sc: Scenario, p: Peer, eap: Bytes): Option<Peer> {
    match Parse(eap)
    case Err(_) => None
    case Ok(q) =>
      var p' := p.(lastId := q.identifier);
      if q.code != REQUEST || q.identifier == p.lastId || q.start || !EapFits(|eap|, sc.overhead) then None
      else if |p.toSend| > 1 then
        if q.IsAck() then Some(p'.(toSend := p.toSend[1..])) else None
      else if q.IsAck() then None
      else
        var data := p.inbox.data + q.tlsData;
        if q.moreFragments then Some(p'.(toSend := [], inbox := Inbox(true, data)))
        else Some(NextAct(sc, p'.(inbox := CLOSED, heard := p.heard + [data])))
  }

  /** An Access-Accept must bring the Success it waits for; an Access-Reject may come bare. */
  function PeerEnd(p: Peer, verdict: Verdict, eap: Option<Bytes>): Option<Peer> {
    if |p.toSend| > 1 || p.inbox.open then None
    else if eap == Some(TerminalPacket(verdict, p.lastId)) || (verdict.Rejected? && eap.None?)
    then Some(p.(verdict := Some(verdict)))
    else None
  }
}
