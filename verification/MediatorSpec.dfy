/**
 The mediation logic of proxy/mediator.py as functions on session values: for each call,
 the session it leaves behind, also when it raises, and the outcome it returns. The
 `Mediator` object is proved to compute exactly these (Mediator.dfy).
 */
module MediatorSpec {
  import opened Prelude
  import opened Octets
  import opened EapTls
  import opened Reassembly
  import opened SessionState

  datatype Action = ActAck | ActChallenge | ActAccept | ActReject

  /** The outcome dictionary handed to the downstream server. */
  datatype Outcome = Outcome(action: Action, eap: Option<Bytes>, echoId: Option<byte>)

  /** A finished call: an outcome or an exception. */
  type Handled = Result<Outcome, EapError>

  const NOTHING_TO_SEND := Outcome(ActAck, None, None)

  /** What no packet changes. */
  predicate SameSession(before: SessionView, after: SessionView) {
    && after.key == before.key && after.settings == before.settings
    && after.downstreamState == before.downstreamState
  }

  function Finish(s: SessionView, verdict: Verdict): SessionView {
    s.(result := Some(verdict))
  }

  /** Only octet 1 of a terminal packet changes, to the Identifier the supplicant waits for. */
  function RestampTerminal(s: SessionView, eap: Option<Bytes>): Option<Bytes> {
    if eap.None? || |eap.value| < 2 || s.supplicant.lastReqId.None? then eap
    else Some(eap.value[..1] + [s.supplicant.lastReqId.value] + eap.value[2..])
  }

  function TerminalOutcome(s: SessionView, verdict: Verdict, eap: Option<Bytes>): Outcome {
    Outcome(if verdict.Accepted? then ActAccept else ActReject, RestampTerminal(s, eap), s.supplicant.lastReqId)
  }

  /** Keep the terminal packet for the supplicant. */
  function Conclude(s: SessionView, verdict: Verdict, eap: Option<Bytes>): SessionView {
    var s' := Finish(s, verdict);
    if verdict.Accepted? then s'.(pendingSuccess := eap) else s'.(pendingFailure := eap)
  }

  // ---- server -> supplicant -----------------------------------------------

  function SendNextDownstreamFragment(s: SessionView): (res: (SessionView, Handled))
    ensures SameSession(s, res.0)
    ensures res.0.server == s.server && res.0.result == s.result
    ensures res.0.downReasm == s.downReasm && res.0.upReasm == s.upReasm
  {
    var leg := s.supplicant;
    if leg.outbox == [] then (s, Ok(NOTHING_TO_SEND))
    else
      var (idx, chunk) := leg.outbox[0];
      var more := idx < leg.nchunks - 1;
      var id := NextId(leg.nextId);
      var s1 := s.(supplicant := leg.(outbox := leg.outbox[1..], nextId := id));
      match Build(REQUEST, id, chunk, more, if idx == 0 then Some(leg.total) else None, false)
      case Err(e) => (s1, Err(e))
      case Ok(packet) =>
        var down := s1.down.(fragmentsOut := s1.down.fragmentsOut + 1,
                             acksGenerated := s1.down.acksGenerated + (if more then 1 else 0));
        (s1.(down := down), Ok(Outcome(ActChallenge, Some(packet), Some(id))))
  }

  function Enumerate(chunks: seq<Bytes>): seq<(nat, Bytes)> {
    seq(|chunks|, i requires 0 <= i < |chunks| => (i, chunks[i]))
  }

  function BeginDownstreamFragmentation(s: SessionView, record: Bytes): (res: (SessionView, Handled))
    ensures SameSession(s, res.0)
    ensures res.0.server == s.server && res.0.result == s.result
    ensures res.0.downReasm == s.downReasm && res.0.upReasm == s.upReasm
  {
    match Fragment(record, s.settings.downstreamFragmentSize)
    case Err(e) => (s, Err(e))
    case Ok(chunks) =>
      SendNextDownstreamFragment(
        s.(supplicant := s.supplicant.(outbox := Enumerate(chunks), total := |record|, nchunks := |chunks|)))
  }

  /** The session after work towards the server only. */
  predicate UpstreamWorkOnly(before: SessionView, after: SessionView) {
    && SameSession(before, after)
    && after.supplicant == before.supplicant && after.upReasm == before.upReasm
  }

  /** How the drain loop ends: an exception, a terminal reply, or a record. */
  datatype Drained = DrainRaised(error: EapError) | Terminal | Record(data: Bytes)

  /** One turn of the drain loop: it ends, or goes on if the fragment just taken had M set. */
  datatype DrainTurn = Ended(drained: Drained) | Pulled(more: bool)

  /** Acknowledge the last fragment upstream and fetch what follows it. */
  function AckUpstream(server: Server, s: SessionView, caller: Caller): (res: (SessionView, Option<Reply>))
    ensures |res.0.server.requests| == |s.server.requests| + 1
    ensures res.1.Some? ==> |res.0.server.requests| <= server.lifetime
  {
    var (leg, id) := PickUpstreamId(s.server);
    var (leg', reply) := Exchange(server, leg, caller, BuildAck(RESPONSE, id));
    (s.(server := leg', down := s.down.(acksGenerated := s.down.acksGenerated + 1)), reply)
  }

  function IngestDown(s: SessionView, pkt: EapTlsPacket): (SessionView, Ingested) {
    var (r, ingested) := Ingest(s.settings.maxMessageLen, s.downReasm, pkt);
    (s.(downReasm := r), ingested)
  }

  function TakeFragment(s: SessionView, reply: Reply): (res: (SessionView, DrainTurn))
    ensures res.0.server == s.server
  {
    if reply.Accept() then (Conclude(s, Accepted, reply.eap), Ended(Terminal))
    else if reply.Reject() then (Conclude(s, Rejected, reply.eap), Ended(Terminal))
    else if reply.eap.None? then (s, Ended(Record(s.downReasm.buffer)))
    else
      match Parse(reply.eap.value)
      case Err(e) => (s, Ended(DrainRaised(e)))
      case Ok(pkt) =>
        match IngestDown(s, pkt)
        case (s', Raised(e)) => (s', Ended(DrainRaised(e)))
        case (s', Message(m)) => (s', Ended(Record(m)))
        case (s', NeedMore) => (s', Pulled(pkt.moreFragments))
  }

  function Drain(server: Server, s: SessionView, caller: Caller, more: bool): (res: (SessionView, Drained))
    // the drain never touches the supplicant's side, and only a terminal reply concludes the session
    ensures UpstreamWorkOnly(s, res.0) && res.0.up == s.up
    ensures res.0.result == s.result || (res.1.Terminal? && res.0.result.Some?)
    ensures res.1.Terminal? ==> res.0.result.Some?
    decreases if |s.server.requests| <= server.lifetime then server.lifetime - |s.server.requests| + 1 else 0
  {
    if !more then (s, Record(s.downReasm.buffer))
    else
      var (s1, reply) := AckUpstream(server, s, caller);
      if reply.None? then (s1, DrainRaised(UpstreamTimeout))
      else
        match TakeFragment(s1, reply.value)
        case (s2, Ended(drained)) => (s2, drained)
        case (s2, Pulled(more')) => Drain(server, s2, caller, more')
  }

  function DeliverRecord(s: SessionView, record: Bytes): (res: (SessionView, Handled))
    ensures SameSession(s, res.0)
    ensures res.0.server == s.server && res.0.result == s.result
    ensures res.0.downReasm == s.downReasm && res.0.upReasm == s.upReasm
  {
    BeginDownstreamFragmentation(
      s.(down := s.down.(bytesReassembled := s.down.bytesReassembled + |record|)), record)
  }

  function AfterDrain(s: SessionView, drained: Drained): (res: (SessionView, Handled))
    ensures SameSession(s, res.0)
    ensures res.0.server == s.server && res.0.result == s.result
    ensures res.0.downReasm == s.downReasm && res.0.upReasm == s.upReasm
  {
    match drained
    case DrainRaised(e) => (s, Err(e))
    case Record(m) => DeliverRecord(s, m)
    case Terminal =>
      if s.result == Some(Accepted) then (s, Ok(TerminalOutcome(s, Accepted, s.pendingSuccess)))
      else (s, Ok(TerminalOutcome(s, Rejected, s.pendingFailure)))
  }

  function HandleUpstreamReply(server: Server, s: SessionView, caller: Caller, reply: Reply): (res: (SessionView, Handled))
    ensures SameSession(s, res.0) && res.0.upReasm == s.upReasm
  {
    if reply.Accept() then (Conclude(s, Accepted, reply.eap), Ok(TerminalOutcome(s, Accepted, reply.eap)))
    else if reply.Reject() then (Conclude(s, Rejected, reply.eap), Ok(TerminalOutcome(s, Rejected, reply.eap)))
    else if reply.eap.None? then (s, Ok(NOTHING_TO_SEND))
    else
      match Parse(reply.eap.value)
      case Err(e) => (s, Err(e))
      case Ok(pkt) =>
        match IngestDown(s, pkt)
        case (s', Raised(e)) => (s', Err(e))
        case (s', Message(m)) => DeliverRecord(s', m)
        case (s', NeedMore) =>
          var (s'', drained) := Drain(server, s', caller, pkt.moreFragments);
          AfterDrain(s'', drained)
  }

  // ---- supplicant -> server -----------------------------------------------

  function SendChunk(server: Server, s: SessionView, caller: Caller, total: nat, chunks: seq<Bytes>, i: nat)
    : (SessionView, Result<Reply, EapError>)
    requires i < |chunks|
  {
    var (leg, id) := PickUpstreamId(s.server);
    match Build(RESPONSE, id, chunks[i], i < |chunks| - 1, if i == 0 then Some(total) else None, false)
    case Err(e) => (s.(server := leg), Err(e))
    case Ok(packet) =>
      var (leg', reply) := Exchange(server, leg, caller, packet);
      (s.(server := leg', up := s.up.(fragmentsOut := s.up.fragmentsOut + 1)),
       if reply.None? then Err(UpstreamTimeout) else Ok(reply.value))
  }

  /** Sends chunks i, i+1, ... of a record; only the answer to the last one is looked at. */
  function SendChunks(server: Server, s: SessionView, caller: Caller, total: nat, chunks: seq<Bytes>, i: nat)
    : (res: (SessionView, Result<Reply, EapError>))
    requires i < |chunks|
    ensures UpstreamWorkOnly(s, res.0) && res.0.result == s.result
    ensures res.0.down == s.down && res.0.downReasm == s.downReasm
    decreases |chunks| - i
  {
    var (s1, reply) := SendChunk(server, s, caller, total, chunks, i);
    if reply.Ok? && i < |chunks| - 1 then SendChunks(server, s1, caller, total, chunks, i + 1) else (s1, reply)
  }

  function ForwardRecordUpstream(server: Server, s: SessionView, caller: Caller, record: Bytes): (res: (SessionView, Handled))
    ensures SameSession(s, res.0) && res.0.upReasm == s.upReasm
  {
    match Fragment(record, s.settings.upstreamFragmentSize)
    case Err(e) => (s, Err(e))
    case Ok(chunks) =>
      match SendChunks(server, s, caller, |record|, chunks, 0)
      case (s', Err(e)) => (s', Err(e))
      case (s', Ok(reply)) => HandleUpstreamReply(server, s', caller, reply)
  }

  /** An empty packet from the supplicant: next fragment, held result, or a poll of the server. */
  function HandleAck(server: Server, s: SessionView, caller: Caller): (res: (SessionView, Handled))
    ensures SameSession(s, res.0) && res.0.upReasm == s.upReasm
  {
    if s.supplicant.outbox != [] then SendNextDownstreamFragment(s)
    else if s.result == Some(Accepted) then (s, Ok(TerminalOutcome(s, Accepted, s.pendingSuccess)))
    else if s.result == Some(Rejected) then (s, Ok(TerminalOutcome(s, Rejected, s.pendingFailure)))
    else
      var (leg, id) := PickUpstreamId(s.server);
      var (leg', reply) := Exchange(server, leg, caller, BuildAck(RESPONSE, id));
      var s' := s.(server := leg');
      if reply.None? then (s', Err(UpstreamTimeout))
      else HandleUpstreamReply(server, s', caller, reply.value)
  }

  function HandleData(server: Server, s: SessionView, caller: Caller, pkt: EapTlsPacket): (res: (SessionView, Handled))
    ensures SameSession(s, res.0)
  {
    var (r, ingested) := Ingest(s.settings.maxMessageLen, s.upReasm, pkt);
    var s1 := s.(upReasm := r);
    match ingested
    case Raised(e) => (s1, Err(e))
    case NeedMore =>
      var id := NextId(s1.supplicant.nextId);
      (s1.(up := s1.up.(acksGenerated := s1.up.acksGenerated + 1), supplicant := s1.supplicant.(nextId := id)),
       Ok(Outcome(ActAck, Some(BuildAck(REQUEST, id)), Some(id))))
    case Message(record) =>
      ForwardRecordUpstream(
        server, s1.(up := s1.up.(bytesReassembled := s1.up.bytesReassembled + |record|)), caller, record)
  }

  function PassthroughUpstream(server: Server, s: SessionView, caller: Caller, eap: Bytes): (res: (SessionView, Handled))
    ensures SameSession(s, res.0)
  {
    var (leg', reply) := Exchange(server, s.server, caller, eap);
    var s2 := s.(up := s.up.(fragmentsOut := s.up.fragmentsOut + 1), server := leg');
    if reply.None? then (s2, Err(UpstreamTimeout))
    else if reply.value.Accept() then (Finish(s2, Accepted), Ok(Outcome(ActAccept, reply.value.eap, None)))
    else if reply.value.Reject() then (Finish(s2, Rejected), Ok(Outcome(ActReject, None, None)))
    else if reply.value.eap.Some? then
      (s2.(down := s2.down.(fragmentsOut := s2.down.fragmentsOut + 1)),
       Ok(Outcome(ActChallenge, reply.value.eap, None)))
    else (s2, Ok(NOTHING_TO_SEND))
  }

  /** The Response's Identifier names the last Request the supplicant saw: mint from there. */
  function NotePacket(s: SessionView, pkt: EapTlsPacket): SessionView {
    s.(up := s.up.(fragmentsIn := s.up.fragmentsIn + 1),
       supplicant := s.supplicant.(nextId := pkt.identifier,
                                   lastReqId := if s.settings.mode.Passthrough? then s.supplicant.lastReqId
                                                else Some(pkt.identifier)))
  }

  /** The authenticator of the datagram being answered goes on every request made for it. */
  function Mirrored(s: SessionView, authenticator: Bytes): SessionView {
    s.(server := s.server.(lastApAuthenticator := Some(authenticator)))
  }

  /** One EAP-TLS packet from the supplicant. */
  function HandleSupplicantEap(server: Server, s: SessionView, caller: Caller, eap: Bytes): (res: (SessionView, Handled))
    ensures SameSession(s, res.0)
  {
    match Parse(eap)
    case Err(e) => (s, Err(e))
    case Ok(pkt) =>
      var s' := NotePacket(s, pkt);
      if s.settings.mode.Passthrough? then PassthroughUpstream(server, s', caller, eap)
      else if pkt.IsAck() then HandleAck(server, s', caller)
      else HandleData(server, s', caller, pkt)
  }
}
