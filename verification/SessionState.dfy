/**
 Everything one authentication knows (proxy/session.py), as a value, together with one
 exchange with the auth server (`UpstreamClient.send_eap` of proxy/upstream_radius.py)
 as a function on it. The objects are in Session.dfy and Upstream.dfy.
 */
module SessionState {
  import opened Prelude
  import opened Octets
  import opened Reassembly
  import opened Radius

  datatype Mode = Reassemble | Passthrough

  datatype Verdict = Accepted | Rejected

  /** `DirectionMetrics` */
  datatype Metrics = Metrics(fragmentsIn: nat, fragmentsOut: nat, acksGenerated: nat, bytesReassembled: nat)

  const NO_METRICS := Metrics(0, 0, 0, 0)

  function AddMetrics(a: Metrics, b: Metrics): Metrics {
    Metrics(a.fragmentsIn + b.fragmentsIn, a.fragmentsOut + b.fragmentsOut,
            a.acksGenerated + b.acksGenerated, a.bytesReassembled + b.bytesReassembled)
  }

  /** An Access-Request as the auth server sees it. No authenticator means pyrad's own random one. */
  datatype Request = Request(
    authenticator: Option<Bytes>,
    username: string,
    calling: Option<string>,
    called: Option<string>,
    state: Option<Bytes>,
    eapMessages: seq<Bytes>)
  {
    function Eap(): Bytes { Join(eapMessages) }
  }

  /** What the auth server sends back: the code and the decoded attributes. */
  datatype Answer = Answer(code: byte, attrs: Attrs)
  {
    function Eap(): Option<Bytes> { ConcatEap(attrs) }

    function State(): Option<Bytes> { First(STATE_KEY) }

    function First(key: AttrKey): Option<Bytes> {
      var values := Lookup(attrs, key);
      if values == [] then None else Some(values[0])
    }
  }

  const STATE_KEY := Plain(STATE)

  /**
   The auth server and the transport to it: any answer, or none, to any series of requests of one
   session. It falls silent for good after `lifetime` requests, so that no run is infinite.
   */
  datatype Server = Server(answer: seq<Request> -> Option<Answer>, lifetime: nat)

  /** What is fixed when the session is created. */
  datatype Settings = Settings(
    mode: Mode, upstreamFragmentSize: int, downstreamFragmentSize: int, maxMessageLen: nat)

  /** The session's conversation with the auth server. */
  datatype ServerLeg = ServerLeg(
    radiusState: Option<Bytes>,
    lastEapReqId: Option<byte>,
    nextId: byte,
    msMppeSendKey: Option<Bytes>,
    msMppeRecvKey: Option<Bytes>,
    lastApAuthenticator: Option<Bytes>,
    roundTrips: nat,
    // All that was sent and what came back for each, kept to state what the code promises.
    requests: seq<Request>,
    answers: seq<Option<Answer>>)

  /** The session's conversation with the supplicant. */
  datatype SupplicantLeg = SupplicantLeg(
    lastReqId: Option<byte>,
    nextId: byte,
    outbox: seq<(nat, Bytes)>,
    total: nat,
    nchunks: nat)

  datatype SessionView = SessionView(
    key: string,
    settings: Settings,
    downstreamState: Option<Bytes>,
    server: ServerLeg,
    supplicant: SupplicantLeg,
    upReasm: Reasm,
    downReasm: Reasm,
    up: Metrics,
    down: Metrics,
    result: Option<Verdict>,
    pendingSuccess: Option<Bytes>,
    pendingFailure: Option<Bytes>)

  const NEW_SERVER_LEG := ServerLeg(None, None, 0, None, None, None, 0, [], [])
  const NEW_SUPPLICANT_LEG := SupplicantLeg(None, 0, [], 0, 0)

  function NewSession(key: string, settings: Settings): SessionView {
    SessionView(key, settings, None, NEW_SERVER_LEG, NEW_SUPPLICANT_LEG,
                EMPTY, EMPTY, NO_METRICS, NO_METRICS, None, None, None)
  }

  function NextId(id: byte): byte {
    (id + 1) % 0x100
  }

  /** The identity strings that accompany every request of one AP datagram. */
  datatype Caller = Caller(username: string, calling: Option<string>, called: Option<string>)

  /** Python's `if text:` on an optional string. */
  function Truthy(text: Option<string>): Option<string> {
    if text.Some? && text.value == "" then None else text
  }

  /** The normalised reply dictionary of `send_eap`. */
  datatype Reply = Reply(code: byte, eap: Option<Bytes>, state: Option<Bytes>)
  {
    predicate Accept() { code == ACCESS_ACCEPT }
    predicate Reject() { code == ACCESS_REJECT }
  }

  function ReplyOf(answer: Answer): Reply {
    Reply(answer.code, answer.Eap(), answer.State())
  }

  /** The Identifier of the EAP-Request an answer carries, if it carries one. */
  function RequestId(answer: Answer): Option<byte> {
    match answer.Eap()
    case Some(eap) => if |eap| >= 2 && eap[0] == 1 then Some(eap[1]) else None
    case None => None
  }

  function Override<T>(first: Option<T>, second: Option<T>): Option<T> {
    if first.Some? then first else second
  }

  function RequestFor(leg: ServerLeg, caller: Caller, state: Option<Bytes>, eap: Bytes): Request {
    Request(leg.lastApAuthenticator, caller.username, Truthy(caller.calling), Truthy(caller.called), state, SplitEap(eap))
  }

  function AnswerTo(server: Server, requests: seq<Request>): Option<Answer> {
    if |requests| <= server.lifetime then server.answer(requests) else None
  }

  /** What `send_eap` keeps of an answer. */
  function Absorb(leg: ServerLeg, answer: Answer): ServerLeg {
    var accept := answer.code == ACCESS_ACCEPT;
    leg.(lastEapReqId := Override(RequestId(answer), leg.lastEapReqId),
         msMppeSendKey := if accept then Override(answer.First(MPPE_SEND_KEY), leg.msMppeSendKey) else leg.msMppeSendKey,
         msMppeRecvKey := if accept then Override(answer.First(MPPE_RECV_KEY), leg.msMppeRecvKey) else leg.msMppeRecvKey)
  }

  /** `send_eap`: None stands for the Timeout exception. */
  function SendEap(server: Server, leg: ServerLeg, caller: Caller, state: Option<Bytes>, eap: Bytes)
    : (res: (ServerLeg, Option<Reply>))
    ensures |res.0.requests| == |leg.requests| + 1
    ensures res.1.Some? ==> |res.0.requests| <= server.lifetime
  {
    var requests := leg.requests + [RequestFor(leg, caller, state, eap)];
    var answer := AnswerTo(server, requests);
    var sent := leg.(requests := requests, answers := leg.answers + [answer], roundTrips := leg.roundTrips + 1);
    match answer
    case None => (sent, None)
    case Some(a) => (Absorb(sent, a), Some(ReplyOf(a)))
  }

  /** Every call site: send with the current State, then remember the State that came back. */
  function Exchange(server: Server, leg: ServerLeg, caller: Caller, eap: Bytes): (res: (ServerLeg, Option<Reply>))
    ensures |res.0.requests| == |leg.requests| + 1
    ensures res.1.Some? ==> |res.0.requests| <= server.lifetime
  {
    var (leg', reply) := SendEap(server, leg, caller, leg.radiusState, eap);
    (if reply.Some? then leg'.(radiusState := reply.value.state) else leg', reply)
  }

  /** The Identifier to echo upstream; without one, mint our own (the safety fallback). */
  function PickUpstreamId(leg: ServerLeg): (ServerLeg, byte) {
    match leg.lastEapReqId
    case Some(id) => (leg, id)
    case None => (leg.(nextId := NextId(leg.nextId)), NextId(leg.nextId))
  }
}
