/**
 The NAS-facing side (proxy/downstream_server.py with `SessionTable` of proxy/session.py) as a
 function on a table of session values: one datagram in, the table and the reply out.
 */
module DownstreamSpec {
  import opened Prelude
  import opened Octets
  import opened EapTls
  import opened Radius
  import opened SessionState
  import opened MediatorSpec

  const ACCESS_REQUEST: byte := 1

  /** A decoded RADIUS packet from the NAS; `authentic` is the verdict on its Message-Authenticator. */
  datatype Incoming = Incoming(
    code: byte,
    authenticator: Bytes,
    host: string,
    port: nat,
    username: string,
    calling: Option<string>,
    called: Option<string>,
    state: Option<Bytes>,
    eapMessages: seq<Bytes>,
    authentic: bool)
  {
    function Eap(): Bytes { Join(eapMessages) }

    function Caller(): Caller { SessionState.Caller(username, calling, called) }

    predicate Dropped() {
      code != ACCESS_REQUEST || eapMessages == [] || !authentic
    }
  }

  /** The reply to the NAS. */
  datatype Outgoing = Outgoing(
    code: byte,
    state: Option<Bytes>,
    eapMessages: seq<Bytes>,
    msMppeSendKey: Option<Bytes>,
    msMppeRecvKey: Option<Bytes>)

  type Table = map<string, SessionView>

  // ---- Keys ---------------------------------------------------------------

  function HexDigit(n: nat): char
    requires n < 16
  {
    "0123456789abcdef"[n]
  }

  /** `bytes.hex()` */
  function Hex(b: Bytes): string {
    if b == [] then "" else [HexDigit(b[0] / 16), HexDigit(b[0] % 16)] + Hex(b[1..])
  }

  /** `str(n)` */
  function Decimal(n: nat): string {
    if n < 10 then ["0123456789"[n]] else Decimal(n / 10) + ["0123456789"[n % 10]]
  }

  function StateKey(state: Bytes): string {
    "st:" + Hex(state)
  }

  /** The Identifier of the EAP packet, or 0. */
  function EapIdOf(req: Incoming): byte {
    if |req.Eap()| >= 2 then req.Eap()[1] else 0
  }

  /** The NAS's address and the Identifier. */
  function AddressOf(req: Incoming): string {
    req.host + ":" + Decimal(req.port) + ":" + Decimal(EapIdOf(req))
  }

  /** The stand-in key of a conversation that has no State yet. */
  function FirstKey(req: Incoming): string {
    match Truthy(req.calling)
    case Some(calling) => "new:" + calling
    case None => "new:" + AddressOf(req)
  }

  function KeyFor(req: Incoming): string {
    match req.state
    case Some(state) => StateKey(state)
    case None => FirstKey(req)
  }

  // ---- The session table --------------------------------------------------

  /** `get_or_create`: the session under this key, new if there is none. */
  function SessionAt(settings: Settings, table: Table, key: string): SessionView {
    if key in table then table[key] else NewSession(key, settings)
  }

  function Rekey(table: Table, oldKey: string, newKey: string): Table {
    if oldKey in table && oldKey != newKey
    then (table - {oldKey})[newKey := table[oldKey].(key := newKey)]
    else table
  }

  // ---- One datagram -------------------------------------------------------

  /** Identity and other non-TLS packets go to the server and its answer comes back, both as they are. */
  function PassthroughNonTls(server: Server, s: SessionView, caller: Caller, eap: Bytes): (res: (SessionView, Handled))
    ensures SameSession(s, res.0)
  {
    var (leg, reply) := Exchange(server, s.server, caller, eap);
    var s' := s.(server := leg);
    if reply.None? then (s', Err(UpstreamTimeout))
    else if reply.value.Accept() then (Finish(s', Accepted), Ok(Outcome(ActAccept, reply.value.eap, None)))
    else if reply.value.Reject() then (Finish(s', Rejected), Ok(Outcome(ActReject, reply.value.eap, None)))
    else (s', Ok(Outcome(ActChallenge, reply.value.eap, None)))
  }

  function Route(server: Server, s: SessionView, caller: Caller, eap: Bytes): (res: (SessionView, Handled))
    ensures SameSession(s, res.0)
  {
    if |eap| >= 5 && eap[4] == EAP_TYPE_TLS then HandleSupplicantEap(server, s, caller, eap)
    else PassthroughNonTls(server, s, caller, eap)
  }

  /** The first challenge of a session gets a State of our own. */
  predicate Mints(s: SessionView, o: Outcome) {
    (o.action.ActAck? || o.action.ActChallenge?) && s.downstreamState.None?
  }

  function Minted(s: SessionView, o: Outcome, token: Bytes): SessionView {
    if Mints(s, o) then s.(downstreamState := Some(token)) else s
  }

  function ReplyFor(s: SessionView, o: Outcome): Outgoing {
    var eapMessages := if o.eap.Some? && o.eap.value != [] then SplitEap(o.eap.value) else [];
    match o.action
    case ActAccept => Outgoing(ACCESS_ACCEPT, None, eapMessages, s.server.msMppeSendKey, s.server.msMppeRecvKey)
    case ActReject => Outgoing(ACCESS_REJECT, None, eapMessages, None, None)
    case _ => Outgoing(ACCESS_CHALLENGE, s.downstreamState, eapMessages, None, None)
  }

  /** Where the session stands in the table once the reply is built. */
  function KeyAfter(key: string, s: SessionView, o: Outcome, token: Bytes): string {
    if Mints(s, o) then StateKey(token) else key
  }

  /** The table after the reply: rekeyed if a State was minted, the session dropped if it has ended. */
  function Filed(table: Table, key: string, s: SessionView, o: Outcome, token: Bytes): Table {
    var filed := Rekey(table[key := Minted(s, o, token)], key, KeyAfter(key, s, o, token));
    if s.result.Some? then filed - {KeyAfter(key, s, o, token)} else filed
  }

  /**
   One datagram. `token` is what the random source would yield; no reply means that it was ignored
   or that an exception was logged, the session keeping whatever was done to it.
   */
  function HandleDatagram(server: Server, settings: Settings, table: Table, req: Incoming, token: Bytes)
    : (Table, Option<Outgoing>)
  {
    if req.Dropped() then (table, None)
    else
      var key := KeyFor(req);
      var s0 := Mirrored(SessionAt(settings, table, key), req.authenticator);
      var (s, handled) := Route(server, s0, req.Caller(), req.Eap());
      match handled
      case Err(_) => (table[key := s], None)
      case Ok(o) =>
        (Filed(table, key, s, o, token), Some(ReplyFor(Minted(s, o, token), o)))
  }
}
