/**
 Authentications through the whole proxy: the datagrams of a NAS into the session table and back,
 with any other traffic in between.
 */
module ProxyRun {
  import opened Prelude
  import opened Octets
  import opened EapTls
  import opened Radius
  import opened SessionState
  import opened MediatorSpec
  import opened DownstreamSpec
  import opened ServerLegLaws
  import opened DownstreamLaws
  import opened KeyLaws
  import opened Endpoints
  import opened Authentication
  import opened Transparency

  /** Where the datagrams of one NAS come from. */
  datatype Nas = Nas(host: string, port: nat)

  /** The proxy's table, one supplicant, and what its NAS remembers of their conversation. */
  datatype World = World(table: Table, peer: Peer, state: Option<Bytes>, sent: nat)

  /** What goes on around a conversation: other events before each of its datagrams, and what the random source yields. */
  datatype Around = Around(traffic: nat -> seq<Event>, tokens: nat -> Bytes)

  function Datagram(sc: Scenario, nas: Nas, state: Option<Bytes>, sent: nat, eap: Bytes): Incoming {
    Incoming(ACCESS_REQUEST, sc.authenticators(sent), nas.host, nas.port,
             sc.caller.username, sc.caller.calling, sc.caller.called, state, SplitEap(eap), true)
  }

  lemma DatagramFacts(sc: Scenario, nas: Nas, state: Option<Bytes>, sent: nat, eap: Bytes)
    ensures var req := Datagram(sc, nas, state, sent, eap);
            !req.Dropped() && req.Eap() == eap && req.Caller() == sc.caller
  {
    ChunksCutExactly(eap, MAX_VALUE);
  }

  /** The EAP packet that a reply brings to the supplicant. */
  function Carried(reply: Outgoing): Option<Bytes> {
    if reply.eapMessages == [] then None else Some(Join(reply.eapMessages))
  }

  /** The first datagram, without a State, and the Start it brings back. */
  function Open(sc: Scenario, nas: Nas, table: Table, token: Bytes): Option<World> {
    var req := Datagram(sc, nas, None, 0, sc.identity);
    var (table', reply) := HandleDatagram(StrictServer(sc), sc.settings, table, req, token);
    if reply.None? || reply.value.code != ACCESS_CHALLENGE || Carried(reply.value).None? then None
    else
      match PeerStart(sc, Carried(reply.value).value)
      case None => None
      case Some(peer) => Some(World(table', peer, reply.value.state, 1))
  }

  /** One more datagram, quoting the State of the last reply; None if it got no answer of use. */
  function Turnaround(sc: Scenario, nas: Nas, w: World, token: Bytes): Option<World> {
    var req := Datagram(sc, nas, w.state, w.sent, PeerPacket(w.peer));
    var (table', reply) := HandleDatagram(StrictServer(sc), sc.settings, w.table, req, token);
    if reply.None? then None
    else
      var eap := Carried(reply.value);
      var peer := if reply.value.code == ACCESS_ACCEPT then PeerEnd(w.peer, Accepted, eap)
                  else if reply.value.code == ACCESS_REJECT then PeerEnd(w.peer, Rejected, eap)
                  else if eap.None? then None
                  else PeerReceive(sc, w.peer, eap.value);
      if peer.None? then None else Some(World(table', peer.value, reply.value.state, w.sent + 1))
  }

  /** The other events before the next datagram have taken place. */
  function Later(sc: Scenario, w: World, around: Around): World {
    w.(table := Serve(sc.settings, w.table, around.traffic(w.sent)))
  }

  /** k datagrams of the conversation, fewer if it ends. */
  function Proceed(sc: Scenario, nas: Nas, w: World, around: Around, k: nat): Option<World>
    decreases k
  {
    if k == 0 || w.peer.verdict.Some? then Some(w)
    else
      match Turnaround(sc, nas, Later(sc, w, around), around.tokens(w.sent))
      case None => None
      case Some(w') => Proceed(sc, nas, w', around, k - 1)
  }

  /** Nobody else quotes this conversation's State or sweeps it out meanwhile, and all tokens are fresh. */
  ghost predicate Undisturbed(sc: Scenario, nas: Nas, w: World, around: Around, k: nat)
    decreases k
  {
    k == 0 || w.peer.verdict.Some? ||
    (&& w.state.Some?
     && FreshTokens(sc.settings, w.table, around.traffic(w.sent))
     && (forall e :: e in around.traffic(w.sent) ==> Elsewhere(e, StateKey(w.state.value)))
     && var w1 := Later(sc, w, around);
     && Fresh(w1.table, Datagram(sc, nas, w.state, w.sent, PeerPacket(w.peer)), around.tokens(w.sent))
     && match Turnaround(sc, nas, w1, around.tokens(w.sent))
        case None => true
        case Some(w') => Undisturbed(sc, nas, w', around, k - 1))
  }

  /** The table holds exactly this session under the State that the NAS quotes. */
  predicate Matches(sc: Scenario, w: World, a: Auth) {
    && w.peer == a.peer
    && (a.peer.verdict.None? ==>
          && w.sent == a.sent && w.state.Some? && TableAtRest(w.table, sc.settings)
          && StateKey(w.state.value) in w.table && w.table[StateKey(w.state.value)] == a.session
          && a.session.downstreamState == w.state)
  }

  lemma CarriesItsPacket(s: SessionView, o: Outcome)
    ensures Carried(ReplyFor(s, o)) == if o.eap == Some([]) then None else o.eap
    ensures ReplyFor(s, o).code == (match o.action
                                    case ActAccept => ACCESS_ACCEPT
                                    case ActReject => ACCESS_REJECT
                                    case _ => ACCESS_CHALLENGE)
  {
    if o.eap.Some? {
      ChunksCutExactly(o.eap.value, MAX_VALUE);
    }
  }

  lemma NothingIsNoPacket(sc: Scenario, p: Peer, verdict: Verdict)
    ensures PeerReceive(sc, p, []) == None && PeerEnd(p, verdict, Some([])) == None
  {
  }

  lemma VerdictOnlyAtTheEnd(sc: Scenario, p: Peer, o: Outcome)
    requires p.verdict.None? && PeerGets(sc, p, o).Some?
    ensures PeerGets(sc, p, o).value.verdict.Some? <==> o.action.ActAccept? || o.action.ActReject?
  {
  }

  /** The reply built from an outcome brings the supplicant just that. */
  lemma ReplyBringsOutcome(sc: Scenario, nas: Nas, w: World, token: Bytes, table: Table, s: SessionView, o: Outcome)
    requires HandleDatagram(StrictServer(sc), sc.settings, w.table,
                            Datagram(sc, nas, w.state, w.sent, PeerPacket(w.peer)), token)
          == (table, Some(ReplyFor(s, o)))
    requires PeerGets(sc, w.peer, o).Some?
    ensures Turnaround(sc, nas, w, token)
         == Some(World(table, PeerGets(sc, w.peer, o).value, ReplyFor(s, o).state, w.sent + 1))
  {
    hide HandleDatagram, PeerReceive, PeerEnd, ReplyFor, Datagram;
    CarriesItsPacket(s, o);
    assert o.action.ActAck? || o.action.ActChallenge? || o.action.ActAccept? || o.action.ActReject?;
    NothingIsNoPacket(sc, w.peer, Accepted);
    NothingIsNoPacket(sc, w.peer, Rejected);
  }

  /** What a step that gets an answer does to the session, and that the routing leads it there. */
  lemma StepIsRouted(sc: Scenario, a: Auth)
    requires a.peer.verdict.None? && Step(sc, a).Some? && a.session.result.None? && Faithful(a.session.server)
    ensures var (s, handled) := Route(StrictServer(sc), Noted(sc, a), sc.caller, PeerPacket(a.peer));
            && handled.Ok? && SameSession(a.session, s)
            && PeerGets(sc, a.peer, handled.value).Some?
            && Step(sc, a) == Some(Auth(PeerGets(sc, a.peer, handled.value).value, s, a.sent + 1))
            && (s.result.Some? <==> handled.value.action.ActAccept? || handled.value.action.ActReject?)
  {
    hide HandleSupplicantEap, PeerGets, PeerPacket, Parse, Faithful;
    var eap := PeerPacket(a.peer);
    if Parse(eap).Err? {
      MalformedIsRefused(StrictServer(sc), Noted(sc, a), sc.caller, eap);
      assert false;
    }
    assert Faithful(Noted(sc, a).server) by { MirroringIsFaithful(a.session, sc.authenticators(a.sent)); }
    EveryRouteIsSound(StrictServer(sc), Noted(sc, a), sc.caller, eap);
    var (s, handled) := HandleSupplicantEap(StrictServer(sc), Noted(sc, a), sc.caller, eap);
    assert Route(StrictServer(sc), Noted(sc, a), sc.caller, eap) == (s, handled);
    assert handled.Ok? || handled.Err?;
    assert !PeerGets(sc, a.peer, handled.value).None?;
    assert s.result.Some? ==> s.result.value.Accepted? || s.result.value.Rejected?;
  }

  /** One datagram through the table does what one step of the bare authentication does. */
  lemma TurnaroundFollows(sc: Scenario, nas: Nas, w: World, token: Bytes, a: Auth)
    requires a.peer.verdict.None? && Matches(sc, w, a) && Step(sc, a).Some?
    requires Fresh(w.table, Datagram(sc, nas, w.state, w.sent, PeerPacket(w.peer)), token)
    ensures Turnaround(sc, nas, w, token).Some?
    ensures Matches(sc, Turnaround(sc, nas, w, token).value, Step(sc, a).value)
  {
    hide Route, HandleDatagram, PeerGets, PeerPacket, TableAtRest, StateKey, Step, Turnaround;
    var req := Datagram(sc, nas, w.state, w.sent, PeerPacket(a.peer));
    var key := StateKey(w.state.value);
    DatagramFacts(sc, nas, w.state, w.sent, PeerPacket(a.peer));
    SessionIsAtRest(w.table, sc.settings, key);
    StepIsRouted(sc, a);
    KnownSessionIsServed(StrictServer(sc), sc.settings, w.table, req, token);
    DatagramKeepsTable(StrictServer(sc), sc.settings, w.table, req, token);
    var (s, handled) := Route(StrictServer(sc), Noted(sc, a), sc.caller, PeerPacket(a.peer));
    var table := if s.result.Some? then w.table - {key} else w.table[key := s];
    ReplyBringsOutcome(sc, nas, w, token, table, s, handled.value);
    VerdictOnlyAtTheEnd(sc, a.peer, handled.value);
  }

  lemma SessionIsAtRest(table: Table, settings: Settings, key: string)
    requires TableAtRest(table, settings) && key in table
    ensures AtRest(key, table[key], settings)
  {
  }

  lemma {:induction false} RunStops(sc: Scenario, a: Auth, k: nat)
    requires a.peer.verdict.Some?
    ensures Run(sc, a, k) == Some(a)
    decreases k
  {
    if k > 0 {
      RunStops(sc, a, k - 1);
    }
  }

  /** Whatever goes on around it, the conversation follows the bare authentication datagram by datagram. */
  lemma {:induction false} ConversationFollows(sc: Scenario, nas: Nas, w: World, a: Auth, around: Around, k: nat)
    requires Matches(sc, w, a) && Undisturbed(sc, nas, w, around, k) && Run(sc, a, k).Some?
    ensures Proceed(sc, nas, w, around, k).Some?
    ensures Matches(sc, Proceed(sc, nas, w, around, k).value, Run(sc, a, k).value)
    decreases k
  {
    hide Step, Turnaround, TableAtRest, FreshTokens, Elsewhere, Serve, Fresh, Datagram, StateKey;
    if a.peer.verdict.Some? {
      RunStops(sc, a, k);
    } else if k > 0 {
      var events, w1 := around.traffic(w.sent), Later(sc, w, around);
      TableIsAlwaysAtRest(sc.settings, w.table, events);
      SessionsAreIsolated(sc.settings, w.table, events, StateKey(w.state.value));
      TurnaroundFollows(sc, nas, w1, around.tokens(w.sent), a);
      ConversationFollows(sc, nas, Turnaround(sc, nas, w1, around.tokens(w.sent)).value, Step(sc, a).value, around, k - 1);
    }
  }

  /** A new conversation can be told from all those under way. */
  predicate CanOpen(sc: Scenario, nas: Nas, table: Table, token: Bytes) {
    var req := Datagram(sc, nas, None, 0, sc.identity);
    && (|sc.identity| < 5 || sc.identity[4] != EAP_TYPE_TLS)
    && TableAtRest(table, sc.settings) && KeyFor(req) !in table && Fresh(table, req, token)
  }

  /** The same authentication, its session under another key and with its State. */
  function Refiled(a: Auth, token: Bytes): Auth {
    a.(session := a.session.(downstreamState := Some(token), key := StateKey(token)))
  }

  lemma RefiledIsAtTurn(sc: Scenario, a: Auth, token: Bytes, d: Dialogue)
    requires AtTurn(sc, a, d)
    ensures AtTurn(sc, Refiled(a, token), d)
  {
    hide SrvAfter, StateKey;
  }

  /** The first datagram files the new session under the State it mints. */
  lemma OpeningFollows(sc: Scenario, nas: Nas, table: Table, token: Bytes) returns (a: Auth)
    requires Sound(sc) && sc.lifetime >= 1 && CanOpen(sc, nas, table, token)
    ensures Open(sc, nas, table, token).Some? && Matches(sc, Open(sc, nas, table, token).value, a)
    ensures AtTurn(sc, a, START) && |a.session.server.requests| == 1
    ensures var w := Open(sc, nas, table, token).value;
            w.table.Keys == table.Keys + {StateKey(token)} && w.state == Some(token) && w.sent == 1
  {
    hide Exchange, SrvAfter, Encode, Parse, StateKey, FirstKey, TableAtRest, SplitEap, PeerStart;
    var req := Datagram(sc, nas, None, 0, sc.identity);
    var key := KeyFor(req);
    DatagramFacts(sc, nas, None, 0, sc.identity);
    OpeningSucceeds(sc, key);
    var begun := Opened(sc, NewSession(key, sc.settings)).value;
    a := Refiled(begun, token);
    RefiledIsAtTurn(sc, begun, token, START);
    var s0 := Mirrored(NewSession(key, sc.settings), sc.authenticators(0));
    StartArrives(sc, s0.server);
    var o := Outcome(ActChallenge, Some(StartPacket(sc)), None);
    assert Route(StrictServer(sc), s0, sc.caller, sc.identity) == (begun.session, Ok(o));
    CarriesItsPacket(Minted(begun.session, o, token), o);
    DatagramKeepsTable(StrictServer(sc), sc.settings, table, req, token);
  }

  /** A whole conversation: the first datagram, then so many more. */
  function Conversation(sc: Scenario, nas: Nas, table: Table, around: Around, k: nat): Option<World> {
    match Open(sc, nas, table, around.tokens(0))
    case None => None
    case Some(w) => Proceed(sc, nas, w, around, k)
  }

  /**
   The claim once more, for the proxy as a whole. Among any other authentications, in either mode, an
   authentication that starts under a key not in use and whose State nobody else quotes goes exactly
   through the ideal dialogue of its two TLS stacks, each datagram finding the session as the last one
   left it; and while it lasts, the session in the table is one whose server has heard just that.
   */
  lemma IdealThroughTheProxy(sc: Scenario, tls: Tls, nas: Nas, table: Table, around: Around, n: nat)
    requires Sound(sc) && Runs(sc, tls) && 1 + Total(sc, n).exchanges <= sc.lifetime
    requires CanOpen(sc, nas, table, around.tokens(0))
    requires Open(sc, nas, table, around.tokens(0)).Some? ==>
               Undisturbed(sc, nas, Open(sc, nas, table, around.tokens(0)).value, around, Datagrams(sc, n))
    ensures var d, end := Ideal(tls, n), Conversation(sc, nas, table, around, Datagrams(sc, n));
            && end.Some?
            && end.value.peer.heard == d.heard && end.value.peer.verdict == d.verdict && d.said <= end.value.peer.said
            && (d.verdict.None? ==>
                  && end.value.state.Some? && StateKey(end.value.state.value) in end.value.table
                  && var leg := end.value.table[StateKey(end.value.state.value)].server;
                  SrvAfter(sc, leg.requests).Some? && SrvAfter(sc, leg.requests).value.heard == d.said)
  {
    hide Step, Datagrams, Total, TurnBill, SrvAfter, Open, Proceed, Undisturbed, CanOpen, StateKey;
    var a := OpeningFollows(sc, nas, table, around.tokens(0));
    DialogueGoesThrough(sc, a, n);
    DialogueIsIdeal(sc, tls, n);
    ConversationFollows(sc, nas, Open(sc, nas, table, around.tokens(0)).value, a, around, Datagrams(sc, n));
  }

  // ---- With nothing around ------------------------------------------------

  /** No other traffic, and a token for this conversation that is never drawn again. */
  ghost predicate Alone(around: Around) {
    forall i: nat :: around.traffic(i) == [] && (i > 0 ==> around.tokens(i) != around.tokens(0))
  }

  /** Only this conversation is in the table. */
  predicate OnlyOne(w: World, token: Bytes) {
    w.peer.verdict.None? ==> w.state == Some(token) && w.table.Keys == {StateKey(token)}
  }

  lemma {:induction false} AloneIsUndisturbed(sc: Scenario, nas: Nas, w: World, a: Auth, around: Around, k: nat)
    requires Alone(around) && Matches(sc, w, a) && Run(sc, a, k).Some?
    requires w.sent > 0 && OnlyOne(w, around.tokens(0))
    ensures Undisturbed(sc, nas, w, around, k)
    decreases k
  {
    hide Step, Turnaround, TableAtRest, StateKey, Fresh;
    if k > 0 && a.peer.verdict.None? {
      assert around.traffic(w.sent) == [];
      assert Later(sc, w, around) == w;
      var token := around.tokens(w.sent);
      OtherTokenIsFresh(sc, nas, w, around.tokens(0), token);
      TurnaroundFollows(sc, nas, w, token, a);
      StaysOnlyOne(sc, nas, w, token, a, around.tokens(0));
      AloneIsUndisturbed(sc, nas, Turnaround(sc, nas, w, token).value, Step(sc, a).value, around, k - 1);
    }
  }

  lemma OtherTokenIsFresh(sc: Scenario, nas: Nas, w: World, token: Bytes, other: Bytes)
    requires w.peer.verdict.None? && OnlyOne(w, token) && other != token
    ensures Fresh(w.table, Datagram(sc, nas, w.state, w.sent, PeerPacket(w.peer)), other)
  {
    hide StateKey;
    var req := Datagram(sc, nas, w.state, w.sent, PeerPacket(w.peer));
    StateKeysAreApart(token, other, req);
  }

  lemma StaysOnlyOne(sc: Scenario, nas: Nas, w: World, token: Bytes, a: Auth, mine: Bytes)
    requires a.peer.verdict.None? && Matches(sc, w, a) && Step(sc, a).Some? && OnlyOne(w, mine)
    requires Turnaround(sc, nas, w, token).Some?
    requires Matches(sc, Turnaround(sc, nas, w, token).value, Step(sc, a).value)
    ensures OnlyOne(Turnaround(sc, nas, w, token).value, mine)
    ensures Turnaround(sc, nas, w, token).value.sent > 0
  {
    hide Route, HandleDatagram, PeerPacket, TableAtRest, StateKey, Step, PeerGets, PeerEnd, PeerReceive;
    DatagramFacts(sc, nas, w.state, w.sent, PeerPacket(a.peer));
    SessionIsAtRest(w.table, sc.settings, StateKey(mine));
    StepIsRouted(sc, a);
    KnownSessionIsServed(StrictServer(sc), sc.settings, w.table,
                         Datagram(sc, nas, w.state, w.sent, PeerPacket(a.peer)), token);
  }

  /** In particular an authentication that has the proxy to itself needs no more than well-behaved ends. */
  lemma LoneAuthenticationIsIdeal(sc: Scenario, tls: Tls, nas: Nas, around: Around, n: nat)
    requires Sound(sc) && Runs(sc, tls) && 1 + Total(sc, n).exchanges <= sc.lifetime
    requires Alone(around) && (|sc.identity| < 5 || sc.identity[4] != EAP_TYPE_TLS)
    ensures var d, end := Ideal(tls, n), Conversation(sc, nas, map[], around, Datagrams(sc, n));
            && end.Some?
            && end.value.peer.heard == d.heard && end.value.peer.verdict == d.verdict && d.said <= end.value.peer.said
  {
    hide Step, Datagrams, Total, TurnBill, SrvAfter, Open, Proceed, Undisturbed, StateKey, FirstKey;
    var token := around.tokens(0);
    StateKeysAreApart(token, [], Datagram(sc, nas, None, 0, sc.identity));
    assert CanOpen(sc, nas, map[], token);
    var a := OpeningFollows(sc, nas, map[], token);
    DialogueGoesThrough(sc, a, n);
    AloneIsUndisturbed(sc, nas, Open(sc, nas, map[], token).value, a, around, Datagrams(sc, n));
    IdealThroughTheProxy(sc, tls, nas, map[], around, n);
  }
}
