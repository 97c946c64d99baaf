/**
 What holds of the session table over any interleaving of authentications, whatever the NAS sends
 and whatever the auth server answers.
 */
module DownstreamLaws {
  import opened Prelude
  import opened Octets
  import opened EapTls
  import opened Reassembly
  import opened Radius
  import opened SessionState
  import opened MediatorSpec
  import opened DownstreamSpec
  import opened ServerLegLaws
  import opened SupplicantLegLaws
  import opened DrainLaws
  import opened VerdictLaws
  import opened MessageLaws
  import opened DeliveryLaws
  import opened KeyLaws

  // ---- One datagram -------------------------------------------------------

  /**
   A session as the table holds it between datagrams. The verdicts it outlived, if any, answered fragments
   with M in reassemble mode, and there its reassembler is what the conversation with the server made it.
   */
  predicate AtRest(key: string, s: SessionView, settings: Settings) {
    && s.key == key && s.settings == settings && s.result.None?
    && Faithful(s.server) && Unread(s.settings.mode, s.server, |s.server.answers|)
    && (s.settings.mode.Reassemble? ==> Remembers(s))
    && (s.downstreamState.Some? ==> key == StateKey(s.downstreamState.value))
  }

  predicate TableAtRest(table: Table, settings: Settings) {
    forall key :: key in table ==> AtRest(key, table[key], settings)
  }

  /** Any packet on any route: the verdict goes out in the very datagram in which the server gives it. */
  predicate RoutedWell(before: SessionView, after: SessionView, handled: Handled, caller: Caller) {
    && SameSession(before, after)
    && Faithful(after.server) && Grew(before.server, after.server, caller)
    && (after.result.Some? ==> |after.server.requests| > |before.server.requests|)
    && (handled.Err? ==> after.result.None?)
    && (handled.Ok? ==>
          && (handled.value.action.ActAccept? <==> after.result == Some(Accepted))
          && (handled.value.action.ActReject? <==> after.result == Some(Rejected))
          && (handled.value.action.ActAccept? ==> LastAnswerIs(after.server, ACCESS_ACCEPT))
          && (handled.value.action.ActReject? ==> LastAnswerIs(after.server, ACCESS_REJECT)))
  }

  lemma EveryRouteIsSound(server: Server, s: SessionView, caller: Caller, eap: Bytes)
    requires s.result.None? && Faithful(s.server)
    ensures var (s', handled) := Route(server, s, caller, eap); RoutedWell(s, s', handled, caller)
  {
    hide HandleSupplicantEap, Encode, Parse, SendEap;
    if |eap| >= 5 && eap[4] == EAP_TYPE_TLS {
      HandlerIsFaithful(server, s, caller, eap);
      VerdictTakesAnExchange(server, s, caller, eap);
      if Parse(eap).Err? {
        MalformedIsRefused(server, s, caller, eap);
      } else if s.settings.mode.Reassemble? {
        EveryAnswerIsProper(server, s, caller, eap);
      } else {
        PassthroughRelays(server, s, caller, eap);
      }
    } else {
      ExchangeIsFaithful(server, s.server, caller, eap);
      NonTlsVerdict(server, s, caller, eap);
    }
  }

  /** A session that had no result has none after a packet that caused no exchange with the server. */
  lemma VerdictTakesAnExchange(server: Server, s: SessionView, caller: Caller, eap: Bytes)
    requires s.result.None? && Faithful(s.server)
    ensures var s' := HandleSupplicantEap(server, s, caller, eap).0;
            s'.result.Some? ==> |s'.server.requests| > |s.server.requests|
  {
    hide Encode, SendEap, HandleUpstreamReply, SendChunks, Exchange, Faithful;
    if Parse(eap).Ok? && s.settings.mode.Reassemble? {
      var pkt := Parse(eap).value;
      var s1 := NotePacket(s, pkt);
      if pkt.IsAck() {
        if s.supplicant.outbox == [] {
          var (leg, id) := PickUpstreamId(s1.server);
          PickedIdEchoes(server, s1.server, caller, BuildAck(RESPONSE, id));
          var (leg', reply) := Exchange(server, leg, caller, BuildAck(RESPONSE, id));
          if reply.Some? {
            ReplyHandlingIsFaithful(server, s1.(server := leg'), caller, reply.value);
          }
        }
      } else {
        var (r, ingested) := Ingest(s1.settings.maxMessageLen, s1.upReasm, pkt);
        if ingested.Message? {
          var s2 := s1.(upReasm := r, up := s1.up.(bytesReassembled := s1.up.bytesReassembled + |ingested.data|));
          ForwardTakesAnExchange(server, s2, caller, ingested.data);
        }
      }
    }
  }

  lemma ForwardTakesAnExchange(server: Server, s: SessionView, caller: Caller, record: Bytes)
    requires s.result.None? && Faithful(s.server)
    ensures var s' := ForwardRecordUpstream(server, s, caller, record).0;
            s'.result.Some? ==> |s'.server.requests| > |s.server.requests|
  {
    hide Encode, SendEap, HandleUpstreamReply, Exchange, Chunks, PickUpstreamId, Drain;
    var fragmented := Fragment(record, s.settings.upstreamFragmentSize);
    if fragmented.Ok? {
      var chunks := fragmented.value;
      SendChunksIsFaithful(server, s, caller, |record|, chunks, 0);
      var (s1, reply) := SendChunks(server, s, caller, |record|, chunks, 0);
      if reply.Ok? {
        FirstChunkIsSent(server, s, caller, |record|, chunks);
        ReplyHandlingIsFaithful(server, s1, caller, reply.value);
      }
    }
  }

  lemma FirstChunkIsSent(server: Server, s: SessionView, caller: Caller, total: nat, chunks: seq<Bytes>)
    requires Faithful(s.server) && chunks != []
    ensures var (s', reply) := SendChunks(server, s, caller, total, chunks, 0);
            reply.Ok? ==> |s'.server.requests| > |s.server.requests|
  {
    hide Encode, SendEap;
    var (s1, reply) := SendChunk(server, s, caller, total, chunks, 0);
    if reply.Ok? && |chunks| > 1 {
      SendChunkIsFaithful(server, s, caller, total, chunks, 0);
      SendChunksIsFaithful(server, s1, caller, total, chunks, 1);
    }
  }

  lemma MalformedIsRefused(server: Server, s: SessionView, caller: Caller, eap: Bytes)
    requires Parse(eap).Err?
    ensures HandleSupplicantEap(server, s, caller, eap) == (s, Err(Parse(eap).error))
  {
  }

  lemma NonTlsVerdict(server: Server, s: SessionView, caller: Caller, eap: Bytes)
    requires s.result.None?
    ensures var (s', handled) := PassthroughNonTls(server, s, caller, eap);
            && (handled.Err? ==> s'.result.None?)
            && (handled.Ok? ==>
                  && (handled.value.action.ActAccept? <==> s'.result == Some(Accepted))
                  && (handled.value.action.ActReject? <==> s'.result == Some(Rejected))
                  && (handled.value.action.ActAccept? ==> LastAnswerIs(s'.server, ACCESS_ACCEPT))
                  && (handled.value.action.ActReject? ==> LastAnswerIs(s'.server, ACCESS_REJECT)))
  {
  }

  /** The random source gives a State not in use. */
  predicate Fresh(table: Table, req: Incoming, token: Bytes) {
    StateKey(token) !in table && StateKey(token) != KeyFor(req)
  }

  /** The session a datagram is about, before and after, without regard to the table. */
  function Subject(settings: Settings, table: Table, req: Incoming): SessionView {
    Mirrored(SessionAt(settings, table, KeyFor(req)), req.authenticator)
  }

  lemma SubjectIsSound(settings: Settings, table: Table, req: Incoming)
    requires TableAtRest(table, settings)
    ensures AtRest(KeyFor(req), Subject(settings, table, req), settings)
    ensures Subject(settings, table, req).server.lastApAuthenticator == Some(req.authenticator)
  {
    if KeyFor(req) !in table {
      assert NEW_SERVER_LEG.requests == [] && NEW_SERVER_LEG.answers == [];
    }
  }

  /**
   One datagram, given a fresh token: the table stays sound and every session but the one addressed is
   left exactly as it was, under its key.
   */
  lemma DatagramKeepsTable(server: Server, settings: Settings, table: Table, req: Incoming, token: Bytes)
    requires TableAtRest(table, settings) && Fresh(table, req, token)
    ensures var table' := HandleDatagram(server, settings, table, req, token).0;
            && TableAtRest(table', settings)
            && forall key :: key in table && key != KeyFor(req) ==> key in table' && table'[key] == table[key]
  {
    hide Route, Faithful, Unread, ReasmOf, KeyFor, StateKey, SessionAt;
    if !req.Dropped() {
      var key, s0 := KeyFor(req), Subject(settings, table, req);
      SubjectIsSound(settings, table, req);
      EveryRouteIsSound(server, s0, req.Caller(), req.Eap());
      OutlivesTheUnread(server, s0, req.Caller(), req.Eap());
      if settings.mode.Reassemble? {
        EveryRouteIsRemembered(server, s0, req.Caller(), req.Eap());
      }
      var (s, handled) := Route(server, s0, req.Caller(), req.Eap());
      if handled.Ok? {
        assert s.result.Some? ==> s.result.value.Accepted? || s.result.value.Rejected?;
        FilingIsSound(settings, table, key, s, handled.value, token);
      } else {
        assert AtRest(key, s, settings);
      }
    }
  }

  /** Rekeying and dropping leave a sound table. */
  lemma FilingIsSound(settings: Settings, table: Table, key: string, s: SessionView, o: Outcome, token: Bytes)
    requires TableAtRest(table, settings) && StateKey(token) !in table && StateKey(token) != key
    requires s.result.Some? || AtRest(key, s, settings)
    requires s.result.Some? ==> !Mints(s, o)
    ensures var table' := Filed(table, key, s, o, token);
            && TableAtRest(table', settings)
            && forall k :: k in table && k != key ==> k in table' && table'[k] == table[k]
  {
    hide Faithful, Unread, ReasmOf, StateKey;
    var table' := Filed(table, key, s, o, token);
    forall k | k in table' ensures AtRest(k, table'[k], settings) {
      if k != key && k != StateKey(token) {
        assert AtRest(k, table[k], settings);
      }
    }
  }

  /** A session that has a State is the one, and the only one, that a datagram quoting it reaches. */
  lemma StateReachesItsSession(settings: Settings, table: Table, key: string, req: Incoming)
    requires TableAtRest(table, settings) && key in table && table[key].downstreamState.Some?
    ensures KeyFor(req) == key <==> req.state == table[key].downstreamState
  {
    assert AtRest(key, table[key], settings);
    if KeyFor(req) == key {
      match req.state
      case Some(state) => StateKeysAreApart(state, table[key].downstreamState.value, req);
      case None => StateKeysAreApart(table[key].downstreamState.value, [], req);
    }
  }

  /** A reply that carries a State names a session of the table after it; so the next datagram finds it. */
  lemma ChallengeCanBeAnswered(server: Server, settings: Settings, table: Table, req: Incoming, token: Bytes)
    requires TableAtRest(table, settings) && Fresh(table, req, token)
    ensures var (table', reply) := HandleDatagram(server, settings, table, req, token);
            reply.Some? && reply.value.code == ACCESS_CHALLENGE ==>
              && reply.value.state.Some?
              && StateKey(reply.value.state.value) in table'
              && table'[StateKey(reply.value.state.value)].downstreamState == reply.value.state
  {
    hide Route, Faithful, KeyFor, StateKey;
    if !req.Dropped() {
      var s0 := Subject(settings, table, req);
      SubjectIsSound(settings, table, req);
      EveryRouteIsSound(server, s0, req.Caller(), req.Eap());
      var s := Route(server, s0, req.Caller(), req.Eap()).0;
      assert s.result.Some? ==> s.result.value.Accepted? || s.result.value.Rejected?;
    }
  }

  /** A session that has its State already is served in place, and dropped when it has ended. */
  lemma KnownSessionIsServed(server: Server, settings: Settings, table: Table, req: Incoming, token: Bytes)
    requires !req.Dropped() && KeyFor(req) in table && table[KeyFor(req)].downstreamState.Some?
    ensures var key := KeyFor(req);
            var (s, handled) := Route(server, Mirrored(table[key], req.authenticator), req.Caller(), req.Eap());
            HandleDatagram(server, settings, table, req, token)
            == if handled.Err? then (table[key := s], None)
               else (if s.result.Some? then table - {key} else table[key := s], Some(ReplyFor(s, handled.value)))
  {
    hide Route, ReplyFor, KeyFor;
    var key := KeyFor(req);
    var (s, handled) := Route(server, Mirrored(table[key], req.authenticator), req.Caller(), req.Eap());
    assert handled.Ok? || handled.Err?;
    assert table[key := s] - {key} == table - {key};
  }

  // ---- Whole messages -----------------------------------------------------

  /**
   A datagram with an EAP-TLS packet, in reassemble mode, to any session of a table at rest: what it delivers is
   a message the server has just ended if and only if the last answer ends one and the session was in
   step when the flight began. It was if no answer before had parted them.
   */
  lemma DatagramDelivers(server: Server, settings: Settings, table: Table, req: Incoming)
    returns (m: nat, s': SessionView, record: Bytes)
    requires TableAtRest(table, settings) && settings.mode.Reassemble? && Parse(req.Eap()).Ok?
    requires !(Parse(req.Eap()).value.IsAck() && Subject(settings, table, req).supplicant.outbox != [])
    ensures var s0 := Subject(settings, table, req);
            var (t, handled) := Route(server, s0, req.Caller(), req.Eap());
            handled.Ok? && handled.value.action.ActChallenge? ==>
              && (t, handled) == DeliverRecord(s', record) && DeliveredSince(s0, t, m, record)
              && var (max, requests, answers) := (settings.maxMessageLen, t.server.requests, t.server.answers);
              && (Messages(answers) == Messages(answers[..m]) + [record]
                  <==> Completes(answers[|answers| - 1]) && InStep(max, requests[..m], answers[..m]))
              && (NothingParts(max, requests[..m], answers[..m], 0) ==> InStep(max, requests[..m], answers[..m]))
  {
    hide HandleSupplicantEap, Parse, DeliverRecord, MadeOf, BearsMore, Completes, Messages, InStep, NothingParts;
    var s0 := Subject(settings, table, req);
    SubjectIsSound(settings, table, req);
    m, s', record := MessageIsDelivered(server, s0, req.Caller(), req.Eap());
    var (t, handled) := Route(server, s0, req.Caller(), req.Eap());
    if handled.Ok? && handled.value.action.ActChallenge? {
      InStepAtLast(settings.maxMessageLen, t.server.requests[..m], t.server.answers[..m]);
    }
  }

  // ---- Key binding --------------------------------------------------------

  lemma {:induction false} NoAcceptNoKey(answers: seq<Option<Answer>>, key: AttrKey)
    requires forall i :: 0 <= i < |answers| && answers[i].Some? ==> answers[i].value.code != ACCESS_ACCEPT
    ensures LastKey(answers, key).None?
    decreases |answers|
  {
    if answers != [] {
      NoAcceptNoKey(answers[..|answers| - 1], key);
    }
  }

  /** The session as the reply is built from it. */
  function Concluded(server: Server, settings: Settings, table: Table, req: Incoming): SessionView {
    Route(server, Subject(settings, table, req), req.Caller(), req.Eap()).0
  }

  /** No fragment with M was answered by an Access-Accept. */
  predicate NoHastyAccept(leg: ServerLeg) {
    && Aligned(leg)
    && forall i :: 0 <= i < |leg.requests| && BearsMore(leg.requests[i]) && leg.answers[i].Some? ==>
         leg.answers[i].value.code != ACCESS_ACCEPT
  }

  /** The reply carries the key blobs of this answer. */
  predicate CarriesKeysOf(reply: Outgoing, answer: Answer) {
    reply.msMppeSendKey == answer.First(MPPE_SEND_KEY) && reply.msMppeRecvKey == answer.First(MPPE_RECV_KEY)
  }

  /**
   An Access-Accept built from this session: its server's came in as the last answer to a request bearing this
   authenticator, and its key blobs are those of that answer, except as `AcceptKeysAreBound` says.
   */
  predicate Bound(s: SessionView, reply: Outgoing, authenticator: Bytes) {
    var (leg, n) := (s.server, |s.server.answers|);
    && n == |leg.requests| > 0 && LastAnswerIs(leg, ACCESS_ACCEPT)
    && leg.requests[n - 1].authenticator == Some(authenticator)
    && var (answer, earlier) := (leg.answers[n - 1].value, leg.answers[..n - 1]);
    && (s.settings.mode.Passthrough? ==> CarriesKeysOf(reply, answer))
    && (NoHastyAccept(leg.(requests := leg.requests[..n - 1], answers := earlier)) ==> CarriesKeysOf(reply, answer))
    && (reply.msMppeSendKey == answer.First(MPPE_SEND_KEY)
        <==> answer.First(MPPE_SEND_KEY).Some? || LastKey(earlier, MPPE_SEND_KEY).None?)
    && (reply.msMppeRecvKey == answer.First(MPPE_RECV_KEY)
        <==> answer.First(MPPE_RECV_KEY).Some? || LastKey(earlier, MPPE_RECV_KEY).None?)
  }

  lemma LegIsBound(s: SessionView, reply: Outgoing, authenticator: Bytes)
    requires Faithful(s.server) && LastAnswerIs(s.server, ACCESS_ACCEPT)
    requires var n := |s.server.answers|;
             && n == |s.server.requests| && s.server.requests[n - 1].authenticator == Some(authenticator)
             && Unread(s.settings.mode, s.server, n - 1)
    requires reply.msMppeSendKey == s.server.msMppeSendKey && reply.msMppeRecvKey == s.server.msMppeRecvKey
    ensures Bound(s, reply, authenticator)
  {
    hide Unread, Chained, NoHastyAccept;
    EarlierAcceptsAreHasty(s);
  }

  lemma SubjectIsUnread(settings: Settings, table: Table, req: Incoming)
    requires TableAtRest(table, settings)
    ensures var s := Subject(settings, table, req);
            s.result.None? && Unread(s.settings.mode, s.server, |s.server.answers|) && s.settings == settings
  {
    hide BearsMore;
    SubjectIsSound(settings, table, req);
  }

  /** Where no fragment with M was accepted, and in passthrough anyway, no answer but the last was an Access-Accept. */
  lemma EarlierAcceptsAreHasty(s: SessionView)
    requires s.server.answers != [] && Unread(s.settings.mode, s.server, |s.server.answers| - 1)
    ensures var n := |s.server.answers|;
            var leg := s.server.(requests := s.server.requests[..n - 1], answers := s.server.answers[..n - 1]);
            (s.settings.mode.Passthrough? || NoHastyAccept(leg)) ==>
              LastKey(leg.answers, MPPE_SEND_KEY).None? && LastKey(leg.answers, MPPE_RECV_KEY).None?
  {
    hide BearsMore;
    var n := |s.server.answers|;
    var leg := s.server.(requests := s.server.requests[..n - 1], answers := s.server.answers[..n - 1]);
    if s.settings.mode.Passthrough? || NoHastyAccept(leg) {
      forall i | 0 <= i < n - 1 && leg.answers[i].Some? ensures leg.answers[i].value.code != ACCESS_ACCEPT {
        var answer, request := s.server.answers[i], s.server.requests[i];
        assert leg.answers[i] == answer && leg.requests[i] == request;
        assert answer.value.code == ACCESS_ACCEPT ==> Ends(answer);
      }
      NoAcceptNoKey(leg.answers, MPPE_SEND_KEY);
      NoAcceptNoKey(leg.answers, MPPE_RECV_KEY);
    }
  }

  /**
   Key binding, against any server. An Access-Accept goes out only in the datagram in which the server's
   came in, as the last answer to a request bearing the authenticator of the datagram being
   answered. In passthrough it carries the blobs of that very answer. So it does in reassemble mode,
   unless a fragment with M of the same session was answered by an Access-Accept; any one blob can
   then be that one's instead, which it is if and only if that one had it and the last answer has none.
   */
  lemma AcceptKeysAreBound(server: Server, settings: Settings, table: Table, req: Incoming, token: Bytes)
    requires TableAtRest(table, settings)
    ensures var reply := HandleDatagram(server, settings, table, req, token).1;
            reply.Some? && reply.value.code == ACCESS_ACCEPT ==>
              Bound(Concluded(server, settings, table, req), reply.value, req.authenticator)
  {
    hide Route, TableAtRest, AtRest, Faithful, Unread, FirstKey, StateKey, Bound;
    if !req.Dropped() {
      var s0 := Subject(settings, table, req);
      SubjectIsSound(settings, table, req);
      SubjectIsUnread(settings, table, req);
      EveryRouteIsSound(server, s0, req.Caller(), req.Eap());
      OutlivesTheUnread(server, s0, req.Caller(), req.Eap());
      var s := Concluded(server, settings, table, req);
      if s.result == Some(Accepted) {
        LegIsBound(s, HandleDatagram(server, settings, table, req, token).1.value, req.authenticator);
      }
    }
  }

  // ---- Whole runs ---------------------------------------------------------

  /** What happens to the proxy: a datagram, with whatever server behind it, or the clock sweeping sessions out. */
  datatype Event =
    | Arrival(server: Server, req: Incoming, token: Bytes)
    | Reap(overdue: set<string>)

  function ReapIdle(table: Table, overdue: set<string>): Table {
    table - (set key | key in overdue && key in table && table[key].result.None?)
  }

  function After(settings: Settings, table: Table, event: Event): Table {
    match event
    case Arrival(server, req, token) => HandleDatagram(server, settings, table, req, token).0
    case Reap(overdue) => ReapIdle(table, overdue)
  }

  function Serve(settings: Settings, table: Table, events: seq<Event>): Table
    decreases |events|
  {
    if events == [] then table else Serve(settings, After(settings, table, events[0]), events[1..])
  }

  /** Every token was fresh when it was drawn. */
  predicate FreshTokens(settings: Settings, table: Table, events: seq<Event>)
    decreases |events|
  {
    events == [] ||
    (&& (events[0].Arrival? ==> Fresh(table, events[0].req, events[0].token))
     && FreshTokens(settings, After(settings, table, events[0]), events[1..]))
  }

  lemma EventKeepsTable(settings: Settings, table: Table, event: Event)
    requires TableAtRest(table, settings)
    requires event.Arrival? ==> Fresh(table, event.req, event.token)
    ensures TableAtRest(After(settings, table, event), settings)
    ensures forall key :: key in table
              && (if event.Arrival? then key != KeyFor(event.req) else key !in event.overdue)
              ==> key in After(settings, table, event) && After(settings, table, event)[key] == table[key]
  {
    hide AtRest, HandleDatagram, KeyFor;
    if event.Arrival? {
      DatagramKeepsTable(event.server, settings, table, event.req, event.token);
    }
  }

  /**
   In any run from the empty table, whatever the NAS sends and whatever the servers answer, between any
   two datagrams: every session stands under its own key, under that of its State if it has one; none
   has a result; and each one's conversation with the server is chained by State and truly
   remembered.
   */
  lemma {:induction false} TableIsAlwaysAtRest(settings: Settings, table: Table, events: seq<Event>)
    requires TableAtRest(table, settings) && FreshTokens(settings, table, events)
    ensures TableAtRest(Serve(settings, table, events), settings)
    decreases |events|
  {
    if events != [] {
      EventKeepsTable(settings, table, events[0]);
      TableIsAlwaysAtRest(settings, After(settings, table, events[0]), events[1..]);
    }
  }

  /** Events that neither address this key nor sweep it out. */
  predicate Elsewhere(event: Event, key: string) {
    match event
    case Arrival(_, req, _) => KeyFor(req) != key
    case Reap(overdue) => key !in overdue
  }

  /** Isolation: whatever goes on elsewhere, for however long, a session is left exactly as it was. */
  lemma {:induction false} SessionsAreIsolated(settings: Settings, table: Table, events: seq<Event>, key: string)
    requires TableAtRest(table, settings) && FreshTokens(settings, table, events)
    requires key in table && forall e :: e in events ==> Elsewhere(e, key)
    ensures key in Serve(settings, table, events) && Serve(settings, table, events)[key] == table[key]
    decreases |events|
  {
    if events != [] {
      assert Elsewhere(events[0], key);
      EventKeepsTable(settings, table, events[0]);
      SessionsAreIsolated(settings, After(settings, table, events[0]), events[1..], key);
    }
  }

  /**
   Correlation: a challenge carries a State; however many other authentications are served in
   between, the datagram that quotes it finds the session exactly as the challenge left it.
   */
  lemma ConversationResumes(server: Server, settings: Settings, table: Table, req: Incoming, token: Bytes,
                            events: seq<Event>, next: Incoming)
    requires TableAtRest(table, settings) && Fresh(table, req, token)
    requires var (table', reply) := HandleDatagram(server, settings, table, req, token);
             && reply.Some? && reply.value.code == ACCESS_CHALLENGE
             && FreshTokens(settings, table', events) && next.state == reply.value.state
             && forall e :: e in events ==> Elsewhere(e, KeyFor(next))
    ensures var table' := HandleDatagram(server, settings, table, req, token).0;
            && KeyFor(next) in table'
            && SessionAt(settings, Serve(settings, table', events), KeyFor(next)) == table'[KeyFor(next)]
  {
    hide AtRest;
    var table' := HandleDatagram(server, settings, table, req, token).0;
    DatagramKeepsTable(server, settings, table, req, token);
    ChallengeCanBeAnswered(server, settings, table, req, token);
    SessionsAreIsolated(settings, table', events, KeyFor(next));
  }
}
