/**
 An instance where a key goes out that is not bound to the datagram it answers: a server that accepts
 between two chunks of a record, and again, without a key, for the poll that follows.
 */
module HastyKeys {
  import opened Prelude
  import opened Octets
  import opened EapTls
  import opened Reassembly
  import opened Radius
  import opened SessionState
  import opened MediatorSpec
  import opened DownstreamSpec
  import opened DownstreamLaws

  function HastyAnswer(n: nat): Answer {
    if n == 1 then Answer(ACCESS_ACCEPT, map[MPPE_SEND_KEY := [[7]]])
    else if n == 2 then Answer(ACCESS_CHALLENGE, map[])
    else Answer(ACCESS_ACCEPT, map[])
  }

  const HASTY := Server(requests => Some(HastyAnswer(|requests|)), 10)
  const HASTY_SETTINGS := Settings(Reassemble, 1, 1000, 4096)

  function AliceDatagram(authenticator: Bytes, state: Option<Bytes>, eap: Bytes): Incoming {
    Incoming(ACCESS_REQUEST, authenticator, "nas", 1812, "alice", Some("00-11-22-33-44-55"), None, state,
             SplitEap(eap), true)
  }

  /** A record of two octets, which the proxy cuts into two chunks. */
  function FirstDatagram(authenticator: Bytes): Incoming {
    AliceDatagram(authenticator, None, Encode(RESPONSE, 5, [1, 2], false, None, false))
  }

  /** An ACK, which becomes a poll. */
  function SecondDatagram(authenticator: Bytes, state: Bytes): Incoming {
    AliceDatagram(authenticator, Some(state), BuildAck(RESPONSE, 6))
  }

  lemma DatagramFacts(authenticator: Bytes, state: Option<Bytes>, eap: Bytes)
    ensures var req := AliceDatagram(authenticator, state, eap); !req.Dropped() && req.Eap() == eap
  {
    ChunksCutExactly(eap, MAX_VALUE);
  }

  /** The session after the first datagram. */
  predicate AfterFirst(s: SessionView, one: Bytes) {
    && s.settings == HASTY_SETTINGS && s.result.None? && s.supplicant.outbox == []
    && s.server.msMppeSendKey == Some([7])
    && s.server.answers == [Some(HastyAnswer(1)), Some(HastyAnswer(2))]
    && |s.server.requests| == 2 && s.server.requests[0].authenticator == Some(one)
  }

  lemma RecordIsSent(s: SessionView, caller: Caller)
    requires s.settings == HASTY_SETTINGS && s.result.None? && s.supplicant.outbox == []
    requires s.server == NEW_SERVER_LEG.(lastApAuthenticator := s.server.lastApAuthenticator)
    requires s.server.lastApAuthenticator.Some?
    ensures var (t, handled) := ForwardRecordUpstream(HASTY, s, caller, [1, 2]);
            handled == Ok(NOTHING_TO_SEND) && AfterFirst(t, s.server.lastApAuthenticator.value)
  {
    hide Encode;
    assert Chunks([1, 2], 1) == [[1], [2]] by {
      assert [1, 2][..1] == [1] && [1, 2][1..] == [2];
      assert Chunks([2], 1) == [[2]];
    }
    var chunks := Chunks([1, 2], 1);
    var (s1, first) := SendChunk(HASTY, s, caller, 2, chunks, 0);
    assert first.Ok? && s1.server.msMppeSendKey == Some([7]) && s1.server.answers == [Some(HastyAnswer(1))];
    var (s2, second) := SendChunk(HASTY, s1, caller, 2, chunks, 1);
    assert second == Ok(Reply(ACCESS_CHALLENGE, None, None)) && |s2.server.requests| == 2;
    assert SendChunks(HASTY, s1, caller, 2, chunks, 1) == (s2, second);
    assert SendChunks(HASTY, s, caller, 2, chunks, 0) == (s2, second);
  }

  lemma FirstIsHandled(s: SessionView, caller: Caller)
    requires s.settings == HASTY_SETTINGS && s.result.None? && s.supplicant.outbox == [] && s.upReasm == EMPTY
    requires s.server == NEW_SERVER_LEG.(lastApAuthenticator := s.server.lastApAuthenticator)
    requires s.server.lastApAuthenticator.Some?
    ensures var eap := Encode(RESPONSE, 5, [1, 2], false, None, false);
            var (t, handled) := Route(HASTY, s, caller, eap);
            handled == Ok(NOTHING_TO_SEND) && AfterFirst(t, s.server.lastApAuthenticator.value)
  {
    hide Encode, Parse, ForwardRecordUpstream;
    ParseBuilt(RESPONSE, 5, [1, 2], false, None, false);
    var p := BuiltPacket(RESPONSE, 5, [1, 2], false, None, false);
    var s1 := NotePacket(s, p);
    var r := Ingest(4096, s1.upReasm, p).0;
    assert [] + [1, 2] == [1, 2];
    RecordIsSent(s1.(upReasm := r, up := s1.up.(bytesReassembled := s1.up.bytesReassembled + 2)), caller);
  }

  lemma SecondIsHandled(s: SessionView, caller: Caller, one: Bytes, other: Bytes)
    requires AfterFirst(s, one) && s.server.lastApAuthenticator == Some(other)
    ensures var (t, handled) := Route(HASTY, s, caller, BuildAck(RESPONSE, 6));
            && handled.Ok? && handled.value.action.ActAccept? && t.result == Some(Accepted)
            && t.server.msMppeSendKey == Some([7])
            && t.server.answers == [Some(HastyAnswer(1)), Some(HastyAnswer(2)), Some(HastyAnswer(3))]
            && |t.server.requests| == 3
            && t.server.requests[0].authenticator == Some(one) && t.server.requests[2].authenticator == Some(other)
  {
    hide Parse;
    ParseBuilt(RESPONSE, 6, [], false, None, false);
  }

  /** From the empty table, the first datagram files the session under the State it mints. */
  lemma FirstIsServed(one: Bytes, token: Bytes)
    ensures var (table, reply) := HandleDatagram(HASTY, HASTY_SETTINGS, map[], FirstDatagram(one), token);
            && reply.Some? && reply.value.code == ACCESS_CHALLENGE && reply.value.state == Some(token)
            && StateKey(token) in table && table[StateKey(token)].downstreamState == Some(token)
            && AfterFirst(table[StateKey(token)], one)
  {
    hide Route, FirstKey, StateKey, SplitEap, Encode;
    var req := FirstDatagram(one);
    DatagramFacts(one, None, Encode(RESPONSE, 5, [1, 2], false, None, false));
    FirstIsHandled(Mirrored(NewSession(KeyFor(req), HASTY_SETTINGS), one), req.Caller());
  }

  /**
   The key of the Access-Accept sent between two chunks stays in the session and goes out in the reply to a
   later datagram, whose own Access-Accept brought none; it came for a request bearing the
   authenticator of the first datagram, not of the one answered.
   */
  lemma HastyKeyGoesOutLate(one: Bytes, other: Bytes, token: Bytes, token2: Bytes)
    ensures var (table, first) := HandleDatagram(HASTY, HASTY_SETTINGS, map[], FirstDatagram(one), token);
            var req := SecondDatagram(other, token);
            var second := HandleDatagram(HASTY, HASTY_SETTINGS, table, req, token2).1;
            && first.Some? && first.value.state == Some(token)
            && second.Some? && second.value.code == ACCESS_ACCEPT && second.value.msMppeSendKey == Some([7])
            && var leg := Concluded(HASTY, HASTY_SETTINGS, table, req).server;
            && leg.answers == [Some(HastyAnswer(1)), Some(HastyAnswer(2)), Some(HastyAnswer(3))]
            && |leg.requests| == 3
            && leg.requests[0].authenticator == Some(one) && leg.requests[2].authenticator == Some(other)
  {
    hide Route, FirstKey, StateKey, SplitEap, HandleDatagram;
    FirstIsServed(one, token);
    var table := HandleDatagram(HASTY, HASTY_SETTINGS, map[], FirstDatagram(one), token).0;
    var req := SecondDatagram(other, token);
    DatagramFacts(other, Some(token), BuildAck(RESPONSE, 6));
    var s := table[StateKey(token)];
    SecondIsHandled(Mirrored(s, other), req.Caller(), one, other);
    KnownSessionIsServed(HASTY, HASTY_SETTINGS, table, req, token2);
  }
}
