/**
 Instances, run datagram by datagram from the empty table, of what an auth server that sends empty EAP-TLS
 packets, or a supplicant that does not wait, does to the octets on their way down.
 */
module Instances {
  import opened Prelude
  import opened Octets
  import opened EapTls
  import opened Reassembly
  import opened Radius
  import opened SessionState
  import opened MediatorSpec
  import opened DownstreamSpec
  import opened DownstreamLaws
  import opened KeyLaws
  import opened DrainLaws
  import opened MessageLaws
  import opened HastyKeys

  /** An EAP-TLS Request the server sends, with L and a total if it declares one. */
  datatype Words = Words(id: byte, data: Bytes, more: bool, total: Option<nat>)
  type Line = words: Words | |words.data| <= 65000 && (words.total.Some? ==> words.total.value < U32_LIMIT)
    witness Words(0, [], false, None)

  function Spoken(line: Line): Answer {
    Answer(ACCESS_CHALLENGE, map[Plain(EAP_MESSAGE) := [Encode(REQUEST, line.id, line.data, line.more, line.total, false)]])
  }

  /** A server that says these lines one after another, whatever it is asked, and then no more. */
  function Scripted(script: seq<Line>): Server {
    Server(requests => if 0 < |requests| <= |script| then Some(Spoken(script[|requests| - 1])) else None, |script|)
  }

  /** The session after the first k lines. */
  predicate Stands(s: SessionView, settings: Settings, script: seq<Line>, k: nat, down: Reasm,
                   outbox: seq<(nat, Bytes)>)
  {
    && s.settings == settings && s.result.None? && s.supplicant.outbox == outbox && s.upReasm == EMPTY
    && k <= |script| && |s.server.requests| == k
    && s.server.answers == seq(k, i requires 0 <= i < k => Some(Spoken(script[i])))
    && s.downReasm == down
  }

  lemma LineIsHeard(script: seq<Line>, leg: ServerLeg, caller: Caller, eap: Bytes)
    requires |leg.requests| < |script|
    ensures var line := script[|leg.requests|];
            var (leg', reply) := Exchange(Scripted(script), leg, caller, eap);
            && leg'.answers == leg.answers + [Some(Spoken(line))]
            && reply == Some(ReplyOf(Spoken(line)))
            && reply.value.code == ACCESS_CHALLENGE && reply.value.eap.Some?
            && Parse(reply.value.eap.value) == Ok(BuiltPacket(REQUEST, line.id, line.data, line.more, line.total, false))
  {
    hide Encode, Parse;
    var line := script[|leg.requests|];
    ParseBuilt(REQUEST, line.id, line.data, line.more, line.total, false);
    LoneValue(Spoken(line).attrs, Encode(REQUEST, line.id, line.data, line.more, line.total, false));
  }

  /** How a record of one octet or two goes out in fragments of this size: the first, and the rest of the queue. */
  function FirstOut(id: byte, record: Bytes, size: nat): EapTlsPacket
    requires record != [] && size >= 1
  {
    if |record| <= size then BuiltPacket(REQUEST, id, record, false, Some(|record|), false)
    else BuiltPacket(REQUEST, id, record[..1], true, Some(|record|), false)
  }

  function StillQueued(record: Bytes, size: nat): seq<(nat, Bytes)>
    requires record != []
  {
    if |record| <= size then [] else [(1, record[1..])]
  }

  lemma GoesOut(s: SessionView, record: Bytes)
    requires 1 <= |record| <= 2 && 1 <= s.settings.downstreamFragmentSize <= 65000
    ensures var (t, handled) := DeliverRecord(s, record);
            && Challenges(handled, FirstOut(NextId(s.supplicant.nextId), record, s.settings.downstreamFragmentSize))
            && t == s.(supplicant := t.supplicant, down := t.down)
            && t.supplicant.outbox == StillQueued(record, s.settings.downstreamFragmentSize)
  {
    hide Encode, Parse;
    ParseBuilt(REQUEST, NextId(s.supplicant.nextId), record, false, Some(|record|), false);
    if |record| == 2 && s.settings.downstreamFragmentSize == 1 {
      ParseBuilt(REQUEST, NextId(s.supplicant.nextId), record[..1], true, Some(2), false);
      assert Chunks(record[1..], 1) == [record[1..]];
      assert Chunks(record, 1) == [record[..1], record[1..]];
    } else {
      assert Chunks(record, s.settings.downstreamFragmentSize) == [record];
    }
  }

  /** The outcome is a challenge with this packet. */
  predicate Challenges(handled: Handled, pkt: EapTlsPacket) {
    && handled.Ok? && handled.value.action.ActChallenge? && handled.value.eap.Some?
    && handled.value.eap.value != [] && Parse(handled.value.eap.value) == Ok(pkt)
  }

  /** The reply is an Access-Challenge with this packet. */
  predicate Shows(reply: Option<Outgoing>, pkt: EapTlsPacket) {
    && reply.Some? && reply.value.code == ACCESS_CHALLENGE
    && Parse(Join(reply.value.eapMessages)) == Ok(pkt)
  }

  // ---- One packet ---------------------------------------------------------

  lemma PollIsAnswered(script: seq<Line>, s: SessionView, settings: Settings, k: nat, down: Reasm,
                       caller: Caller, id: byte)
    returns (s': SessionView, reply: Reply)
    requires Stands(s, settings, script, k, down, []) && k < |script| && settings.mode.Reassemble?
    ensures Stands(s', settings, script, k + 1, down, []) && s'.supplicant.nextId == id
    ensures s'.key == s.key && s'.downstreamState == s.downstreamState
    ensures reply.code == ACCESS_CHALLENGE && reply.eap.Some?
    ensures Parse(reply.eap.value)
         == Ok(BuiltPacket(REQUEST, script[k].id, script[k].data, script[k].more, script[k].total, false))
    ensures HandleSupplicantEap(Scripted(script), s, caller, BuildAck(RESPONSE, id))
         == HandleUpstreamReply(Scripted(script), s', caller, reply)
  {
    hide Encode, Parse, Exchange, HandleUpstreamReply, Spoken;
    ParseBuilt(RESPONSE, id, [], false, None, false);
    var s1 := NotePacket(s, BuiltPacket(RESPONSE, id, [], false, None, false));
    var (leg, up) := PickUpstreamId(s1.server);
    LineIsHeard(script, leg, caller, BuildAck(RESPONSE, up));
    var (leg', answer) := Exchange(Scripted(script), leg, caller, BuildAck(RESPONSE, up));
    s', reply := s1.(server := leg'), answer.value;
  }

  /** The line as the parser gives it. */
  function Packet(line: Line): EapTlsPacket {
    BuiltPacket(REQUEST, line.id, line.data, line.more, line.total, false)
  }

  /** Sizes within their limits. */
  predicate Sized(settings: Settings) {
    settings.mode.Reassemble? && 1 <= settings.downstreamFragmentSize <= 65000 && settings.maxMessageLen >= 2
  }

  /** A poll that brings the end of a message. */
  lemma PollBringsEnd(script: seq<Line>, s: SessionView, settings: Settings, k: nat, down: Reasm,
                      caller: Caller, id: byte)
    requires Stands(s, settings, script, k, down, []) && k < |script| && Sized(settings)
    requires script[k].total.None? && script[k].data != [] && !script[k].more && |Buffered(down) + script[k].data| <= 2
    ensures var (t, handled) := HandleSupplicantEap(Scripted(script), s, caller, BuildAck(RESPONSE, id));
            var record, size := Buffered(down) + script[k].data, settings.downstreamFragmentSize;
            && Challenges(handled, FirstOut(NextId(id), record, size))
            && Stands(t, settings, script, k + 1, Ingest(settings.maxMessageLen, down, Packet(script[k])).0,
                      StillQueued(record, size))
  {
    hide HandleSupplicantEap, Parse, Encode, Challenges, DeliverRecord;
    var s', reply := PollIsAnswered(script, s, settings, k, down, caller, id);
    var record := Buffered(down) + script[k].data;
    var s2 := IngestDown(s', Packet(script[k])).0;
    assert [] + script[k].data == script[k].data;
    assert HandleUpstreamReply(Scripted(script), s', caller, reply) == DeliverRecord(s2, record);
    GoesOut(s2, record);
  }

  /** A poll answered by an empty EAP-TLS packet. */
  lemma PollBringsNothing(script: seq<Line>, s: SessionView, settings: Settings, k: nat, down: Reasm,
                          caller: Caller, id: byte)
    requires Stands(s, settings, script, k, down, []) && k < |script| && Sized(settings)
    requires script[k].total.None? && script[k].data == [] && !script[k].more && 1 <= |down.buffer| <= 2
    ensures var (t, handled) := HandleSupplicantEap(Scripted(script), s, caller, BuildAck(RESPONSE, id));
            var record, size := down.buffer, settings.downstreamFragmentSize;
            && Challenges(handled, FirstOut(NextId(id), record, size))
            && Stands(t, settings, script, k + 1, down, StillQueued(record, size))
  {
    hide HandleSupplicantEap, Parse, Encode, Challenges, DeliverRecord, HandleUpstreamReply;
    var s', reply := PollIsAnswered(script, s, settings, k, down, caller, id);
    EmptyPacketRepeatsBuffer(Scripted(script), s', caller, reply);
    GoesOut(s', down.buffer);
  }

  /** A poll answered by a fragment with M, and the ACK for that by an empty EAP-TLS packet. */
  lemma PollIsCutShort(script: seq<Line>, s: SessionView, settings: Settings, k: nat, down: Reasm,
                       caller: Caller, id: byte)
    requires Stands(s, settings, script, k, down, []) && k + 1 < |script| && Sized(settings)
    requires script[k].total.None? && script[k].data != [] && script[k].more && |Buffered(down) + script[k].data| <= 2
    requires script[k + 1].total.None? && script[k + 1].data == [] && !script[k + 1].more
    ensures var (t, handled) := HandleSupplicantEap(Scripted(script), s, caller, BuildAck(RESPONSE, id));
            var record, size := Buffered(down) + script[k].data, settings.downstreamFragmentSize;
            && Challenges(handled, FirstOut(NextId(id), record, size))
            && Stands(t, settings, script, k + 2, Ingest(settings.maxMessageLen, down, Packet(script[k])).0,
                      StillQueued(record, size))
  {
    hide HandleSupplicantEap, Parse, Encode, Challenges, DeliverRecord, Exchange, Drain, AckUpstream;
    var s', reply := PollIsAnswered(script, s, settings, k, down, caller, id);
    var record := Buffered(down) + script[k].data;
    var s2 := IngestDown(s', Packet(script[k])).0;
    assert [] + script[k].data == script[k].data;
    var s3 := PullBringsNothing(script, s2, settings, k + 1, s2.downReasm, caller);
    assert HandleUpstreamReply(Scripted(script), s', caller, reply) == DeliverRecord(s3, record);
    GoesOut(s3, record);
  }

  /** A poll answered by the beginning of a message that declares too much. */
  lemma PollIsRefused(script: seq<Line>, s: SessionView, settings: Settings, k: nat, down: Reasm,
                      caller: Caller, id: byte)
    requires Stands(s, settings, script, k, down, []) && k < |script| && Sized(settings)
    requires !down.state.InProgress? && script[k].total.Some? && script[k].total.value > settings.maxMessageLen
    ensures var (t, handled) := HandleSupplicantEap(Scripted(script), s, caller, BuildAck(RESPONSE, id));
            && handled == Err(DeclaredLengthExceedsMax) && t.downstreamState == s.downstreamState
            && Stands(t, settings, script, k + 1, Reasm(Idle, [], script[k].total, 0), [])
  {
    hide HandleSupplicantEap, Parse, Encode;
    var s', reply := PollIsAnswered(script, s, settings, k, down, caller, id);
  }

  lemma PullBringsNothing(script: seq<Line>, s: SessionView, settings: Settings, k: nat, down: Reasm, caller: Caller)
    returns (t: SessionView)
    requires Stands(s, settings, script, k, down, []) && k < |script|
    requires script[k].total.None? && script[k].data == [] && !script[k].more
    ensures Drain(Scripted(script), s, caller, true) == (t, Record(down.buffer))
    ensures Stands(t, settings, script, k + 1, down, []) && t.supplicant == s.supplicant
  {
    hide Parse, Encode, Exchange, Spoken;
    var (leg, up) := PickUpstreamId(s.server);
    LineIsHeard(script, leg, caller, BuildAck(RESPONSE, up));
    var (s1, reply) := AckUpstream(Scripted(script), s, caller);
    assert TakeFragment(s1, reply.value) == (s1, Pulled(false));
    DrainNothing(Scripted(script), s1, caller);
    t := s1;
  }

  // ---- One datagram -------------------------------------------------------

  lemma ChallengeShows(s: SessionView, o: Outcome, pkt: EapTlsPacket)
    requires Challenges(Ok(o), pkt)
    ensures Shows(Some(ReplyFor(s, o)), pkt) && ReplyFor(s, o).state == s.downstreamState
  {
    hide Parse;
    ChunksCutExactly(o.eap.value, MAX_VALUE);
  }

  /** A datagram without State, answered: its session, new or not, gets a State. */
  lemma FirstServed(server: Server, settings: Settings, table: Table, eap: Bytes, token: Bytes, pkt: EapTlsPacket)
    returns (s: SessionView)
    requires |eap| >= 5 && eap[4] == EAP_TYPE_TLS
    requires var req := AliceDatagram([], None, eap);
             var s0 := SessionAt(settings, table, KeyFor(req));
             var (t, handled) := HandleSupplicantEap(server, Mirrored(s0, []), req.Caller(), eap);
             s0.downstreamState.None? && Challenges(handled, pkt) && t.result.None?
    ensures var req := AliceDatagram([], None, eap);
            var (table', reply) := HandleDatagram(server, settings, table, req, token);
            && Shows(reply, pkt) && reply.value.state == Some(token)
            && StateKey(token) in table' && table'[StateKey(token)] == s && s.downstreamState == Some(token)
            && var s0 := Mirrored(SessionAt(settings, table, KeyFor(req)), []);
            s == HandleSupplicantEap(server, s0, req.Caller(), eap).0.(key := s.key, downstreamState := s.downstreamState)
  {
    hide HandleSupplicantEap, Parse, SplitEap, StateKey, FirstKey, ReplyFor, Shows, SessionAt;
    var req := AliceDatagram([], None, eap);
    DatagramFacts([], None, eap);
    var s0 := Mirrored(SessionAt(settings, table, KeyFor(req)), []);
    var (t, handled) := HandleSupplicantEap(server, s0, req.Caller(), eap);
    s := t.(key := StateKey(token), downstreamState := Some(token));
    StateKeysAreApart(token, [], req);
    ChallengeShows(t.(downstreamState := Some(token)), handled.value, pkt);
  }

  /** One that raises: its session stays under the stand-in key as the exception left it. */
  lemma FirstRefused(server: Server, settings: Settings, eap: Bytes, token: Bytes)
    requires |eap| >= 5 && eap[4] == EAP_TYPE_TLS
    requires var req := AliceDatagram([], None, eap);
             HandleSupplicantEap(server, Mirrored(NewSession(KeyFor(req), settings), []), req.Caller(), eap).1.Err?
    ensures var req := AliceDatagram([], None, eap);
            var s0 := Mirrored(NewSession(KeyFor(req), settings), []);
            HandleDatagram(server, settings, map[], req, token)
            == (map[KeyFor(req) := HandleSupplicantEap(server, s0, req.Caller(), eap).0], None)
  {
    hide HandleSupplicantEap, Parse, SplitEap, FirstKey;
    DatagramFacts([], None, eap);
  }

  lemma NextServed(server: Server, settings: Settings, table: Table, eap: Bytes, token: Bytes, pkt: EapTlsPacket)
    requires |eap| >= 5 && eap[4] == EAP_TYPE_TLS
    requires StateKey(token) in table && table[StateKey(token)].downstreamState == Some(token)
    requires var req := AliceDatagram([], Some(token), eap);
             var s0 := Mirrored(table[StateKey(token)], []);
             var (t, handled) := HandleSupplicantEap(server, s0, req.Caller(), eap);
             Challenges(handled, pkt) && t.result.None?
    ensures var req := AliceDatagram([], Some(token), eap);
            var (table', reply) := HandleDatagram(server, settings, table, req, token);
            && Shows(reply, pkt) && reply.value.state == Some(token)
            && table' == table[StateKey(token) :=
                 HandleSupplicantEap(server, Mirrored(table[StateKey(token)], []), req.Caller(), eap).0]
  {
    hide HandleSupplicantEap, Parse, SplitEap, StateKey, HandleDatagram, ReplyFor, Shows;
    var req := AliceDatagram([], Some(token), eap);
    DatagramFacts([], Some(token), eap);
    KnownSessionIsServed(server, settings, table, req, token);
    var (t, handled) := HandleSupplicantEap(server, Mirrored(table[StateKey(token)], []), req.Caller(), eap);
    ChallengeShows(t, handled.value, pkt);
  }

  // ---- The instances ------------------------------------------------------

  function Poll(state: Option<Bytes>, id: byte): Incoming {
    AliceDatagram([], state, BuildAck(RESPONSE, id))
  }

  lemma AckIsTls(id: byte)
    ensures |BuildAck(RESPONSE, id)| >= 5 && BuildAck(RESPONSE, id)[4] == EAP_TYPE_TLS
  {
  }

  const CUT_SHORT := [Words(1, [7], true, None), Words(2, [], false, None), Words(3, [8], false, None)]
  const SETTINGS := Settings(Reassemble, 1000, 1000, 4096)

  /**
   The server sends a fragment with M and then an empty packet: part of a message is handed to the supplicant
   as if it were the whole.
   */
  lemma TruncatedFlightIsDelivered(token: Bytes) returns (s: SessionView)
    ensures var (table, reply) := HandleDatagram(Scripted(CUT_SHORT), SETTINGS, map[], Poll(None, 5), token);
            && Shows(reply, BuiltPacket(REQUEST, 6, [7], false, Some(1), false)) && reply.value.state == Some(token)
            && StateKey(token) in table && table[StateKey(token)] == s && s.downstreamState == Some(token)
            && Stands(s, SETTINGS, CUT_SHORT, 2, Reasm(InProgress, [7], None, 1), [])
  {
    hide HandleSupplicantEap, HandleDatagram, Parse, BuildAck, Challenges, Shows, StateKey, FirstKey, Scripted;
    var req := Poll(None, 5);
    AckIsTls(5);
    var s0 := Mirrored(NewSession(KeyFor(req), SETTINGS), []);
    PollIsCutShort(CUT_SHORT, s0, SETTINGS, 0, EMPTY, req.Caller(), 5);
    assert [] + [7] == [7];
    s := FirstServed(Scripted(CUT_SHORT), SETTINGS, map[], BuildAck(RESPONSE, 5), token,
                     BuiltPacket(REQUEST, 6, [7], false, Some(1), false));
  }

  /**
   Then it sends a fragment without M: the supplicant gets it behind the octet it has been given already.
   */
  lemma StaleOctetsGoOutInFront(token: Bytes)
    ensures var (table, first) := HandleDatagram(Scripted(CUT_SHORT), SETTINGS, map[], Poll(None, 5), token);
            var (table', second) := HandleDatagram(Scripted(CUT_SHORT), SETTINGS, table, Poll(Some(token), 6), token);
            && Shows(first, BuiltPacket(REQUEST, 6, [7], false, Some(1), false)) && first.value.state == Some(token)
            && Shows(second, BuiltPacket(REQUEST, 7, [7, 8], false, Some(2), false))
            && StateKey(token) in table' && |table'[StateKey(token)].server.requests| == 3
  {
    hide HandleSupplicantEap, HandleDatagram, Parse, BuildAck, Challenges, Shows, StateKey, Scripted;
    var s := TruncatedFlightIsDelivered(token);
    var table := HandleDatagram(Scripted(CUT_SHORT), SETTINGS, map[], Poll(None, 5), token).0;
    var req := Poll(Some(token), 6);
    AckIsTls(6);
    PollBringsEnd(CUT_SHORT, Mirrored(s, []), SETTINGS, 2, s.downReasm, req.Caller(), 6);
    assert [7] + [8] == [7, 8];
    NextServed(Scripted(CUT_SHORT), SETTINGS, table, BuildAck(RESPONSE, 6), token,
               BuiltPacket(REQUEST, 7, [7, 8], false, Some(2), false));
  }

  const SAID_ONCE := [Words(1, [7], false, None), Words(2, [], false, None)]

  /** The server sends a message and then an empty packet: the supplicant that polls twice gets the message twice. */
  lemma OldRecordGoesOutAgain(token: Bytes)
    ensures var (table, first) := HandleDatagram(Scripted(SAID_ONCE), SETTINGS, map[], Poll(None, 5), token);
            var (table', second) := HandleDatagram(Scripted(SAID_ONCE), SETTINGS, table, Poll(Some(token), 6), token);
            && Shows(first, BuiltPacket(REQUEST, 6, [7], false, Some(1), false)) && first.value.state == Some(token)
            && Shows(second, BuiltPacket(REQUEST, 7, [7], false, Some(1), false))
            && StateKey(token) in table' && |table'[StateKey(token)].server.requests| == 2
  {
    hide HandleSupplicantEap, HandleDatagram, Parse, BuildAck, Challenges, Shows, StateKey, FirstKey, Scripted;
    var req := Poll(None, 5);
    AckIsTls(5);
    var s0 := Mirrored(NewSession(KeyFor(req), SETTINGS), []);
    PollBringsEnd(SAID_ONCE, s0, SETTINGS, 0, EMPTY, req.Caller(), 5);
    assert [] + [7] == [7];
    var s := FirstServed(Scripted(SAID_ONCE), SETTINGS, map[], BuildAck(RESPONSE, 5), token,
                         BuiltPacket(REQUEST, 6, [7], false, Some(1), false));
    var table := HandleDatagram(Scripted(SAID_ONCE), SETTINGS, map[], req, token).0;
    AckIsTls(6);
    PollBringsNothing(SAID_ONCE, Mirrored(s, []), SETTINGS, 1, s.downReasm, Poll(Some(token), 6).Caller(), 6);
    NextServed(Scripted(SAID_ONCE), SETTINGS, table, BuildAck(RESPONSE, 6), token,
               BuiltPacket(REQUEST, 7, [7], false, Some(1), false));
  }

  const TWO_MESSAGES := [Words(1, [8, 9], false, None), Words(2, [3], false, None)]
  const NARROW := Settings(Reassemble, 1000, 1, 4096)
  const HASTE := Encode(RESPONSE, 6, [1], false, None, false)

  /**
   A supplicant that sends data instead of the ACK that would draw the rest of a record: the octet 9, still
   queued, is neither handed out nor queued afterwards.
   */
  lemma QueueIsThrownAway(token: Bytes)
    ensures var (table, first) := HandleDatagram(Scripted(TWO_MESSAGES), NARROW, map[], Poll(None, 5), token);
            var (table', second) := HandleDatagram(Scripted(TWO_MESSAGES), NARROW, table,
                                                   AliceDatagram([], Some(token), HASTE), token);
            && Shows(first, BuiltPacket(REQUEST, 6, [8], true, Some(2), false)) && first.value.state == Some(token)
            && StateKey(token) in table && table[StateKey(token)].supplicant.outbox == [(1, [9])]
            && Shows(second, BuiltPacket(REQUEST, 7, [3], false, Some(1), false))
            && StateKey(token) in table' && table'[StateKey(token)].supplicant.outbox == []
  {
    hide HandleSupplicantEap, HandleDatagram, Parse, BuildAck, Challenges, Shows, StateKey, FirstKey, Scripted, Encode;
    var req := Poll(None, 5);
    AckIsTls(5);
    var s0 := Mirrored(NewSession(KeyFor(req), NARROW), []);
    PollBringsEnd(TWO_MESSAGES, s0, NARROW, 0, EMPTY, req.Caller(), 5);
    assert [] + [8, 9] == [8, 9] && [8, 9][..1] == [8] && [8, 9][1..] == [9];
    var s := FirstServed(Scripted(TWO_MESSAGES), NARROW, map[], BuildAck(RESPONSE, 5), token,
                         BuiltPacket(REQUEST, 6, [8], true, Some(2), false));
    var table := HandleDatagram(Scripted(TWO_MESSAGES), NARROW, map[], req, token).0;
    HasteIsAnswered(Mirrored(s, []), s.downReasm, AliceDatagram([], Some(token), HASTE).Caller());
    NextServed(Scripted(TWO_MESSAGES), NARROW, table, HASTE, token,
               BuiltPacket(REQUEST, 7, [3], false, Some(1), false));
  }

  lemma HasteIsAnswered(s: SessionView, down: Reasm, caller: Caller)
    requires Stands(s, NARROW, TWO_MESSAGES, 1, down, [(1, [9])]) && down.state.Complete?
    ensures |HASTE| >= 5 && HASTE[4] == EAP_TYPE_TLS
    ensures var (t, handled) := HandleSupplicantEap(Scripted(TWO_MESSAGES), s, caller, HASTE);
            && Challenges(handled, BuiltPacket(REQUEST, 7, [3], false, Some(1), false))
            && t.supplicant.outbox == [] && t.result.None?
  {
    hide Parse, ForwardRecordUpstream, Challenges, Encode;
    EncodeLayout(RESPONSE, 6, [1], false, None, false);
    ParseBuilt(RESPONSE, 6, [1], false, None, false);
    var pkt := BuiltPacket(RESPONSE, 6, [1], false, None, false);
    var s1 := NotePacket(s, pkt);
    assert [] + [1] == [1];
    OctetIsForwarded(s1.(upReasm := Ingest(4096, s1.upReasm, pkt).0,
                         up := s1.up.(bytesReassembled := s1.up.bytesReassembled + 1)), caller);
  }

  lemma OctetIsForwarded(s: SessionView, caller: Caller)
    requires s.settings == NARROW && s.result.None? && |s.server.requests| == 1 && s.downReasm.state.Complete?
    ensures var (t, handled) := ForwardRecordUpstream(Scripted(TWO_MESSAGES), s, caller, [1]);
            && Challenges(handled, BuiltPacket(REQUEST, NextId(s.supplicant.nextId), [3], false, Some(1), false))
            && t.supplicant.outbox == [] && t.result.None?
  {
    hide Parse, Exchange, DeliverRecord, Challenges, Spoken, Encode, Scripted;
    var (leg, up) := PickUpstreamId(s.server);
    LineIsHeard(TWO_MESSAGES, leg, caller, Encode(RESPONSE, up, [1], false, Some(1), false));
    assert Chunks([1], 1000) == [[1]];
    var (s1, reply) := SendChunk(Scripted(TWO_MESSAGES), s, caller, 1, [[1]], 0);
    assert SendChunks(Scripted(TWO_MESSAGES), s, caller, 1, [[1]], 0) == (s1, reply);
    assert [] + [3] == [3];
    var s2 := IngestDown(s1, BuiltPacket(REQUEST, 2, [3], false, None, false)).0;
    assert HandleUpstreamReply(Scripted(TWO_MESSAGES), s1, caller, reply.value) == DeliverRecord(s2, [3]);
    GoesOut(s2, [3]);
  }

  // ---- Tails of messages --------------------------------------------------

  /** What the server has sent after these two lines: one message, cut in two. */
  lemma OneMessage(first: Line, second: Line)
    requires first.more && first.data != [] && !second.more && second.data != []
    ensures Messages([Some(Spoken(first)), Some(Spoken(second))]) == [first.data + second.data]
  {
    hide Parse, Encode;
    SpokenFacts(first);
    SpokenFacts(second);
    var a, b := Some(Spoken(first)), Some(Spoken(second));
    OneMore([], a);
    OneMore([a], b);
    assert [] + [a] == [a] && [a] + [b] == [a, b];
    assert [] + first.data == first.data && Messages([a]) == [];
  }

  lemma SpokenFacts(line: Line)
    requires line.data != []
    ensures var a := Some(Spoken(line)); IsData(a) && FragmentOf(a) == Packet(line)
  {
    hide Parse, Encode;
    ParseBuilt(REQUEST, line.id, line.data, line.more, line.total, false);
    LoneValue(Spoken(line).attrs, Encode(REQUEST, line.id, line.data, line.more, line.total, false));
  }

  const DECLARES_TOO_MUCH := [Words(1, [7], true, Some(5000)), Words(2, [8], false, None)]

  /**
   The first fragment of a message declares more than the limit and is refused, and the supplicant hears nothing.
   When it sends its packet again the second fragment comes back, and the supplicant gets the tail of the
   message as if it were the whole.
   */
  lemma TailOfRefusedMessage(token: Bytes)
    ensures var server := Scripted(DECLARES_TOO_MUCH);
            var (table, first) := HandleDatagram(server, SETTINGS, map[], Poll(None, 5), token);
            var (table', second) := HandleDatagram(server, SETTINGS, table, Poll(None, 5), token);
            && first.None? && Shows(second, BuiltPacket(REQUEST, 6, [8], false, Some(1), false))
            && StateKey(token) in table' && Messages(table'[StateKey(token)].server.answers) == [[7, 8]]
  {
    hide HandleSupplicantEap, HandleDatagram, Parse, BuildAck, Challenges, Shows;
    hide StateKey, FirstKey, Scripted, Spoken, Messages;
    var server, req, eap := Scripted(DECLARES_TOO_MUCH), Poll(None, 5), BuildAck(RESPONSE, 5);
    AckIsTls(5);
    var s0 := Mirrored(NewSession(KeyFor(req), SETTINGS), []);
    PollIsRefused(DECLARES_TOO_MUCH, s0, SETTINGS, 0, EMPTY, req.Caller(), 5);
    FirstRefused(server, SETTINGS, eap, token);
    var t := HandleSupplicantEap(server, s0, req.Caller(), eap).0;
    var table := HandleDatagram(server, SETTINGS, map[], req, token).0;
    PollBringsEnd(DECLARES_TOO_MUCH, Mirrored(t, []), SETTINGS, 1, t.downReasm, req.Caller(), 5);
    assert [] + [8] == [8] && [7] + [8] == [7, 8];
    var s := FirstServed(server, SETTINGS, table, eap, token, BuiltPacket(REQUEST, 6, [8], false, Some(1), false));
    assert s.server.answers == [Some(Spoken(DECLARES_TOO_MUCH[0])), Some(Spoken(DECLARES_TOO_MUCH[1]))];
    OneMessage(DECLARES_TOO_MUCH[0], DECLARES_TOO_MUCH[1]);
  }

  const UNHEARD := [Words(1, [7], true, None), Words(2, [8], false, None)]
  const CHUNKED := Settings(Reassemble, 1, 1000, 4096)
  const RECORD := Encode(RESPONSE, 5, [1, 2], false, None, false)

  /**
   A record goes up in two chunks, and the server answers the first of them with the beginning of its message,
   which nobody reads: the supplicant gets the tail as if it were the whole.
   */
  lemma TailOfUnreadMessage(token: Bytes)
    ensures var req := AliceDatagram([], None, RECORD);
            var (table, reply) := HandleDatagram(Scripted(UNHEARD), CHUNKED, map[], req, token);
            && Shows(reply, BuiltPacket(REQUEST, 6, [8], false, Some(1), false))
            && StateKey(token) in table && Messages(table[StateKey(token)].server.answers) == [[7, 8]]
  {
    hide HandleSupplicantEap, HandleDatagram, Parse, Challenges, Shows, Encode;
    hide StateKey, FirstKey, Scripted, Spoken, Messages;
    var req := AliceDatagram([], None, RECORD);
    var s0 := Mirrored(NewSession(KeyFor(req), CHUNKED), []);
    RecordIsAnswered(s0, req.Caller());
    assert [7] + [8] == [7, 8];
    var s := FirstServed(Scripted(UNHEARD), CHUNKED, map[], RECORD, token,
                         BuiltPacket(REQUEST, 6, [8], false, Some(1), false));
    OneMessage(UNHEARD[0], UNHEARD[1]);
  }

  lemma RecordIsAnswered(s: SessionView, caller: Caller)
    requires Stands(s, CHUNKED, UNHEARD, 0, EMPTY, [])
    ensures |RECORD| >= 5 && RECORD[4] == EAP_TYPE_TLS
    ensures var (t, handled) := HandleSupplicantEap(Scripted(UNHEARD), s, caller, RECORD);
            && Challenges(handled, BuiltPacket(REQUEST, 6, [8], false, Some(1), false))
            && t.result.None? && t.server.answers == [Some(Spoken(UNHEARD[0])), Some(Spoken(UNHEARD[1]))]
  {
    hide Parse, ForwardRecordUpstream, Challenges, Encode, Spoken;
    ParseBuilt(RESPONSE, 5, [1, 2], false, None, false);
    var pkt := BuiltPacket(RESPONSE, 5, [1, 2], false, None, false);
    var s1 := NotePacket(s, pkt);
    assert [] + [1, 2] == [1, 2];
    TwoChunksAreForwarded(s1.(upReasm := Ingest(4096, s1.upReasm, pkt).0,
                              up := s1.up.(bytesReassembled := s1.up.bytesReassembled + 2)), caller);
  }

  lemma TwoChunksAreForwarded(s: SessionView, caller: Caller)
    requires s.settings == CHUNKED && s.result.None? && s.downReasm == EMPTY
    requires s.server.requests == [] && s.server.answers == []
    ensures var (t, handled) := ForwardRecordUpstream(Scripted(UNHEARD), s, caller, [1, 2]);
            && Challenges(handled, BuiltPacket(REQUEST, NextId(s.supplicant.nextId), [8], false, Some(1), false))
            && t.result.None? && t.server.answers == [Some(Spoken(UNHEARD[0])), Some(Spoken(UNHEARD[1]))]
  {
    hide Parse, Exchange, DeliverRecord, Challenges, Spoken, Encode, Scripted;
    var chunks, server := [[1], [2]], Scripted(UNHEARD);
    assert Chunks([1, 2], 1) == chunks by {
      assert [1, 2][..1] == [1] && [1, 2][1..] == [2] && Chunks([2], 1) == [[2]];
    }
    var (leg, up) := PickUpstreamId(s.server);
    LineIsHeard(UNHEARD, leg, caller, Encode(RESPONSE, up, [1], true, Some(2), false));
    var (s1, first) := SendChunk(server, s, caller, 2, chunks, 0);
    var (leg1, up1) := PickUpstreamId(s1.server);
    LineIsHeard(UNHEARD, leg1, caller, Encode(RESPONSE, up1, [2], false, None, false));
    var (s2, second) := SendChunk(server, s1, caller, 2, chunks, 1);
    assert SendChunks(server, s1, caller, 2, chunks, 1) == (s2, second);
    assert SendChunks(server, s, caller, 2, chunks, 0) == (s2, second);
    assert [] + [8] == [8];
    var s3 := IngestDown(s2, Packet(UNHEARD[1])).0;
    assert HandleUpstreamReply(server, s2, caller, second.value) == DeliverRecord(s3, [8]);
    GoesOut(s3, [8]);
  }
}
