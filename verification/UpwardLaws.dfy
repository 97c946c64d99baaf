/**
 The hop from the supplicant to the server, against any auth server whatever: fragments are held
 and acknowledged on the spot, and what then goes up is their record, cut anew.
 */
module UpwardLaws {
  import opened Prelude
  import opened Octets
  import opened EapTls
  import opened Reassembly
  import opened Radius
  import opened SessionState
  import opened MediatorSpec
  import opened SupplicantLegLaws

  predicate AllParse(wire: seq<Bytes>) {
    forall p :: p in wire ==> Parse(p).Ok?
  }

  /** The empty Request made up for a fragment with this Identifier. */
  function LocalAck(id: byte): Handled {
    Ok(Outcome(ActAck, Some(BuildAck(REQUEST, NextId(id))), Some(NextId(id))))
  }

  /** The packets of the rest of a message, which the reassembler has room for. */
  predicate HasRoom(s: SessionView, wire: seq<Bytes>) {
    && AllParse(wire) && Tail(ParseAll(wire))
    && |Buffered(s.upReasm) + Join(Payloads(ParseAll(wire)))| <= s.settings.maxMessageLen
    && (s.upReasm.state.InProgress? || DeclaresAtMost(ParseAll(wire)[0], s.settings.maxMessageLen))
  }

  predicate DeclaresAtMost(pkt: EapTlsPacket, max: nat) {
    pkt.lengthIncluded && pkt.tlsMessageLength.Some? ==> pkt.tlsMessageLength.value <= max
  }

  lemma ParseAllStep(wire: seq<Bytes>)
    requires wire != [] && AllParse(wire)
    ensures AllParse(wire[1..]) && ParseAll(wire)[1..] == ParseAll(wire[1..])
  {
  }

  /** What one fragment does. */
  lemma FragmentIsTaken(server: Server, s: SessionView, caller: Caller, wire: seq<Bytes>)
    requires s.settings.mode.Reassemble? && HasRoom(s, wire)
    ensures var pkt := ParseAll(wire)[0];
            var (s', handled) := HandleSupplicantEap(server, s, caller, wire[0]);
            var data := Buffered(s.upReasm) + pkt.tlsData;
            if |wire| > 1 then
              && handled == LocalAck(pkt.identifier)
              && s'.upReasm.state.InProgress? && s'.upReasm.buffer == data
              && s' == s.(upReasm := s'.upReasm,
                          supplicant := s.supplicant.(nextId := NextId(pkt.identifier), lastReqId := Some(pkt.identifier)),
                          up := AddMetrics(s.up, Metrics(1, 0, 1, 0)))
            else
              var r := Ingest(s.settings.maxMessageLen, s.upReasm, pkt).0;
              (s', handled) == ForwardRecordUpstream(server, BeforeForward(s, r, pkt.identifier, 1, data), caller, data)
  {
    hide Parse, ForwardRecordUpstream, BuildAck;
    var pkt := ParseAll(wire)[0];
    assert pkt == Parse(wire[0]).value && !pkt.IsAck();
    PayloadsStep(ParseAll(wire));
    var r := Ingest(s.settings.maxMessageLen, s.upReasm, pkt).0;
    if |wire| == 1 {
      assert HandleSupplicantEap(server, s, caller, wire[0])
          == ForwardRecordUpstream(server, BeforeForward(s, r, pkt.identifier, 1, r.buffer), caller, r.buffer);
    }
  }

  /** The session on the point of handing a record up, after n fragments of it, the last with this Identifier. */
  function BeforeForward(s: SessionView, r: Reasm, id: byte, n: nat, record: Bytes): SessionView
    requires n >= 1
  {
    s.(upReasm := r,
       supplicant := s.supplicant.(nextId := id, lastReqId := Some(id)),
       up := AddMetrics(s.up, Metrics(n, 0, n - 1, |record|)))
  }

  /** Every call but the last is answered on the spot, with no word to the server; the last hands the record up. */
  predicate HeldThenForwarded(server: Server, s: SessionView, caller: Caller, wire: seq<Bytes>, r: Reasm)
    requires wire != [] && AllParse(wire)
  {
    var pkts, k := ParseAll(wire), |wire| - 1;
    var record := Buffered(s.upReasm) + Join(Payloads(pkts));
    var (t, handled) := PacketRun(server, s, caller, wire);
    && |handled| == |wire|
    && (forall i :: 0 <= i < k ==> handled[i] == LocalAck(pkts[i].identifier))
    && (forall i :: 0 <= i <= k ==> PacketRun(server, s, caller, wire[..i]).0.server == s.server)
    && (t, handled[k])
    == ForwardRecordUpstream(server, BeforeForward(s, r, pkts[k].identifier, |wire|, record), caller, record)
  }

  lemma LastIsForwarded(server: Server, s: SessionView, caller: Caller, wire: seq<Bytes>)
    requires s.settings.mode.Reassemble? && HasRoom(s, wire) && |wire| == 1
    ensures HeldThenForwarded(server, s, caller, wire,
                              Ingest(s.settings.maxMessageLen, s.upReasm, Parse(wire[0]).value).0)
  {
    hide HandleSupplicantEap, ForwardRecordUpstream, Parse, Ingest;
    var pkts := ParseAll(wire);
    FragmentIsTaken(server, s, caller, wire);
    PayloadsStep(pkts);
    assert Join(Payloads(pkts[1..])) == [] && pkts[0].tlsData + [] == pkts[0].tlsData;
    var s1 := HandleSupplicantEap(server, s, caller, wire[0]).0;
    assert PacketRun(server, s1, caller, wire[1..]) == (s1, []);
  }

  lemma RestHasRoom(server: Server, s: SessionView, caller: Caller, wire: seq<Bytes>)
    requires s.settings.mode.Reassemble? && HasRoom(s, wire) && |wire| > 1
    ensures var s1 := HandleSupplicantEap(server, s, caller, wire[0]).0;
            && s1.settings == s.settings && HasRoom(s1, wire[1..])
            && Buffered(s1.upReasm) + Join(Payloads(ParseAll(wire[1..])))
            == Buffered(s.upReasm) + Join(Payloads(ParseAll(wire)))
  {
    hide HandleSupplicantEap, Parse, LocalAck;
    var pkts := ParseAll(wire);
    FragmentIsTaken(server, s, caller, wire);
    PayloadsStep(pkts);
    ParseAllStep(wire);
    var rest := Join(Payloads(pkts[1..]));
    assert Buffered(s.upReasm) + (pkts[0].tlsData + rest) == (Buffered(s.upReasm) + pkts[0].tlsData) + rest;
  }

  lemma HoldingGoesOn(server: Server, s: SessionView, caller: Caller, wire: seq<Bytes>, r: Reasm)
    requires s.settings.mode.Reassemble? && HasRoom(s, wire) && |wire| > 1
    requires AllParse(wire[1..])
    requires HeldThenForwarded(server, HandleSupplicantEap(server, s, caller, wire[0]).0, caller, wire[1..], r)
    ensures HeldThenForwarded(server, s, caller, wire, r)
  {
    hide HandleSupplicantEap, ForwardRecordUpstream, LocalAck, Parse, Join, Payloads;
    FragmentIsTaken(server, s, caller, wire);
    RestHasRoom(server, s, caller, wire);
    ParseAllStep(wire);
    forall i | 0 <= i <= |wire| - 1 ensures PacketRun(server, s, caller, wire[..i]).0.server == s.server {
      if i > 0 {
        assert wire[..i][1..] == wire[1..][..i - 1];
      }
    }
  }

  lemma {:induction false} TrainIsHeld(server: Server, s: SessionView, caller: Caller, wire: seq<Bytes>)
    returns (r: Reasm)
    requires s.settings.mode.Reassemble? && HasRoom(s, wire)
    ensures HeldThenForwarded(server, s, caller, wire, r)
    decreases |wire|
  {
    hide HandleSupplicantEap, HeldThenForwarded, Parse;
    if |wire| == 1 {
      LastIsForwarded(server, s, caller, wire);
      r := Ingest(s.settings.maxMessageLen, s.upReasm, Parse(wire[0]).value).0;
    } else {
      RestHasRoom(server, s, caller, wire);
      r := TrainIsHeld(server, HandleSupplicantEap(server, s, caller, wire[0]).0, caller, wire[1..]);
      HoldingGoesOn(server, s, caller, wire, r);
    }
  }

  // ---- What goes up -------------------------------------------------------

  function Eaps(requests: seq<Request>): seq<Bytes> {
    seq(|requests|, i requires 0 <= i < |requests| => requests[i].Eap())
  }

  /** A request with chunk number `i` of the record, marked as it should be. */
  predicate BearsChunk(request: Request, record: Bytes, size: nat, i: nat)
    requires size >= 1 && i < |Chunks(record, size)|
  {
    && Parse(request.Eap()).Ok?
    && IsChunk(Parse(request.Eap()).value, record, size, i)
  }

  predicate IsChunk(pkt: EapTlsPacket, record: Bytes, size: nat, i: nat)
    requires size >= 1 && i < |Chunks(record, size)|
  {
    pkt == BuiltPacket(RESPONSE, pkt.identifier, Chunks(record, size)[i], i < |Chunks(record, size)| - 1,
                       if i == 0 then Some(|record|) else None, false)
  }

  predicate BearsAck(request: Request) {
    Parse(request.Eap()).Ok? && Parse(request.Eap()).value.IsAck()
  }

  lemma ExchangeSends(server: Server, leg: ServerLeg, caller: Caller, eap: Bytes)
    ensures var leg' := Exchange(server, leg, caller, eap).0;
            && leg.requests <= leg'.requests && |leg'.requests| == |leg.requests| + 1
            && leg'.requests[|leg.requests|].Eap() == eap
  {
    ChunksCutExactly(eap, MAX_VALUE);
  }

  lemma ChunkIsSent(server: Server, s: SessionView, caller: Caller, record: Bytes, size: nat, i: nat)
    requires 1 <= size <= 65000 && |record| < U32_LIMIT && i < |Chunks(record, size)|
    ensures var t := SendChunk(server, s, caller, |record|, Chunks(record, size), i).0;
            && s.server.requests <= t.server.requests && |t.server.requests| == |s.server.requests| + 1
            && BearsChunk(t.server.requests[|s.server.requests|], record, size, i)
  {
    hide Encode, Parse, Exchange;
    var chunks := Chunks(record, size);
    var (leg, id) := PickUpstreamId(s.server);
    var more, total := i < |chunks| - 1, if i == 0 then Some(|record|) else None;
    ChunksCutExactly(record, size);
    assert chunks[i] in chunks;
    ParseBuilt(RESPONSE, id, chunks[i], more, total, false);
    ExchangeSends(server, leg, caller, Encode(RESPONSE, id, chunks[i], more, total, false));
  }

  /** The send loop sends the chunks in order, all of them unless the server falls silent. */
  lemma {:induction false} ChunksAreSent(server: Server, s: SessionView, caller: Caller, record: Bytes, size: nat, i: nat)
    requires 1 <= size <= 65000 && |record| < U32_LIMIT && i < |Chunks(record, size)|
    ensures var chunks, n := Chunks(record, size), |s.server.requests|;
            var (t, reply) := SendChunks(server, s, caller, |record|, chunks, i);
            && s.server.requests <= t.server.requests
            && |t.server.requests| - n <= |chunks| - i
            && (reply.Ok? ==> |t.server.requests| - n == |chunks| - i)
            && forall k :: n <= k < |t.server.requests| ==> BearsChunk(t.server.requests[k], record, size, i + k - n)
    decreases |Chunks(record, size)| - i
  {
    hide SendChunk, BearsChunk, Chunks;
    var chunks, n := Chunks(record, size), |s.server.requests|;
    ChunkIsSent(server, s, caller, record, size, i);
    var (s1, reply) := SendChunk(server, s, caller, |record|, chunks, i);
    if reply.Ok? && i < |chunks| - 1 {
      ChunksAreSent(server, s1, caller, record, size, i + 1);
      assert SendChunks(server, s, caller, |record|, chunks, i).0.server.requests[n] == s1.server.requests[n];
    }
  }

  /** From then on only ACKs go up. */
  predicate OnlyAcksSent(before: ServerLeg, after: ServerLeg) {
    && before.requests <= after.requests
    && forall i :: |before.requests| <= i < |after.requests| ==> BearsAck(after.requests[i])
  }

  lemma {:induction false} DrainSendsAcks(server: Server, s: SessionView, caller: Caller, more: bool)
    ensures OnlyAcksSent(s.server, Drain(server, s, caller, more).0.server)
    decreases if |s.server.requests| <= server.lifetime then server.lifetime - |s.server.requests| + 1 else 0
  {
    hide Exchange, BuildAck, TakeFragment, BearsAck;
    if more {
      var (leg, id) := PickUpstreamId(s.server);
      ExchangeSends(server, leg, caller, BuildAck(RESPONSE, id));
      var (s1, reply) := AckUpstream(server, s, caller);
      AckIsBorne(s1.server.requests[|s.server.requests|], id);
      if reply.Some? {
        var (s2, turn) := TakeFragment(s1, reply.value);
        if turn.Pulled? {
          DrainSendsAcks(server, s2, caller, turn.more);
        }
      }
    }
  }

  lemma AckIsBorne(request: Request, id: byte)
    requires request.Eap() == BuildAck(RESPONSE, id)
    ensures BearsAck(request)
  {
    ParseBuilt(RESPONSE, id, [], false, None, false);
  }

  lemma ReplyHandlingSendsAcks(server: Server, s: SessionView, caller: Caller, reply: Reply)
    ensures OnlyAcksSent(s.server, HandleUpstreamReply(server, s, caller, reply).0.server)
  {
    hide Drain, OnlyAcksSent, DeliverRecord, AfterDrain, Parse;
    StayingSilent(s.server);
    if !reply.Accept() && !reply.Reject() && reply.eap.Some? && Parse(reply.eap.value).Ok? {
      var pkt := Parse(reply.eap.value).value;
      DrainSendsAcks(server, IngestDown(s, pkt).0, caller, pkt.moreFragments);
    }
  }

  lemma StayingSilent(leg: ServerLeg)
    ensures OnlyAcksSent(leg, leg)
  {
  }

  // ---- What the server makes of it ----------------------------------------

  lemma {:induction false} StripAcksAppend(a: seq<EapTlsPacket>, b: seq<EapTlsPacket>)
    ensures StripAcks(a + b) == StripAcks(a) + StripAcks(b)
  {
    if a == [] {
      assert a + b == b;
    } else {
      StripAcksAppend(a[1..], b);
      var head := if a[0].IsAck() then [] else [a[0]];
      assert (a + b)[1..] == a[1..] + b;
      assert StripAcks(a + b) == head + StripAcks(a[1..] + b);
      assert head + (StripAcks(a[1..]) + StripAcks(b)) == (head + StripAcks(a[1..])) + StripAcks(b);
    }
  }

  lemma {:induction false} StripsAllOrNone(pkts: seq<EapTlsPacket>)
    ensures (forall p :: p in pkts ==> p.IsAck()) ==> StripAcks(pkts) == []
    ensures (forall p :: p in pkts ==> !p.IsAck()) ==> StripAcks(pkts) == pkts
  {
    if pkts != [] {
      StripsAllOrNone(pkts[1..]);
      assert pkts == [pkts[0]] + pkts[1..] && pkts[0] in pkts;
    }
  }

  lemma {:induction false} UnfinishedGivesNothing(max: nat, r: Reasm, pkts: seq<EapTlsPacket>)
    requires forall p :: p in pkts ==> p.moreFragments
    ensures Feed(max, r, pkts).messages == []
    decreases |pkts|
  {
    if pkts != [] {
      assert pkts[0] in pkts;
      UnfinishedGivesNothing(max, Ingest(max, r, pkts[0]).0, pkts[1..]);
    }
  }

  /** Chunks of a record are data, with M on all but its last. */
  lemma ChunksAreData(chunks: seq<EapTlsPacket>, record: Bytes, size: nat)
    requires size >= 1 && |chunks| <= |Chunks(record, size)|
    requires forall i :: 0 <= i < |chunks| ==> IsChunk(chunks[i], record, size, i)
    ensures forall p :: p in chunks ==> !p.IsAck()
    ensures |chunks| < |Chunks(record, size)| ==> forall p :: p in chunks ==> p.moreFragments
  {
    hide Chunks;
    ChunksCutExactly(record, size);
    forall p | p in chunks ensures !p.IsAck() && (|chunks| < |Chunks(record, size)| ==> p.moreFragments) {
      var i :| 0 <= i < |chunks| && chunks[i] == p;
      assert IsChunk(chunks[i], record, size, i) && Chunks(record, size)[i] in Chunks(record, size);
    }
  }

  lemma AllChunksMakeATrain(chunks: seq<EapTlsPacket>, record: Bytes, size: nat, max: nat)
    requires size >= 1 && |record| <= max && |chunks| == |Chunks(record, size)|
    requires forall i :: 0 <= i < |chunks| ==> IsChunk(chunks[i], record, size, i)
    ensures Train(max, chunks) && Join(Payloads(chunks)) == record
  {
    hide Chunks;
    ChunksAreData(chunks, record, size);
    ChunksCutExactly(record, size);
    forall i | 0 <= i < |chunks|
      ensures chunks[i].moreFragments <==> i < |chunks| - 1
      ensures chunks[i].tlsData == Chunks(record, size)[i]
    {
      assert IsChunk(chunks[i], record, size, i);
    }
    assert IsChunk(chunks[0], record, size, 0);
    assert Payloads(chunks) == Chunks(record, size);
  }

  /** The first so many chunks of a record, then ACKs: a message once, and only once, all of them are there. */
  lemma ChunksReassemble(chunks: seq<EapTlsPacket>, acks: seq<EapTlsPacket>, record: Bytes, size: nat, max: nat)
    requires size >= 1 && |record| <= max && |chunks| <= |Chunks(record, size)|
    requires forall i :: 0 <= i < |chunks| ==> IsChunk(chunks[i], record, size, i)
    requires forall p :: p in acks ==> p.IsAck()
    ensures Feed(max, EMPTY, chunks + acks).messages == if |chunks| == |Chunks(record, size)| then [record] else []
  {
    hide Chunks, IsChunk, StripAcks, Ingest, Train;
    ChunksAreData(chunks, record, size);
    AcksAreInvisible(max, EMPTY, chunks + acks);
    StripAcksAppend(chunks, acks);
    StripsAllOrNone(chunks);
    StripsAllOrNone(acks);
    assert chunks + [] == chunks;
    if |chunks| == |Chunks(record, size)| {
      AllChunksMakeATrain(chunks, record, size, max);
      TrainCompletes(max, EMPTY, chunks, []);
    } else {
      UnfinishedGivesNothing(max, EMPTY, chunks);
    }
  }

  /**
   What a call sent upstream, fed packet by packet to a fresh reassembler, gives exactly the record, or
   nothing at all if the server fell silent before its last chunk.
   */
  predicate GoesUp(before: SessionView, after: SessionView, handled: Handled, record: Bytes)
    requires before.settings.upstreamFragmentSize >= 1
  {
    && before.server.requests <= after.server.requests
    && var sent := Eaps(after.server.requests[|before.server.requests|..]);
    && AllParse(sent)
    && var whole := |sent| >= ChunkCount(|record|, before.settings.upstreamFragmentSize);
    && Feed(before.settings.maxMessageLen, EMPTY, ParseAll(sent)).messages == (if whole then [record] else [])
    && (handled.Ok? ==> whole)
  }

  lemma ChunksThenAcksGoUp(before: SessionView, middle: ServerLeg, after: SessionView, handled: Handled, record: Bytes)
    requires 1 <= before.settings.upstreamFragmentSize && |record| <= before.settings.maxMessageLen
    requires before.server.requests <= middle.requests && OnlyAcksSent(middle, after.server)
    requires var n, chunks := |before.server.requests|, Chunks(record, before.settings.upstreamFragmentSize);
             var m := |middle.requests| - n;
             && m <= |chunks| && (handled.Ok? ==> m == |chunks|) && (m < |chunks| ==> after.server == middle)
             && forall k :: n <= k < n + m ==>
                  BearsChunk(middle.requests[k], record, before.settings.upstreamFragmentSize, k - n)
    ensures GoesUp(before, after, handled, record)
  {
    hide Chunks, IsChunk, Feed, Parse, ChunkCount;
    var size, n := before.settings.upstreamFragmentSize, |before.server.requests|;
    var m, sent := |middle.requests| - n, Eaps(after.server.requests[n..]);
    forall i | 0 <= i < |sent|
      ensures Parse(sent[i]).Ok?
      ensures if i < m then IsChunk(Parse(sent[i]).value, record, size, i) else Parse(sent[i]).value.IsAck()
    {
      if i < m {
        assert after.server.requests[n + i] == middle.requests[n + i];
        assert BearsChunk(middle.requests[n + i], record, size, i);
      } else {
        assert BearsAck(after.server.requests[n + i]);
      }
    }
    ChunksCutExactly(record, size);
    var pkts := ParseAll(sent);
    assert pkts == pkts[..m] + pkts[m..];
    ChunksReassemble(pkts[..m], pkts[m..], record, size, before.settings.maxMessageLen);
  }

  lemma ForwardGoesUp(server: Server, s: SessionView, caller: Caller, record: Bytes)
    requires 1 <= s.settings.upstreamFragmentSize <= 65000
    requires |record| <= s.settings.maxMessageLen < U32_LIMIT
    ensures var (t, handled) := ForwardRecordUpstream(server, s, caller, record);
            GoesUp(s, t, handled, record)
  {
    hide SendChunks, HandleUpstreamReply, OnlyAcksSent, GoesUp, BearsChunk, Chunks;
    var size := s.settings.upstreamFragmentSize;
    var chunks := Chunks(record, size);
    ChunksAreSent(server, s, caller, record, size, 0);
    var (s1, reply) := SendChunks(server, s, caller, |record|, chunks, 0);
    var (t, handled) := ForwardRecordUpstream(server, s, caller, record);
    if reply.Ok? {
      ReplyHandlingSendsAcks(server, s1, caller, reply.value);
    } else {
      StayingSilent(s1.server);
    }
    ChunksThenAcksGoUp(s, s1.server, t, handled, record);
  }

  /** The rest of a record, from whatever is held of it already. */
  lemma RestGoesUp(server: Server, s: SessionView, caller: Caller, wire: seq<Bytes>)
    requires s.settings.mode.Reassemble? && HasRoom(s, wire)
    requires 1 <= s.settings.upstreamFragmentSize <= 65000 && s.settings.maxMessageLen < U32_LIMIT
    ensures var pkts, k := ParseAll(wire), |wire| - 1;
            var (t, handled) := PacketRun(server, s, caller, wire);
            && |handled| == |wire|
            && (forall i :: 0 <= i < k ==> handled[i] == LocalAck(pkts[i].identifier))
            && (forall i :: 0 <= i <= k ==> PacketRun(server, s, caller, wire[..i]).0.server == s.server)
            && GoesUp(s, t, handled[k], Buffered(s.upReasm) + Join(Payloads(pkts)))
  {
    hide ForwardRecordUpstream, PacketRun, Feed, Join, LocalAck;
    var pkts, k := ParseAll(wire), |wire| - 1;
    var record := Buffered(s.upReasm) + Join(Payloads(pkts));
    var r := TrainIsHeld(server, s, caller, wire);
    ForwardGoesUp(server, BeforeForward(s, r, pkts[k].identifier, |wire|, record), caller, record);
  }

  /**
   The upward hop, against any server. The packets of a record, however the supplicant cut it, are
   each answered by an ACK made up on the spot, and not a word of them reaches the server until
   the last; what goes up then is exactly the record.
   */
  lemma RecordGoesUp(server: Server, s: SessionView, caller: Caller, wire: seq<Bytes>)
    requires s.settings.mode.Reassemble? && !s.upReasm.state.InProgress?
    requires 1 <= s.settings.upstreamFragmentSize <= 65000 && s.settings.maxMessageLen < U32_LIMIT
    requires AllParse(wire) && Train(s.settings.maxMessageLen, ParseAll(wire))
    ensures var pkts, k := ParseAll(wire), |wire| - 1;
            var (t, handled) := PacketRun(server, s, caller, wire);
            && |handled| == |wire|
            && (forall i :: 0 <= i < k ==> handled[i] == LocalAck(pkts[i].identifier))
            && (forall i :: 0 <= i <= k ==> PacketRun(server, s, caller, wire[..i]).0.server == s.server)
            && GoesUp(s, t, handled[k], Join(Payloads(pkts)))
  {
    hide PacketRun, Join, LocalAck, GoesUp;
    var record := Join(Payloads(ParseAll(wire)));
    assert [] + record == record;
    RestGoesUp(server, s, caller, wire);
  }

  lemma SilentThenSilent(a: ServerLeg, b: ServerLeg, c: ServerLeg)
    requires OnlyAcksSent(a, b) && OnlyAcksSent(b, c)
    ensures OnlyAcksSent(a, c)
  {
    hide BearsAck;
    forall i | |a.requests| <= i < |c.requests| ensures BearsAck(c.requests[i]) {
      if i < |b.requests| {
        assert c.requests[i] == b.requests[i];
      }
    }
  }

  lemma PollSendsAcks(server: Server, s: SessionView, caller: Caller)
    ensures OnlyAcksSent(s.server, HandleAck(server, s, caller).0.server)
  {
    hide HandleUpstreamReply, Exchange, BuildAck, OnlyAcksSent;
    StayingSilent(s.server);
    if s.supplicant.outbox == [] && s.result.None? {
      var (leg, id) := PickUpstreamId(s.server);
      ExchangeSends(server, leg, caller, BuildAck(RESPONSE, id));
      var (leg', reply) := Exchange(server, leg, caller, BuildAck(RESPONSE, id));
      OneAckSent(s.server, leg', id);
      if reply.Some? {
        ReplyHandlingSendsAcks(server, s.(server := leg'), caller, reply.value);
        SilentThenSilent(s.server, leg', HandleAck(server, s, caller).0.server);
      }
    } else if s.supplicant.outbox == [] {
      assert s.result.value.Accepted? || s.result.value.Rejected?;
    }
  }

  lemma OneAckSent(before: ServerLeg, after: ServerLeg, id: byte)
    requires before.requests <= after.requests && |after.requests| == |before.requests| + 1
    requires after.requests[|before.requests|].Eap() == BuildAck(RESPONSE, id)
    ensures OnlyAcksSent(before, after)
  {
    hide BearsAck, BuildAck;
    AckIsBorne(after.requests[|before.requests|], id);
  }

  lemma OverflowedStep(server: Server, s: SessionView, caller: Caller, eap: Bytes)
    requires s.settings.mode.Reassemble? && Overflowed(s.settings.maxMessageLen, s.upReasm) && Parse(eap).Ok?
    ensures var (t, handled) := HandleSupplicantEap(server, s, caller, eap);
            && Overflowed(t.settings.maxMessageLen, t.upReasm) && OnlyAcksSent(s.server, t.server)
            && (!Parse(eap).value.IsAck() ==> handled == Err(BufferExceedsMax) && t.server == s.server)
  {
    hide Parse, HandleAck, OnlyAcksSent;
    StayingSilent(s.server);
    if Parse(eap).value.IsAck() {
      PollSendsAcks(server, NotePacket(s, Parse(eap).value), caller);
    }
  }

  /**
   An overflow raised by the supplicant's side is for good: whatever packets follow, each data packet
   raises again and leaves the conversation with the server as it is, and all that still goes up,
   for the supplicant's ACKs, is ACKs.
   */
  lemma {:induction false} OverflowCutsTheServerOff(server: Server, s: SessionView, caller: Caller, wire: seq<Bytes>)
    requires s.settings.mode.Reassemble? && Overflowed(s.settings.maxMessageLen, s.upReasm) && AllParse(wire)
    ensures var (t, handled) := PacketRun(server, s, caller, wire);
            && Overflowed(t.settings.maxMessageLen, t.upReasm) && OnlyAcksSent(s.server, t.server)
            && |handled| == |wire|
            && forall i :: 0 <= i < |wire| && !Parse(wire[i]).value.IsAck() ==>
                 && handled[i] == Err(BufferExceedsMax)
                 && PacketRun(server, s, caller, wire[..i + 1]).0.server == PacketRun(server, s, caller, wire[..i]).0.server
    decreases |wire|
  {
    hide Parse, HandleSupplicantEap, OnlyAcksSent, Overflowed;
    if wire == [] {
      StayingSilent(s.server);
    } else {
      assert wire[0] in wire;
      OverflowedStep(server, s, caller, wire[0]);
      var s1 := HandleSupplicantEap(server, s, caller, wire[0]).0;
      OverflowCutsTheServerOff(server, s1, caller, wire[1..]);
      SilentThenSilent(s.server, s1.server, PacketRun(server, s1, caller, wire[1..]).0.server);
      var handled := PacketRun(server, s, caller, wire).1;
      forall i | 0 <= i < |wire| && !Parse(wire[i]).value.IsAck()
        ensures handled[i] == Err(BufferExceedsMax)
        ensures PacketRun(server, s, caller, wire[..i + 1]).0.server == PacketRun(server, s, caller, wire[..i]).0.server
      {
        AfterTheFirst(server, s, caller, wire, i);
        if i > 0 {
          AfterTheFirst(server, s, caller, wire, i - 1);
          assert wire[1..][i - 1] == wire[i];
        }
      }
    }
  }

  lemma AfterTheFirst(server: Server, s: SessionView, caller: Caller, wire: seq<Bytes>, i: nat)
    requires i < |wire|
    ensures var s1 := HandleSupplicantEap(server, s, caller, wire[0]).0;
            PacketRun(server, s, caller, wire[..i + 1]).0 == PacketRun(server, s1, caller, wire[1..][..i]).0
  {
    hide HandleSupplicantEap;
    assert wire[..i + 1][1..] == wire[1..][..i];
  }

  /** A record that there is no room for: its last packet raises, and not a word of it reaches the server. */
  lemma {:induction false} TrainOverflows(server: Server, s: SessionView, caller: Caller, wire: seq<Bytes>)
    requires s.settings.mode.Reassemble? && AllParse(wire) && Tail(ParseAll(wire))
    requires s.upReasm.state.InProgress? || DeclaresAtMost(ParseAll(wire)[0], s.settings.maxMessageLen)
    requires |Buffered(s.upReasm) + Join(Payloads(ParseAll(wire)))| > s.settings.maxMessageLen
    ensures var (t, handled) := PacketRun(server, s, caller, wire);
            && |handled| == |wire| && t.server == s.server && handled[|wire| - 1] == Err(BufferExceedsMax)
    decreases |wire|
  {
    hide HandleSupplicantEap, Parse, Join, Payloads;
    var (s1, handled) := HandleSupplicantEap(server, s, caller, wire[0]);
    FragmentMayOverflow(server, s, caller, wire);
    if |wire| > 1 {
      ParseAllStep(wire);
      TrainOverflows(server, s1, caller, wire[1..]);
    } else {
      assert PacketRun(server, s1, caller, wire[1..]) == (s1, []);
    }
  }

  lemma FragmentMayOverflow(server: Server, s: SessionView, caller: Caller, wire: seq<Bytes>)
    requires s.settings.mode.Reassemble? && AllParse(wire) && Tail(ParseAll(wire))
    requires s.upReasm.state.InProgress? || DeclaresAtMost(ParseAll(wire)[0], s.settings.maxMessageLen)
    requires |Buffered(s.upReasm) + Join(Payloads(ParseAll(wire)))| > s.settings.maxMessageLen
    ensures var (s1, handled) := HandleSupplicantEap(server, s, caller, wire[0]);
            && s1.settings == s.settings && s1.server == s.server
            && if |wire| > 1 then
                 && s1.upReasm.state.InProgress? && Tail(ParseAll(wire)[1..])
                 && |Buffered(s1.upReasm) + Join(Payloads(ParseAll(wire)[1..]))| > s.settings.maxMessageLen
               else handled == Err(BufferExceedsMax)
  {
    hide Parse, ForwardRecordUpstream, BuildAck, Join;
    var pkts := ParseAll(wire);
    assert pkts[0] == Parse(wire[0]).value && !pkts[0].IsAck();
    PayloadsStep(pkts);
    var data, rest := pkts[0].tlsData, Join(Payloads(pkts[1..]));
    assert Buffered(s.upReasm) + (data + rest) == Buffered(s.upReasm) + data + rest;
    assert [] + data == data;
    if |wire| == 1 {
      assert pkts[1..] == [] && rest == [] by { NoPayloads(); }
    }
  }

  lemma NoPayloads()
    ensures Join(Payloads([])) == []
  {
  }
}
