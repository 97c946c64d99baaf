/**
 What the counters and the downstream queue say after any packet in reassemble mode, against any auth
 server whatever, in terms of what was handed back and what went up.
 */
module CountingLaws {
  import opened Prelude
  import opened Octets
  import opened EapTls
  import opened Radius
  import opened Reassembly
  import opened SessionState
  import opened MediatorSpec
  import opened SupplicantLegLaws
  import opened DrainLaws

  /** The fragment of a server record handed to the supplicant, if one was. */
  function Emitted(handled: Handled): Option<EapTlsPacket> {
    if handled.Ok? && handled.value.action.ActChallenge? && handled.value.eap.Some? && Parse(handled.value.eap.value).Ok?
    then Some(Parse(handled.value.eap.value).value) else None
  }

  function EmittedMore(handled: Handled): nat {
    if Emitted(handled).Some? && Emitted(handled).value.moreFragments then 1 else 0
  }

  /** A challenge is always such a fragment. */
  predicate AnswersInKind(handled: Handled) {
    handled.Ok? && handled.value.action.ActChallenge? ==> Emitted(handled).Some?
  }

  /** An ACK made up on the spot. */
  predicate AckedLocally(handled: Handled) {
    handled.Ok? && handled.value.action.ActAck? && handled.value.eap.Some?
  }

  function OctetsIn(outbox: seq<(nat, Bytes)>): nat {
    if outbox == [] then 0 else |outbox[0].1| + OctetsIn(outbox[1..])
  }

  lemma {:induction false} OctetsOfChunks(chunks: seq<Bytes>, from: nat)
    requires from <= |chunks|
    ensures OctetsIn(Enumerate(chunks)[from..]) == |Join(chunks[from..])|
    decreases |chunks| - from
  {
    if from < |chunks| {
      OctetsOfChunks(chunks, from + 1);
      assert Enumerate(chunks)[from..][1..] == Enumerate(chunks)[from + 1..];
      assert chunks[from..][1..] == chunks[from + 1..];
    }
  }

  /** A new record's queue: all its chunks but the first, which went out at once. */
  predicate RestQueued(leg: SupplicantLeg, record: Bytes, size: nat)
    requires size >= 1
  {
    && leg.outbox == Enumerate(Chunks(record, size))[1..]
    && leg.total == |record| && leg.nchunks == |Chunks(record, size)|
  }

  /** What the server's side of a call does to the queue and the counters. */
  ghost predicate Served(s: SessionView, t: SessionView, handled: Handled)
    requires s.settings.downstreamFragmentSize >= 1
  {
    && t.up == s.up && t.upReasm == s.upReasm && !AckedLocally(handled) && AnswersInKind(handled)
    && |t.server.requests| - |s.server.requests| + EmittedMore(handled) == t.down.acksGenerated - s.down.acksGenerated
    && match Emitted(handled)
       case None =>
         && t.down.fragmentsOut == s.down.fragmentsOut && t.supplicant.outbox == s.supplicant.outbox
         && t.down.bytesReassembled == s.down.bytesReassembled
       case Some(pkt) =>
         && t.down.fragmentsOut == s.down.fragmentsOut + 1
         && exists record ::
              && RestQueued(t.supplicant, record, s.settings.downstreamFragmentSize)
              && FirstOf(pkt, record, s.settings.downstreamFragmentSize)
              && t.down.bytesReassembled == s.down.bytesReassembled + |record|
  }

  /** The first fragment of a record. */
  predicate FirstOf(pkt: EapTlsPacket, record: Bytes, size: nat)
    requires size >= 1
  {
    && pkt.tlsData == Chunks(record, size)[0] && pkt.tlsMessageLength == Some(|record|)
    && (pkt.moreFragments <==> |Chunks(record, size)| > 1)
  }

  /** One fragment drawn from the queue. */
  lemma DrawCounts(s: SessionView)
    requires s.supplicant.outbox != []
    requires SendNextDownstreamFragment(s).1 != Err(NumberTooLarge)
    ensures var (t, handled) := SendNextDownstreamFragment(s);
            var (idx, chunk) := s.supplicant.outbox[0];
            && Emitted(handled) == Some(BuiltPacket(REQUEST, NextId(s.supplicant.nextId), chunk,
                                                    idx < s.supplicant.nchunks - 1,
                                                    if idx == 0 then Some(s.supplicant.total) else None, false))
            && t.supplicant.outbox == s.supplicant.outbox[1..]
            && t.supplicant.total == s.supplicant.total && t.supplicant.nchunks == s.supplicant.nchunks
            && t.up == s.up && t.upReasm == s.upReasm
            && t.down == CountFragment(s.down, idx < s.supplicant.nchunks - 1)
  {
    hide Encode, Parse;
    var (idx, chunk) := s.supplicant.outbox[0];
    ParseBuilt(REQUEST, NextId(s.supplicant.nextId), chunk, idx < s.supplicant.nchunks - 1,
               if idx == 0 then Some(s.supplicant.total) else None, false);
  }

  lemma DeliveryCounts(s: SessionView, record: Bytes)
    requires s.settings.downstreamFragmentSize >= 1 && DeliverRecord(s, record).1 != Err(NumberTooLarge)
    ensures var (t, handled) := DeliverRecord(s, record); Served(s, t, handled) && Emitted(handled).Some?
  {
    hide SendNextDownstreamFragment, Chunks, Parse;
    var chunks := Chunks(record, s.settings.downstreamFragmentSize);
    var s1 := s.(down := s.down.(bytesReassembled := s.down.bytesReassembled + |record|),
                 supplicant := s.supplicant.(outbox := Enumerate(chunks), total := |record|, nchunks := |chunks|));
    assert DeliverRecord(s, record) == SendNextDownstreamFragment(s1);
    DrawCounts(s1);
    var (t, handled) := SendNextDownstreamFragment(s1);
    assert RestQueued(t.supplicant, record, s.settings.downstreamFragmentSize);
    assert FirstOf(Emitted(handled).value, record, s.settings.downstreamFragmentSize);
  }

  /** The drain pays one exchange for each ACK it counts. */
  lemma {:induction false} DrainCounts(server: Server, s: SessionView, caller: Caller, more: bool)
    ensures var t := Drain(server, s, caller, more).0;
            && t.down == s.down.(acksGenerated := t.down.acksGenerated) && t.upReasm == s.upReasm
            && t.down.acksGenerated - s.down.acksGenerated == |t.server.requests| - |s.server.requests|
    decreases if |s.server.requests| <= server.lifetime then server.lifetime - |s.server.requests| + 1 else 0
  {
    hide Exchange, Parse, BuildAck;
    if more {
      var (s1, reply) := AckUpstream(server, s, caller);
      if reply.Some? {
        var (s2, turn) := TakeFragment(s1, reply.value);
        if turn.Pulled? {
          DrainCounts(server, s2, caller, turn.more);
        }
      }
    }
  }

  /** Work before a record is delivered that pays one exchange for each ACK it counts. */
  lemma ServedLater(s: SessionView, s1: SessionView, t: SessionView, handled: Handled)
    requires s.settings.downstreamFragmentSize >= 1 && s1.settings == s.settings && Served(s1, t, handled)
    requires s1.up == s.up && s1.upReasm == s.upReasm && s1.supplicant.outbox == s.supplicant.outbox
    requires s1.down == s.down.(acksGenerated := s1.down.acksGenerated)
    requires |s1.server.requests| - |s.server.requests| == s1.down.acksGenerated - s.down.acksGenerated
    ensures Served(s, t, handled)
  {
    hide RestQueued, FirstOf, Emitted;
  }

  lemma VerdictCounts(s: SessionView, t: SessionView, handled: Handled)
    requires s.settings.downstreamFragmentSize >= 1
    requires t.up == s.up && t.upReasm == s.upReasm && t.down == s.down
    requires t.server == s.server && t.supplicant == s.supplicant
    requires handled.Err? || handled.value == NOTHING_TO_SEND
             || handled.value.action.ActAccept? || handled.value.action.ActReject?
    ensures Served(s, t, handled)
  {
  }

  lemma ReplyCounts(server: Server, s: SessionView, caller: Caller, reply: Reply)
    requires s.settings.downstreamFragmentSize >= 1
    requires HandleUpstreamReply(server, s, caller, reply).1 != Err(NumberTooLarge)
    ensures var (t, handled) := HandleUpstreamReply(server, s, caller, reply); Served(s, t, handled)
  {
    hide Parse, Drain, DeliverRecord, Ingest, Served, RestampTerminal;
    var (t, handled) := HandleUpstreamReply(server, s, caller, reply);
    if !reply.Accept() && !reply.Reject() && reply.eap.Some? && Parse(reply.eap.value).Ok? {
      var pkt := Parse(reply.eap.value).value;
      var (s1, ingested) := IngestDown(s, pkt);
      if ingested.Message? {
        DeliveryCounts(s1, ingested.data);
        ServedLater(s, s1, t, handled);
      } else if ingested.NeedMore? {
        var (s2, drained) := Drain(server, s1, caller, pkt.moreFragments);
        DrainCounts(server, s1, caller, pkt.moreFragments);
        if drained.Record? {
          DeliveryCounts(s2, drained.data);
        } else {
          VerdictCounts(s2, t, handled);
        }
        ServedLater(s, s2, t, handled);
      } else {
        VerdictCounts(s1, t, handled);
        ServedLater(s, s1, t, handled);
      }
    } else {
      VerdictCounts(s, t, handled);
    }
  }

  lemma {:induction false} ChunksCount(server: Server, s: SessionView, caller: Caller,
                                       total: nat, chunks: seq<Bytes>, i: nat)
    requires i < |chunks|
    ensures var t := SendChunks(server, s, caller, total, chunks, i).0;
            && t.up == s.up.(fragmentsOut := t.up.fragmentsOut) && t.upReasm == s.upReasm
            && t.up.fragmentsOut - s.up.fragmentsOut == |t.server.requests| - |s.server.requests|
    decreases |chunks| - i
  {
    hide Exchange, Encode;
    var (s1, reply) := SendChunk(server, s, caller, total, chunks, i);
    if reply.Ok? && i < |chunks| - 1 {
      ChunksCount(server, s1, caller, total, chunks, i + 1);
    }
  }

  // ---- One packet ---------------------------------------------------------

  /** This packet becomes a poll of the server. */
  predicate Polls(s: SessionView, pkt: EapTlsPacket) {
    pkt.IsAck() && s.supplicant.outbox == [] && s.result.None?
  }

  /** Octets of the record that this packet completes. */
  function Completed(s: SessionView, pkt: EapTlsPacket): nat {
    match Ingest(s.settings.maxMessageLen, s.upReasm, pkt).1
    case Message(record) => |record|
    case _ => 0
  }

  /** What the queue is after a packet. */
  ghost predicate QueueAfter(s: SessionView, t: SessionView, pkt: EapTlsPacket, handled: Handled)
    requires s.settings.downstreamFragmentSize >= 1
  {
    if pkt.IsAck() && s.supplicant.outbox != [] then
      // an ACK draws its head
      && t.supplicant.outbox == s.supplicant.outbox[1..] && t.server == s.server
      && t.down.bytesReassembled == s.down.bytesReassembled
      && t.supplicant.nchunks == s.supplicant.nchunks
      && Emitted(handled).Some? && Emitted(handled).value.tlsData == s.supplicant.outbox[0].1
      && (Emitted(handled).value.moreFragments <==> s.supplicant.outbox[0].0 < s.supplicant.nchunks - 1)
    else if Emitted(handled).Some? then
      // a record that came from the server takes its place
      exists record ::
        && RestQueued(t.supplicant, record, s.settings.downstreamFragmentSize)
        && FirstOf(Emitted(handled).value, record, s.settings.downstreamFragmentSize)
        && t.down.bytesReassembled == s.down.bytesReassembled + |record|
    else t.supplicant.outbox == s.supplicant.outbox && t.down.bytesReassembled == s.down.bytesReassembled
  }

  /** What the counters are after a packet. */
  predicate CountersAfter(s: SessionView, t: SessionView, pkt: EapTlsPacket, handled: Handled) {
    && t.up.fragmentsIn == s.up.fragmentsIn + 1
    && t.up.acksGenerated == s.up.acksGenerated + (if AckedLocally(handled) then 1 else 0)
    && AnswersInKind(handled)
    && (AckedLocally(handled) <==> !pkt.IsAck() && Ingest(s.settings.maxMessageLen, s.upReasm, pkt).1.NeedMore?)
    && (AckedLocally(handled) ==> handled.value.eap == Some(BuildAck(REQUEST, NextId(pkt.identifier))))
    && t.upReasm == Ingest(s.settings.maxMessageLen, s.upReasm, pkt).0
    && (handled.Ok? ==> !Ingest(s.settings.maxMessageLen, s.upReasm, pkt).1.Raised?)
    && t.up.bytesReassembled == s.up.bytesReassembled + (if pkt.IsAck() then 0 else Completed(s, pkt))
    && t.down.fragmentsOut == s.down.fragmentsOut + (if Emitted(handled).Some? then 1 else 0)
    && |t.server.requests| - |s.server.requests| + EmittedMore(handled)
    == t.up.fragmentsOut - s.up.fragmentsOut + (if Polls(s, pkt) then 1 else 0) + t.down.acksGenerated - s.down.acksGenerated
  }

  lemma AckCounts(server: Server, s: SessionView, caller: Caller, pkt: EapTlsPacket)
    requires s.settings.downstreamFragmentSize >= 1 && pkt.IsAck() && s.supplicant.outbox == []
    requires HandleAck(server, s, caller).1 != Err(NumberTooLarge)
    ensures var (t, handled) := HandleAck(server, s, caller);
            && QueueAfter(s, t, pkt, handled) && t.up == s.up && t.upReasm == s.upReasm
            && !AckedLocally(handled) && AnswersInKind(handled)
            && t.down.fragmentsOut == s.down.fragmentsOut + (if Emitted(handled).Some? then 1 else 0)
            && |t.server.requests| - |s.server.requests| + EmittedMore(handled)
            == (if Polls(s, pkt) then 1 else 0) + t.down.acksGenerated - s.down.acksGenerated
  {
    hide HandleUpstreamReply, Exchange, BuildAck, Parse, RestQueued, FirstOf, RestampTerminal;
    if s.result.None? {
      var (leg, id) := PickUpstreamId(s.server);
      var (leg', reply) := Exchange(server, leg, caller, BuildAck(RESPONSE, id));
      if reply.Some? {
        ReplyCounts(server, s.(server := leg'), caller, reply.value);
      }
    } else {
      assert s.result.value.Accepted? || s.result.value.Rejected?;
    }
  }

  lemma ForwardCounts(server: Server, s: SessionView, caller: Caller, record: Bytes)
    requires s.settings.downstreamFragmentSize >= 1
    requires ForwardRecordUpstream(server, s, caller, record).1 != Err(NumberTooLarge)
    ensures var (t, handled) := ForwardRecordUpstream(server, s, caller, record);
            && t.up == s.up.(fragmentsOut := t.up.fragmentsOut) && t.upReasm == s.upReasm
            && !AckedLocally(handled) && AnswersInKind(handled)
            && t.down.fragmentsOut == s.down.fragmentsOut + (if Emitted(handled).Some? then 1 else 0)
            && |t.server.requests| - |s.server.requests| + EmittedMore(handled)
            == t.up.fragmentsOut - s.up.fragmentsOut + t.down.acksGenerated - s.down.acksGenerated
            && (Emitted(handled).None? ==>
                  t.supplicant.outbox == s.supplicant.outbox && t.down.bytesReassembled == s.down.bytesReassembled)
            && (Emitted(handled).Some? ==>
                  exists delivered ::
                    && RestQueued(t.supplicant, delivered, s.settings.downstreamFragmentSize)
                    && FirstOf(Emitted(handled).value, delivered, s.settings.downstreamFragmentSize)
                    && t.down.bytesReassembled == s.down.bytesReassembled + |delivered|)
  {
    hide HandleUpstreamReply, SendChunks, Parse, RestQueued, FirstOf, Chunks;
    var fragmented := Fragment(record, s.settings.upstreamFragmentSize);
    if fragmented.Ok? {
      ChunksCount(server, s, caller, |record|, fragmented.value, 0);
      var (s1, reply) := SendChunks(server, s, caller, |record|, fragmented.value, 0);
      if reply.Ok? {
        ReplyCounts(server, s1, caller, reply.value);
      }
    }
  }

  lemma AckDraws(server: Server, s: SessionView, caller: Caller)
    requires s.supplicant.outbox != []
    ensures HandleAck(server, s, caller) == SendNextDownstreamFragment(s)
  {
  }

  lemma DataCounts(server: Server, s: SessionView, caller: Caller, pkt: EapTlsPacket)
    requires s.settings.mode.Reassemble? && s.settings.downstreamFragmentSize >= 1 && !pkt.IsAck()
    requires HandleData(server, NotePacket(s, pkt), caller, pkt).1 != Err(NumberTooLarge)
    ensures var (t, handled) := HandleData(server, NotePacket(s, pkt), caller, pkt);
            QueueAfter(s, t, pkt, handled) && CountersAfter(s, t, pkt, handled)
  {
    hide ForwardRecordUpstream, Ingest, BuildAck, Parse, RestQueued, FirstOf;
    var s1 := NotePacket(s, pkt);
    var (r, ingested) := Ingest(s.settings.maxMessageLen, s.upReasm, pkt);
    if ingested.Message? {
      var s2 := s1.(upReasm := r, up := s1.up.(bytesReassembled := s1.up.bytesReassembled + |ingested.data|));
      ForwardCounts(server, s2, caller, ingested.data);
    }
  }

  lemma AnsweredPacketCounts(server: Server, s: SessionView, caller: Caller, eap: Bytes)
    requires s.settings.mode.Reassemble? && s.settings.downstreamFragmentSize >= 1 && Parse(eap).Ok?
    requires HandleSupplicantEap(server, s, caller, eap).1 != Err(NumberTooLarge)
    ensures var (t, handled) := HandleSupplicantEap(server, s, caller, eap);
            QueueAfter(s, t, Parse(eap).value, handled) && CountersAfter(s, t, Parse(eap).value, handled)
  {
    hide Parse, HandleAck, ForwardRecordUpstream, BuildAck, SendNextDownstreamFragment, RestQueued, FirstOf;
    var pkt := Parse(eap).value;
    var s1 := NotePacket(s, pkt);
    if pkt.IsAck() {
      if s.supplicant.outbox == [] {
        AckCounts(server, s1, caller, pkt);
      } else {
        AckDraws(server, s1, caller);
        DrawCounts(s1);
      }
    } else {
      DataCounts(server, s, caller, pkt);
    }
  }

  // ---- Within the limits --------------------------------------------------

  /** Sizes as configured, and nothing held whose length does not fit the TLS Message Length. */
  predicate WithinLimits(s: SessionView) {
    && 1 <= s.settings.upstreamFragmentSize <= 65000 && 1 <= s.settings.downstreamFragmentSize <= 65000
    && s.settings.maxMessageLen < U32_LIMIT && |s.downReasm.buffer| < U32_LIMIT && s.supplicant.total < U32_LIMIT
    && forall j :: 0 <= j < |s.supplicant.outbox| ==> |s.supplicant.outbox[j].1| <= 65000
  }

  lemma ParsesOrSaysWhy(packet: Bytes)
    ensures Parse(packet) != Err(NumberTooLarge)
  {
  }

  lemma DeliveryPrints(s: SessionView, record: Bytes)
    requires 1 <= s.settings.downstreamFragmentSize <= 65000 && |record| < U32_LIMIT
    ensures DeliverRecord(s, record).1 != Err(NumberTooLarge)
  {
    hide Encode, Chunks;
    var chunks := Chunks(record, s.settings.downstreamFragmentSize);
    ChunksCutExactly(record, s.settings.downstreamFragmentSize);
    assert chunks[0] in chunks;
  }

  lemma {:induction false} DrainPrints(server: Server, s: SessionView, caller: Caller, more: bool)
    requires s.settings.maxMessageLen < U32_LIMIT && |s.downReasm.buffer| < U32_LIMIT
    ensures match Drain(server, s, caller, more).1
            case Record(data) => |data| < U32_LIMIT
            case DrainRaised(e) => e != NumberTooLarge
            case Terminal => true
    decreases if |s.server.requests| <= server.lifetime then server.lifetime - |s.server.requests| + 1 else 0
  {
    hide Exchange, Parse, BuildAck;
    if more {
      var (s1, reply) := AckUpstream(server, s, caller);
      if reply.Some? {
        if reply.value.eap.Some? {
          ParsesOrSaysWhy(reply.value.eap.value);
        }
        var (s2, turn) := TakeFragment(s1, reply.value);
        if turn.Pulled? {
          DrainPrints(server, s2, caller, turn.more);
        }
      }
    }
  }

  lemma ReplyPrints(server: Server, s: SessionView, caller: Caller, reply: Reply)
    requires 1 <= s.settings.downstreamFragmentSize <= 65000
    requires s.settings.maxMessageLen < U32_LIMIT && |s.downReasm.buffer| < U32_LIMIT
    ensures HandleUpstreamReply(server, s, caller, reply).1 != Err(NumberTooLarge)
  {
    hide Parse, Drain, DeliverRecord, RestampTerminal;
    if !reply.Accept() && !reply.Reject() && reply.eap.Some? {
      ParsesOrSaysWhy(reply.eap.value);
      if Parse(reply.eap.value).Ok? {
        var pkt := Parse(reply.eap.value).value;
        var (s1, ingested) := IngestDown(s, pkt);
        if ingested.Message? {
          DeliveryPrints(s1, ingested.data);
        } else if ingested.NeedMore? {
          DrainPrints(server, s1, caller, pkt.moreFragments);
          var (s2, drained) := Drain(server, s1, caller, pkt.moreFragments);
          if drained.Record? {
            DeliveryPrints(s2, drained.data);
          }
        }
      }
    }
  }

  lemma {:induction false} ChunksPrint(server: Server, s: SessionView, caller: Caller, record: Bytes, size: nat, i: nat)
    requires 1 <= size <= 65000 && |record| < U32_LIMIT && i < |Chunks(record, size)|
    ensures SendChunks(server, s, caller, |record|, Chunks(record, size), i).1 != Err(NumberTooLarge)
    decreases |Chunks(record, size)| - i
  {
    hide Exchange, Encode, Chunks;
    var chunks := Chunks(record, size);
    ChunksCutExactly(record, size);
    assert chunks[i] in chunks;
    var (s1, reply) := SendChunk(server, s, caller, |record|, chunks, i);
    if reply.Ok? && i < |chunks| - 1 {
      ChunksPrint(server, s1, caller, record, size, i + 1);
    }
  }

  lemma DrawPrints(s: SessionView)
    requires WithinLimits(s)
    ensures SendNextDownstreamFragment(s).1 != Err(NumberTooLarge)
  {
    hide Encode;
  }

  /** Within the limits no packet makes a number overflow its field. */
  lemma NothingIsTooLarge(server: Server, s: SessionView, caller: Caller, eap: Bytes)
    requires s.settings.mode.Reassemble? && WithinLimits(s)
    ensures HandleSupplicantEap(server, s, caller, eap).1 != Err(NumberTooLarge)
  {
    hide Parse, Exchange, SendChunks, HandleUpstreamReply, SendNextDownstreamFragment, BuildAck, Chunks, RestampTerminal;
    ParsesOrSaysWhy(eap);
    if Parse(eap).Ok? {
      var pkt := Parse(eap).value;
      var s1 := NotePacket(s, pkt);
      if pkt.IsAck() {
        DrawPrints(s1);
        var (leg, id) := PickUpstreamId(s1.server);
        var (leg', reply) := Exchange(server, leg, caller, BuildAck(RESPONSE, id));
        if reply.Some? {
          ReplyPrints(server, s1.(server := leg'), caller, reply.value);
        }
      } else {
        ForwardPrints(server, s1, caller, pkt);
      }
    }
  }

  lemma ForwardPrints(server: Server, s: SessionView, caller: Caller, pkt: EapTlsPacket)
    requires WithinLimits(s) && !pkt.IsAck()
    ensures HandleData(server, s, caller, pkt).1 != Err(NumberTooLarge)
  {
    hide SendChunks, HandleUpstreamReply, BuildAck, Chunks;
    var (r, ingested) := Ingest(s.settings.maxMessageLen, s.upReasm, pkt);
    if ingested.Message? {
      var record, size := ingested.data, s.settings.upstreamFragmentSize;
      var s1 := s.(upReasm := r, up := s.up.(bytesReassembled := s.up.bytesReassembled + |record|));
      ChunksPrint(server, s1, caller, record, size, 0);
      var (s2, reply) := SendChunks(server, s1, caller, |record|, Chunks(record, size), 0);
      if reply.Ok? {
        ReplyPrints(server, s2, caller, reply.value);
      }
    }
  }

  /**
   Any parsed packet in reassemble mode, against any server: the queue is what it was, or loses its head to an
   ACK, or is replaced by the rest of a record from the server; each counter moves by what was
   handed back and what went up.
   */
  lemma PacketCounts(server: Server, s: SessionView, caller: Caller, eap: Bytes)
    requires s.settings.mode.Reassemble? && WithinLimits(s) && Parse(eap).Ok?
    ensures var (t, handled) := HandleSupplicantEap(server, s, caller, eap);
            QueueAfter(s, t, Parse(eap).value, handled) && CountersAfter(s, t, Parse(eap).value, handled)
  {
    hide HandleSupplicantEap, Parse, QueueAfter, CountersAfter;
    NothingIsTooLarge(server, s, caller, eap);
    AnsweredPacketCounts(server, s, caller, eap);
  }

  // ---- When the queue is lost ---------------------------------------------

  /** A packet that has made the proxy throw its queue away. */
  predicate Replaces(s: SessionView, pkt: EapTlsPacket, handled: Handled) {
    s.supplicant.outbox != [] && !pkt.IsAck() && Emitted(handled).Some?
  }

  /**
   Octets on their way down are conserved by any packet, against any server: those queued before and those
   of a record taken from the server are handed out or queued afterwards, except for the old queue
   when a data packet brings a record while it is not empty. Then it is lost.
   */
  lemma QueueIsConserved(server: Server, s: SessionView, caller: Caller, eap: Bytes)
    requires s.settings.mode.Reassemble? && WithinLimits(s) && Parse(eap).Ok?
    ensures var (t, handled) := HandleSupplicantEap(server, s, caller, eap);
            var emitted := if Emitted(handled).Some? then |Emitted(handled).value.tlsData| else 0;
            var lost := if Replaces(s, Parse(eap).value, handled) then OctetsIn(s.supplicant.outbox) else 0;
            OctetsIn(s.supplicant.outbox) + t.down.bytesReassembled - s.down.bytesReassembled
            == emitted + OctetsIn(t.supplicant.outbox) + lost
  {
    hide HandleSupplicantEap, Parse, Emitted, Chunks;
    PacketCounts(server, s, caller, eap);
    var (t, handled) := HandleSupplicantEap(server, s, caller, eap);
    var size := s.settings.downstreamFragmentSize;
    if Emitted(handled).Some? && !(Parse(eap).value.IsAck() && s.supplicant.outbox != []) {
      var record :| RestQueued(t.supplicant, record, size) && FirstOf(Emitted(handled).value, record, size)
                    && t.down.bytesReassembled == s.down.bytesReassembled + |record|;
      RestMakesTheRecord(record, size);
    }
  }

  lemma RestMakesTheRecord(record: Bytes, size: nat)
    requires size >= 1
    ensures |Chunks(record, size)[0]| + OctetsIn(Enumerate(Chunks(record, size))[1..]) == |record|
  {
    hide Chunks;
    var chunks := Chunks(record, size);
    ChunksCutExactly(record, size);
    OctetsOfChunks(chunks, 1);
    assert Join(chunks) == chunks[0] + Join(chunks[1..]);
  }

  /** What can be told before the call: no server can make this packet cost the queue. */
  predicate SafeForQueue(s: SessionView, pkt: EapTlsPacket) {
    || pkt.IsAck() || s.supplicant.outbox == []
    || !Ingest(s.settings.maxMessageLen, s.upReasm, pkt).1.Message?
  }

  /**
   The queue survives a packet whatever the server does if and only if the packet is an ACK, or the queue is
   empty, or the packet does not complete a record. Otherwise an answer that brings anything to
   deliver throws it away.
   */
  lemma QueueIsSafeExactly(s: SessionView, caller: Caller, eap: Bytes)
    requires s.settings.mode.Reassemble? && WithinLimits(s) && Parse(eap).Ok?
    ensures (forall server: Server :: !Replaces(s, Parse(eap).value, HandleSupplicantEap(server, s, caller, eap).1))
       <==> SafeForQueue(s, Parse(eap).value)
  {
    hide HandleSupplicantEap, Parse, Ingest;
    var pkt := Parse(eap).value;
    if SafeForQueue(s, pkt) {
      forall server: Server ensures !Replaces(s, pkt, HandleSupplicantEap(server, s, caller, eap).1) {
        if !pkt.IsAck() && s.supplicant.outbox != [] {
          IncompleteDeliversNothing(server, s, caller, eap);
        }
      }
    } else {
      var server := EmptyReplace(s, caller, eap);
      assert Replaces(s, pkt, HandleSupplicantEap(server, s, caller, eap).1);
    }
  }

  lemma IncompleteDeliversNothing(server: Server, s: SessionView, caller: Caller, eap: Bytes)
    requires s.settings.mode.Reassemble? && Parse(eap).Ok? && !Parse(eap).value.IsAck()
    requires !Ingest(s.settings.maxMessageLen, s.upReasm, Parse(eap).value).1.Message?
    ensures Emitted(HandleSupplicantEap(server, s, caller, eap).1).None?
  {
    hide Parse, Ingest, ForwardRecordUpstream, BuildAck;
  }

  /** A server that answers everything with an empty EAP-TLS packet. */
  function EmptyAnswer(): Answer {
    Answer(ACCESS_CHALLENGE, map[Plain(EAP_MESSAGE) := [BuildAck(REQUEST, 1)]])
  }

  function Emptying(lifetime: nat): Server {
    Server(requests => Some(EmptyAnswer()), lifetime)
  }

  lemma EmptyFacts()
    ensures EmptyAnswer().Eap().Some?
    ensures Parse(EmptyAnswer().Eap().value) == Ok(BuiltPacket(REQUEST, 1, [], false, None, false))
  {
    ParseBuilt(REQUEST, 1, [], false, None, false);
    LoneValue(EmptyAnswer().attrs, BuildAck(REQUEST, 1));
  }

  lemma {:induction false} EmptyingAnswers(s: SessionView, caller: Caller, record: Bytes, size: nat, i: nat, lifetime: nat)
    requires 1 <= size <= 65000 && |record| < U32_LIMIT && i < |Chunks(record, size)|
    requires |s.server.requests| + |Chunks(record, size)| - i <= lifetime
    ensures SendChunks(Emptying(lifetime), s, caller, |record|, Chunks(record, size), i).1 == Ok(ReplyOf(EmptyAnswer()))
    decreases |Chunks(record, size)| - i
  {
    hide Encode, Chunks, EmptyAnswer, Parse, Absorb;
    var chunks := Chunks(record, size);
    ChunksCutExactly(record, size);
    assert chunks[i] in chunks;
    var (s1, reply) := SendChunk(Emptying(lifetime), s, caller, |record|, chunks, i);
    assert reply == Ok(ReplyOf(EmptyAnswer()));
    if i < |chunks| - 1 {
      EmptyingAnswers(s1, caller, record, size, i + 1, lifetime);
    }
  }

  /** It makes the proxy deliver its old buffer once more, and the queue is gone. */
  lemma EmptyReplace(s: SessionView, caller: Caller, eap: Bytes) returns (server: Server)
    requires s.settings.mode.Reassemble? && WithinLimits(s) && Parse(eap).Ok?
    requires !SafeForQueue(s, Parse(eap).value)
    ensures Replaces(s, Parse(eap).value, HandleSupplicantEap(server, s, caller, eap).1)
  {
    hide Parse, SendChunks, HandleUpstreamReply, DeliverRecord, Chunks, Emitted;
    var pkt := Parse(eap).value;
    var s1 := NotePacket(s, pkt);
    var (r, ingested) := Ingest(s.settings.maxMessageLen, s1.upReasm, pkt);
    var record, size := ingested.data, s.settings.upstreamFragmentSize;
    var s2 := s1.(upReasm := r, up := s1.up.(bytesReassembled := s1.up.bytesReassembled + |record|));
    var lifetime := |s.server.requests| + |Chunks(record, size)|;
    server := Emptying(lifetime);
    EmptyingAnswers(s2, caller, record, size, 0, lifetime);
    var (s3, reply) := SendChunks(server, s2, caller, |record|, Chunks(record, size), 0);
    EmptyFacts();
    EmptyPacketRepeatsBuffer(server, s3, caller, reply.value);
    assert HandleSupplicantEap(server, s, caller, eap) == DeliverRecord(s3, s3.downReasm.buffer);
    DeliveryPrints(s3, s3.downReasm.buffer);
    DeliveryCounts(s3, s3.downReasm.buffer);
  }
}
