/**
 That the sizes and lengths in the sessions of a configured proxy stay within their fields, over any run and
 against any auth server whose packets fit RADIUS.
 */
module LimitLaws {
  import opened Prelude
  import opened Octets
  import opened EapTls
  import opened Reassembly
  import opened SessionState
  import opened MediatorSpec
  import opened DownstreamSpec
  import opened DownstreamLaws
  import opened CountingLaws

  /** No EAP packet of the server's is longer than a RADIUS packet can be. */
  ghost predicate FromRadius(server: Server) {
    forall requests :: var answer := server.answer(requests);
      answer.Some? && answer.value.Eap().Some? ==> |answer.value.Eap().value| < U16_LIMIT
  }

  predicate FitsRadiusAnswer(reply: Reply) {
    reply.eap.Some? ==> |reply.eap.value| < U16_LIMIT
  }

  /** Fragment sizes as the configuration checks them, and a limit that fits the TLS Message Length. */
  predicate Limited(settings: Settings) {
    && 1 <= settings.upstreamFragmentSize <= 65000 && 1 <= settings.downstreamFragmentSize <= 65000
    && settings.maxMessageLen < U32_LIMIT
  }

  /** So many octets bound all that the session holds of the server's. */
  predicate Roomy(s: SessionView, m: nat) {
    && Limited(s.settings) && s.settings.maxMessageLen <= m
    && |s.downReasm.buffer| <= m && s.supplicant.total <= m
    && forall j :: 0 <= j < |s.supplicant.outbox| ==> |s.supplicant.outbox[j].1| <= 65000
  }

  lemma RoomyIsWithin(s: SessionView, m: nat)
    requires Roomy(s, m) && m < U32_LIMIT
    ensures WithinLimits(s)
  {
  }

  lemma ExchangeFits(server: Server, leg: ServerLeg, caller: Caller, eap: Bytes)
    requires FromRadius(server)
    ensures var reply := Exchange(server, leg, caller, eap).1; reply.Some? ==> FitsRadiusAnswer(reply.value)
  {
  }

  lemma DataFits(packet: Bytes)
    requires |packet| < U16_LIMIT && Parse(packet).Ok?
    ensures |Parse(packet).value.tlsData| < U16_LIMIT
  {
  }

  /** The one packet by which a raise may overshoot. */
  lemma IngestStays(s: SessionView, pkt: EapTlsPacket, m: nat)
    requires Roomy(s, m) && |pkt.tlsData| < U16_LIMIT
    ensures var (t, ingested) := IngestDown(s, pkt);
            && Roomy(t, m + U16_LIMIT)
            && (!ingested.Raised? ==> Roomy(t, m))
            && (ingested.Message? ==> |ingested.data| <= m)
  {
  }

  lemma {:induction false} DrainStays(server: Server, s: SessionView, caller: Caller, more: bool, m: nat)
    requires FromRadius(server) && Roomy(s, m)
    ensures var (t, drained) := Drain(server, s, caller, more);
            && Roomy(t, m + U16_LIMIT)
            && (!drained.DrainRaised? ==> Roomy(t, m))
            && (drained.Record? ==> |drained.data| <= m)
    decreases if |s.server.requests| <= server.lifetime then server.lifetime - |s.server.requests| + 1 else 0
  {
    hide Exchange, Parse, BuildAck, IngestDown, FromRadius;
    if more {
      var (leg, id) := PickUpstreamId(s.server);
      ExchangeFits(server, leg, caller, BuildAck(RESPONSE, id));
      var (s1, reply) := AckUpstream(server, s, caller);
      if reply.Some? {
        TurnStays(s1, reply.value, m);
        var (s2, turn) := TakeFragment(s1, reply.value);
        if turn.Pulled? {
          DrainStays(server, s2, caller, turn.more, m);
        }
      }
    }
  }

  lemma TurnStays(s: SessionView, reply: Reply, m: nat)
    requires Roomy(s, m) && FitsRadiusAnswer(reply)
    ensures var (t, turn) := TakeFragment(s, reply);
            && Roomy(t, m + U16_LIMIT)
            && (turn.Pulled? || !turn.drained.DrainRaised? ==> Roomy(t, m))
            && (turn.Ended? && turn.drained.Record? ==> |turn.drained.data| <= m)
  {
    hide Parse, IngestDown;
    if !reply.Accept() && !reply.Reject() && reply.eap.Some? && Parse(reply.eap.value).Ok? {
      DataFits(reply.eap.value);
      IngestStays(s, Parse(reply.eap.value).value, m);
    }
  }

  lemma DeliveryStays(s: SessionView, record: Bytes, m: nat)
    requires Roomy(s, m) && |record| <= m
    ensures Roomy(DeliverRecord(s, record).0, m)
  {
    hide Chunks, Build;
    var chunks := Chunks(record, s.settings.downstreamFragmentSize);
    ChunksCutExactly(record, s.settings.downstreamFragmentSize);
    forall j | 0 <= j < |chunks| ensures |Enumerate(chunks)[j].1| <= 65000 {
      assert chunks[j] in chunks;
    }
  }

  lemma ReplyStays(server: Server, s: SessionView, caller: Caller, reply: Reply, m: nat)
    requires FromRadius(server) && Roomy(s, m) && FitsRadiusAnswer(reply)
    ensures Roomy(HandleUpstreamReply(server, s, caller, reply).0, m + U16_LIMIT)
  {
    hide Parse, IngestDown, Drain, DeliverRecord, FromRadius, RestampTerminal;
    if !reply.Accept() && !reply.Reject() && reply.eap.Some? && Parse(reply.eap.value).Ok? {
      var pkt := Parse(reply.eap.value).value;
      DataFits(reply.eap.value);
      IngestStays(s, pkt, m);
      var (s1, ingested) := IngestDown(s, pkt);
      if ingested.Message? {
        DeliveryStays(s1, ingested.data, m);
      } else if ingested.NeedMore? {
        DrainStays(server, s1, caller, pkt.moreFragments, m);
        var (s2, drained) := Drain(server, s1, caller, pkt.moreFragments);
        if drained.Record? {
          DeliveryStays(s2, drained.data, m);
        }
      }
    }
  }

  lemma {:induction false} ChunksFit(server: Server, s: SessionView, caller: Caller, total: nat,
                                     chunks: seq<Bytes>, i: nat)
    requires FromRadius(server) && i < |chunks|
    ensures var reply := SendChunks(server, s, caller, total, chunks, i).1;
            reply.Ok? ==> FitsRadiusAnswer(reply.value)
    decreases |chunks| - i
  {
    hide Exchange, Build, FromRadius;
    var (leg, id) := PickUpstreamId(s.server);
    var more, length := i < |chunks| - 1, if i == 0 then Some(total) else None;
    var built := Build(RESPONSE, id, chunks[i], more, length, false);
    if built.Ok? {
      ExchangeFits(server, leg, caller, built.value);
    }
    var (s1, reply) := SendChunk(server, s, caller, total, chunks, i);
    if reply.Ok? && i < |chunks| - 1 {
      ChunksFit(server, s1, caller, total, chunks, i + 1);
    }
  }

  lemma ForwardStays(server: Server, s: SessionView, caller: Caller, record: Bytes, m: nat)
    requires FromRadius(server) && Roomy(s, m)
    ensures Roomy(ForwardRecordUpstream(server, s, caller, record).0, m + U16_LIMIT)
  {
    hide SendChunks, HandleUpstreamReply, FromRadius, Chunks;
    var chunks := Chunks(record, s.settings.upstreamFragmentSize);
    ChunksFit(server, s, caller, |record|, chunks, 0);
    var (s1, reply) := SendChunks(server, s, caller, |record|, chunks, 0);
    if reply.Ok? {
      ReplyStays(server, s1, caller, reply.value, m);
    }
  }

  lemma PollStays(server: Server, s: SessionView, caller: Caller, m: nat)
    requires FromRadius(server) && Roomy(s, m)
    ensures Roomy(HandleAck(server, s, caller).0, m + U16_LIMIT)
  {
    hide Exchange, HandleUpstreamReply, FromRadius, BuildAck, Build;
    if s.supplicant.outbox == [] {
      var (leg, id) := PickUpstreamId(s.server);
      ExchangeFits(server, leg, caller, BuildAck(RESPONSE, id));
      var (leg', reply) := Exchange(server, leg, caller, BuildAck(RESPONSE, id));
      if reply.Some? {
        ReplyStays(server, s.(server := leg'), caller, reply.value, m);
      }
    }
  }

  /**
   Any packet on any route, in either mode: what the session holds of the server's grows past its bound by one
   packet at most. The bound grows at all because a reassembler that has overflowed keeps what overflowed it.
   */
  lemma RouteStays(server: Server, s: SessionView, caller: Caller, eap: Bytes, m: nat)
    requires FromRadius(server) && Roomy(s, m)
    ensures Roomy(Route(server, s, caller, eap).0, m + U16_LIMIT)
  {
    hide Exchange, Parse, HandleAck, ForwardRecordUpstream, Ingest, FromRadius, BuildAck;
    if Parse(eap).Ok? && s.settings.mode.Reassemble? {
      var pkt := Parse(eap).value;
      var s1 := NotePacket(s, pkt);
      if pkt.IsAck() {
        PollStays(server, s1, caller, m);
      } else {
        var (r, ingested) := Ingest(s1.settings.maxMessageLen, s1.upReasm, pkt);
        if ingested.Message? {
          var s2 := s1.(upReasm := r, up := s1.up.(bytesReassembled := s1.up.bytesReassembled + |ingested.data|));
          ForwardStays(server, s2, caller, ingested.data, m);
        }
      }
    }
  }

  // ---- Whole runs ---------------------------------------------------------

  predicate TableIsRoomy(table: Table, m: nat) {
    forall key :: key in table ==> Roomy(table[key], m)
  }

  lemma DatagramStays(server: Server, settings: Settings, table: Table, req: Incoming, token: Bytes, m: nat)
    requires FromRadius(server) && Limited(settings) && settings.maxMessageLen <= m && TableIsRoomy(table, m)
    ensures TableIsRoomy(HandleDatagram(server, settings, table, req, token).0, m + U16_LIMIT)
  {
    hide Route, KeyFor, StateKey, FromRadius;
    if !req.Dropped() {
      var s0 := Subject(settings, table, req);
      RouteStays(server, s0, req.Caller(), req.Eap(), m);
    }
  }

  ghost predicate AllFromRadius(events: seq<Event>) {
    forall e :: e in events && e.Arrival? ==> FromRadius(e.server)
  }

  /** After any n events on the empty table every session holds at most so much. */
  lemma {:induction false} RunStays(settings: Settings, table: Table, events: seq<Event>, m: nat)
    requires Limited(settings) && settings.maxMessageLen <= m && TableIsRoomy(table, m) && AllFromRadius(events)
    ensures TableIsRoomy(Serve(settings, table, events), m + |events| * U16_LIMIT)
    decreases |events|
  {
    hide HandleDatagram, FromRadius, Roomy;
    if events != [] {
      assert events[0] in events;
      if events[0].Arrival? {
        DatagramStays(events[0].server, settings, table, events[0].req, events[0].token, m);
      } else {
        MoreRoom(table, m, m + U16_LIMIT);
      }
      RunStays(settings, DownstreamLaws.After(settings, table, events[0]), events[1..], m + U16_LIMIT);
      assert m + U16_LIMIT + (|events| - 1) * U16_LIMIT == m + |events| * U16_LIMIT;
    }
  }

  lemma MoreRoom(table: Table, m: nat, n: nat)
    requires TableIsRoomy(table, m) && m <= n
    ensures TableIsRoomy(table, n)
  {
  }

  /**
   So in any run from the empty table every session is within its limits for as long as the largest message and
   one RADIUS packet for each event stay below 2^32 octets.
   */
  lemma SessionsAreWithinLimits(settings: Settings, events: seq<Event>, key: string)
    requires Limited(settings) && AllFromRadius(events)
    requires settings.maxMessageLen + |events| * U16_LIMIT < U32_LIMIT && key in Serve(settings, map[], events)
    ensures WithinLimits(Serve(settings, map[], events)[key])
  {
    hide Serve, AllFromRadius, Roomy, WithinLimits;
    RunStays(settings, map[], events, settings.maxMessageLen);
    RoomyIsWithin(Serve(settings, map[], events)[key], settings.maxMessageLen + |events| * U16_LIMIT);
  }
}
