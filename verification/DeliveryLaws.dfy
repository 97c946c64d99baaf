/**
 What any one packet of the supplicant's brings it in reassemble mode, against any auth server whatever,
 and what a repeated packet does.
 */
module DeliveryLaws {
  import opened Prelude
  import opened Octets
  import opened EapTls
  import opened Reassembly
  import opened SessionState
  import opened MediatorSpec
  import opened SupplicantLegLaws
  import opened UpwardLaws
  import opened DrainLaws
  import opened VerdictLaws
  import opened MessageLaws
  import opened CountingLaws

  /**
   A record delivered in answer to a packet: `m` is the first of its requests that is not a fragment with M,
   and the flight begins with the answer to that.
   */
  predicate DeliveredSince(s: SessionView, t: SessionView, m: nat, record: Bytes) {
    && Aligned(t.server) && Longer(s, t)
    && |s.server.answers| <= m < |t.server.answers|
    && (forall i :: |s.server.answers| <= i < m ==> BearsMore(t.server.requests[i]))
    && !BearsMore(t.server.requests[m])
    && MadeOf(s.downReasm, t.downReasm, t.server.answers[m..], record)
  }

  lemma PollDelivers(server: Server, s: SessionView, caller: Caller) returns (s': SessionView, record: Bytes)
    requires Aligned(s.server) && s.supplicant.outbox == []
    ensures var (t, handled) := HandleAck(server, s, caller);
            handled.Ok? && handled.value.action.ActChallenge? ==>
              (t, handled) == DeliverRecord(s', record) && DeliveredSince(s, t, |s.server.answers|, record)
  {
    hide Exchange, HandleUpstreamReply, BearsMore, BuildAck, DeliverRecord, MadeOf;
    s', record := s, [];
    if s.result.None? {
      var (leg, id) := PickUpstreamId(s.server);
      ExchangeLogs(server, leg, caller, BuildAck(RESPONSE, id));
      var (leg', reply) := Exchange(server, leg, caller, BuildAck(RESPONSE, id));
      AckBearsNoMore(leg'.requests[|leg.requests|], id);
      if reply.Some? {
        ReplyVerdicts(server, s.(server := leg'), caller, reply.value);
        s', record := RecordDelivered(server, s.(server := leg'), caller, reply.value);
      }
    } else {
      assert s.result.value.Accepted? || s.result.value.Rejected?;
    }
  }

  lemma ForwardDelivers(server: Server, s: SessionView, caller: Caller, sent: Bytes)
    returns (m: nat, s': SessionView, record: Bytes)
    requires Aligned(s.server)
    ensures var (t, handled) := ForwardRecordUpstream(server, s, caller, sent);
            handled.Ok? && handled.value.action.ActChallenge? ==>
              (t, handled) == DeliverRecord(s', record) && DeliveredSince(s, t, m, record)
  {
    hide SendChunks, HandleUpstreamReply, BearsMore, DeliverRecord, MadeOf, Chunks;
    m, s', record := 0, s, [];
    var fragmented := Fragment(sent, s.settings.upstreamFragmentSize);
    if fragmented.Ok? {
      ChunksLog(server, s, caller, |sent|, fragmented.value, 0);
      var (s1, reply) := SendChunks(server, s, caller, |sent|, fragmented.value, 0);
      if reply.Ok? {
        m := |s1.server.answers| - 1;
        ReplyVerdicts(server, s1, caller, reply.value);
        s', record := RecordDelivered(server, s1, caller, reply.value);
      }
    }
  }

  /**
   Against any server and in any state, a record that a packet brings the supplicant from the server is made of
   the flight that came back for the last chunk, or the poll, that went up for it.
   */
  lemma PacketDelivers(server: Server, s: SessionView, caller: Caller, eap: Bytes)
    returns (m: nat, s': SessionView, record: Bytes)
    requires s.settings.mode.Reassemble? && Aligned(s.server) && Parse(eap).Ok?
    requires !(Parse(eap).value.IsAck() && s.supplicant.outbox != [])
    ensures var (t, handled) := HandleSupplicantEap(server, s, caller, eap);
            handled.Ok? && handled.value.action.ActChallenge? ==>
              && (t, handled) == DeliverRecord(s', record) && DeliveredSince(s, t, m, record)
              && (Parse(eap).value.IsAck() ==> m == |s.server.answers|)
  {
    hide Parse, HandleAck, ForwardRecordUpstream, Ingest, DeliverRecord, MadeOf, BearsMore, BuildAck;
    var pkt := Parse(eap).value;
    var s1 := NotePacket(s, pkt);
    m, s', record := |s.server.answers|, s, [];
    if pkt.IsAck() {
      s', record := PollDelivers(server, s1, caller);
    } else {
      var (r, ingested) := Ingest(s1.settings.maxMessageLen, s1.upReasm, pkt);
      if ingested.Message? {
        var s2 := s1.(upReasm := r, up := s1.up.(bytesReassembled := s1.up.bytesReassembled + |ingested.data|));
        m, s', record := ForwardDelivers(server, s2, caller, ingested.data);
      }
    }
  }

  // ---- Whole messages -----------------------------------------------------

  /** Answers nobody reads leave the reassembler as it was. */
  lemma {:induction false} UnreadLeavesIt(max: nat, requests: seq<Request>, answers: seq<Option<Answer>>, n: nat)
    requires |requests| == |answers| && n <= |answers|
    requires forall i :: n <= i < |answers| ==> BearsMore(requests[i])
    ensures ReasmOf(max, requests, answers) == ReasmOf(max, requests[..n], answers[..n])
    decreases |answers|
  {
    hide BearsMore, IsData, Ingest;
    if n == |answers| {
      assert requests[..n] == requests && answers[..n] == answers;
    } else {
      var k := |answers| - 1;
      UnreadLeavesIt(max, requests[..k], answers[..k], n);
      assert requests[..k][..n] == requests[..n] && answers[..k][..n] == answers[..n];
    }
  }

  lemma FlightIsRun(before: Reasm, after: Reasm, flight: seq<Option<Answer>>, record: Bytes)
    requires flight != [] && MadeOf(before, after, flight, record)
    ensures forall a :: a in flight[..|flight| - 1] ==> Continues(a)
    ensures Completes(flight[|flight| - 1]) ==> record == Buffered(before) + AllBring(flight)
  {
    hide AllBring, Buffered, FragmentOf;
  }

  /** The message a flight ends, if it ends one. */
  lemma FlightEndsMessage(before: Reasm, after: Reasm, answers: seq<Option<Answer>>, m: nat, record: Bytes)
    requires m < |answers| && MadeOf(before, after, answers[m..], record)
    ensures Messages(answers) == Messages(answers[..m])
              + if Completes(answers[|answers| - 1]) then [Opened(answers[..m]) + AllBring(answers[m..])] else []
    ensures Completes(answers[|answers| - 1]) ==> record == Buffered(before) + AllBring(answers[m..])
  {
    hide Brings, AllBring, Opened, Messages, MadeOf, Continues, Completes;
    var (front, flight, last) := (answers[..m], answers[m..], answers[|answers| - 1]);
    FlightIsRun(before, after, flight, record);
    var run := flight[..|flight| - 1];
    assert answers == front + run + [last] && flight == run + [last];
    OpenedGrows(front, run);
    OneMore(front + run, last);
    AllBringSnoc(run, last);
    assert Opened(front) + AllBring(run) + Brings(last) == Opened(front) + (AllBring(run) + Brings(last));
  }

  /**
   Any packet in reassemble mode, against any server, in any session that remembers its conversation. The record
   delivered to the supplicant is a message the server has just ended, from its beginning to its end, if
   and only if the last answer ends one and the reassembler was in step with the conversation when the
   flight began; whatever else is delivered, the server has not said so.
   */
  lemma MessageIsDelivered(server: Server, s: SessionView, caller: Caller, eap: Bytes)
    returns (m: nat, s': SessionView, record: Bytes)
    requires s.settings.mode.Reassemble? && Remembers(s) && Parse(eap).Ok?
    requires !(Parse(eap).value.IsAck() && s.supplicant.outbox != [])
    ensures var (t, handled) := HandleSupplicantEap(server, s, caller, eap);
            handled.Ok? && handled.value.action.ActChallenge? ==>
              && (t, handled) == DeliverRecord(s', record) && DeliveredSince(s, t, m, record)
              && (Parse(eap).value.IsAck() ==> m == |s.server.answers|)
              && var (requests, answers) := (t.server.requests, t.server.answers);
              && s.downReasm == ReasmOf(s.settings.maxMessageLen, requests[..m], answers[..m])
              && (Messages(answers) == Messages(answers[..m]) + [record]
                  <==> && Completes(answers[|answers| - 1])
                       && InStep(s.settings.maxMessageLen, requests[..m], answers[..m]))
  {
    hide HandleSupplicantEap, Parse, DeliverRecord, MadeOf, BearsMore, Completes, Messages, Opened, AllBring, ReasmOf;
    m, s', record := PacketDelivers(server, s, caller, eap);
    var (t, handled) := HandleSupplicantEap(server, s, caller, eap);
    if handled.Ok? && handled.value.action.ActChallenge? {
      var max, n, requests, answers := s.settings.maxMessageLen, |s.server.answers|, t.server.requests, t.server.answers;
      assert requests[..m][..n] == s.server.requests && answers[..m][..n] == s.server.answers;
      UnreadLeavesIt(max, requests[..m], answers[..m], n);
      FlightEndsMessage(s.downReasm, t.downReasm, answers, m, record);
      var all := AllBring(answers[m..]);
      SameRest(Buffered(s.downReasm), Opened(answers[..m]), all);
      SameLast(Messages(answers[..m]), record, Opened(answers[..m]) + all);
    }
  }

  lemma SameRest(a: Bytes, b: Bytes, rest: Bytes)
    ensures a + rest == b + rest <==> a == b
  {
    if a + rest == b + rest {
      assert |a| == |b| && a == (a + rest)[..|a|] && b == (b + rest)[..|b|];
    }
  }

  lemma SameLast(messages: seq<Bytes>, a: Bytes, b: Bytes)
    ensures messages + [a] == messages + [b] <==> a == b
    ensures messages + [a] != messages + []
  {
    var n := |messages|;
    assert (messages + [a])[n] == a && (messages + [b])[n] == b;
    assert |messages + [a]| == n + 1 && |messages + []| == n;
  }

  // ---- Packets repeated ---------------------------------------------------

  /**
   The last fragment of a record, sent again by a supplicant that got no answer, opens a new message: its
   octets alone go up as a record of their own, which is the record that went up before if and only if
   that was the only fragment of it.
   */
  lemma LastFragmentAgain(server: Server, s: SessionView, caller: Caller, eap: Bytes)
    requires s.settings.mode.Reassemble? && Parse(eap).Ok?
    requires 1 <= s.settings.upstreamFragmentSize <= 65000 && s.settings.maxMessageLen < U32_LIMIT
    requires var pkt := Parse(eap).value;
             && !pkt.IsAck() && !pkt.moreFragments && DeclaresAtMost(pkt, s.settings.maxMessageLen)
             && |Buffered(s.upReasm) + pkt.tlsData| <= s.settings.maxMessageLen
    ensures var pkt := Parse(eap).value;
            var (t, first) := HandleSupplicantEap(server, s, caller, eap);
            var (u, second) := HandleSupplicantEap(server, t, caller, eap);
            && GoesUp(s, t, first, Buffered(s.upReasm) + pkt.tlsData)
            && GoesUp(t, u, second, pkt.tlsData)
            && (pkt.tlsData == Buffered(s.upReasm) + pkt.tlsData <==> Buffered(s.upReasm) == [])
  {
    hide HandleSupplicantEap, GoesUp, Parse;
    var data := Parse(eap).value.tlsData;
    LastFragmentGoesUp(server, s, caller, eap);
    var t := HandleSupplicantEap(server, s, caller, eap).0;
    assert [] + data == data;
    LastFragmentGoesUp(server, t, caller, eap);
    assert |Buffered(s.upReasm) + data| == |Buffered(s.upReasm)| + |data|;
  }

  lemma LastFragmentGoesUp(server: Server, s: SessionView, caller: Caller, eap: Bytes)
    requires s.settings.mode.Reassemble? && Parse(eap).Ok?
    requires 1 <= s.settings.upstreamFragmentSize <= 65000 && s.settings.maxMessageLen < U32_LIMIT
    requires var pkt := Parse(eap).value;
             && !pkt.IsAck() && !pkt.moreFragments && DeclaresAtMost(pkt, s.settings.maxMessageLen)
             && |Buffered(s.upReasm) + pkt.tlsData| <= s.settings.maxMessageLen
    ensures var (t, handled) := HandleSupplicantEap(server, s, caller, eap);
            && GoesUp(s, t, handled, Buffered(s.upReasm) + Parse(eap).value.tlsData)
            && t.upReasm.state.Complete? && t.settings == s.settings
  {
    hide Parse, ForwardRecordUpstream, Feed;
    var pkt := Parse(eap).value;
    var s1 := NotePacket(s, pkt);
    var (r, ingested) := Ingest(s1.settings.maxMessageLen, s1.upReasm, pkt);
    var record := Buffered(s.upReasm) + pkt.tlsData;
    assert ingested == Message(record);
    ForwardGoesUp(server, s1.(upReasm := r, up := s1.up.(bytesReassembled := s1.up.bytesReassembled + |record|)),
                  caller, record);
  }

  /** The wire with its packet number i sent twice. */
  function Again(wire: seq<Bytes>, i: nat): seq<Bytes>
    requires i < |wire|
  {
    wire[..i + 1] + wire[i..]
  }

  lemma StaysTail(pkts: seq<EapTlsPacket>, i: nat)
    requires Tail(pkts) && i < |pkts| - 1
    ensures Tail(pkts[..i + 1] + pkts[i..])
  {
    var again := pkts[..i + 1] + pkts[i..];
    assert forall j :: 0 <= j < |again| ==> again[j] == pkts[if j <= i then j else j - 1];
    forall p | p in again ensures !p.IsAck() {
      assert p in pkts[..i + 1] || p in pkts[i..];
    }
  }

  lemma ParseAllAgain(wire: seq<Bytes>, i: nat)
    requires AllParse(wire) && i < |wire|
    ensures AllParse(Again(wire, i)) && AllParse(wire[..i]) && AllParse(wire[i..])
    ensures ParseAll(Again(wire, i)) == ParseAll(wire)[..i + 1] + ParseAll(wire)[i..]
    ensures ParseAll(wire[..i]) == ParseAll(wire)[..i] && ParseAll(wire[i..]) == ParseAll(wire)[i..]
  {
    hide Parse;
  }

  lemma AgainIsTail(wire: seq<Bytes>, i: nat)
    requires AllParse(wire) && Tail(ParseAll(wire)) && i < |wire| - 1
    ensures var again := ParseAll(Again(wire, i));
            && AllParse(Again(wire, i)) && AllParse(wire[..i]) && AllParse(wire[i..])
            && Tail(again) && again[0] == ParseAll(wire)[0]
            && Join(Payloads(again)) == Join(Payloads(ParseAll(wire[..i]))) + Parse(wire[i]).value.tlsData
                                        + Join(Payloads(ParseAll(wire[i..])))
            && Join(Payloads(ParseAll(wire)))
            == Join(Payloads(ParseAll(wire[..i]))) + Join(Payloads(ParseAll(wire[i..])))
  {
    hide Parse, Join, Tail;
    var pkts := ParseAll(wire);
    ParseAllAgain(wire, i);
    StaysTail(pkts, i);
    var front, rest := Payloads(pkts[..i]), Payloads(pkts[i..]);
    assert Payloads(pkts[..i + 1] + pkts[i..]) == front + [pkts[i].tlsData] + rest;
    assert Payloads(pkts) == front + rest;
    JoinSnoc(front, pkts[i].tlsData);
    JoinAppend(front + [pkts[i].tlsData], rest);
    JoinAppend(front, rest);
  }

  /**
   A fragment with M sent again by a supplicant that got no answer is appended again. If that is within the
   limit the record goes up with its octets twice, which is the record if and only if it has none; if not, its
   last packet raises and nothing of it goes up.
   */
  lemma FragmentAgain(server: Server, s: SessionView, caller: Caller, wire: seq<Bytes>, i: nat)
    requires s.settings.mode.Reassemble? && HasRoom(s, wire) && i < |wire| - 1
    requires 1 <= s.settings.upstreamFragmentSize <= 65000 && s.settings.maxMessageLen < U32_LIMIT
    ensures var data := Parse(wire[i]).value.tlsData;
            var front, rest := Join(Payloads(ParseAll(wire[..i]))), Join(Payloads(ParseAll(wire[i..])));
            var record, doubled := Buffered(s.upReasm) + front + rest, Buffered(s.upReasm) + front + data + rest;
            var (t, handled) := PacketRun(server, s, caller, Again(wire, i));
            && |handled| == |wire| + 1
            && record == Buffered(s.upReasm) + Join(Payloads(ParseAll(wire)))
            && (doubled == record <==> data == [])
            && if |doubled| <= s.settings.maxMessageLen then GoesUp(s, t, handled[|wire|], doubled)
               else t.server == s.server && handled[|wire|] == Err(BufferExceedsMax)
  {
    hide PacketRun, GoesUp, Parse, Join, Payloads, Tail;
    AgainIsTail(wire, i);
    var held, data := Buffered(s.upReasm), Parse(wire[i]).value.tlsData;
    var front, rest := Join(Payloads(ParseAll(wire[..i]))), Join(Payloads(ParseAll(wire[i..])));
    assert held + (front + data + rest) == held + front + data + rest && held + (front + rest) == held + front + rest;
    assert |held + front + data + rest| == |held + front + rest| + |data|;
    if |held + front + data + rest| <= s.settings.maxMessageLen {
      RestGoesUp(server, s, caller, Again(wire, i));
    } else {
      TrainOverflows(server, s, caller, Again(wire, i));
    }
  }

  /**
   An ACK sent again draws again: two fragments go out under the same Identifier, the second of them unseen if
   the supplicant takes it for the first. It is drawn if and only if there is a second in the queue;
   otherwise the repeated ACK goes to the server as a poll.
   */
  lemma AckAgain(server: Server, s: SessionView, caller: Caller, id: byte)
    requires s.settings.mode.Reassemble? && WithinLimits(s) && s.supplicant.outbox != []
    ensures var (t, first) := HandleSupplicantEap(server, s, caller, BuildAck(RESPONSE, id));
            var (u, second) := HandleSupplicantEap(server, t, caller, BuildAck(RESPONSE, id));
            && Emitted(first).Some? && Emitted(first).value.identifier == NextId(id)
            && Emitted(first).value.tlsData == s.supplicant.outbox[0].1
            && if |s.supplicant.outbox| > 1 then
                 && Emitted(second).Some? && Emitted(second).value.identifier == NextId(id)
                 && Emitted(second).value.tlsData == s.supplicant.outbox[1].1 && u.server == s.server
               else s.result.None? ==> |u.server.requests| > |s.server.requests|
  {
    hide Encode, Parse;
    ParseBuilt(RESPONSE, id, [], false, None, false);
    var s1 := NotePacket(s, BuiltPacket(RESPONSE, id, [], false, None, false));
    DrawPrints(s1);
    DrawCounts(s1);
    var t := SendNextDownstreamFragment(s1).0;
    if |s.supplicant.outbox| > 1 {
      var t1 := NotePacket(t, BuiltPacket(RESPONSE, id, [], false, None, false));
      assert forall j :: 0 <= j < |t1.supplicant.outbox| ==> t1.supplicant.outbox[j] == s.supplicant.outbox[j + 1];
      DrawPrints(t1);
      DrawCounts(t1);
    } else if s.result.None? {
      PollSends(server, NotePacket(t, BuiltPacket(RESPONSE, id, [], false, None, false)), caller);
    }
  }

  lemma PollSends(server: Server, s: SessionView, caller: Caller)
    requires s.supplicant.outbox == [] && s.result.None?
    ensures |HandleAck(server, s, caller).0.server.requests| > |s.server.requests|
  {
    hide HandleUpstreamReply, Exchange, BuildAck, OnlyAcksSent;
    var (leg, id) := PickUpstreamId(s.server);
    var (leg', reply) := Exchange(server, leg, caller, BuildAck(RESPONSE, id));
    if reply.Some? {
      ReplyHandlingSendsAcks(server, s.(server := leg'), caller, reply.value);
      SilentOnlyGrows(leg', HandleAck(server, s, caller).0.server);
    }
  }

  lemma SilentOnlyGrows(before: ServerLeg, after: ServerLeg)
    requires OnlyAcksSent(before, after)
    ensures |before.requests| <= |after.requests|
  {
  }
}
