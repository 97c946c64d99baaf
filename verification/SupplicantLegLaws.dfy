/**
 What the proxy keeps towards the supplicant, against any auth server whatever: the
 Identifiers of sections 4.1 and 4.2 of RFC 3748, the verdict handed on, and the queue of
 fragments still to be sent.
 */
module SupplicantLegLaws {
  import opened Prelude
  import opened Octets
  import opened EapTls
  import opened Reassembly
  import opened Radius
  import opened SessionState
  import opened MediatorSpec

  // ---- Identifiers and verdicts -------------------------------------------

  /** A terminal packet with its Identifier rewritten and nothing else changed. */
  function Stamped(eap: Option<Bytes>, id: byte): Option<Bytes> {
    if eap.Some? && |eap.value| >= 2 then Some(eap.value[1 := id]) else eap
  }

  predicate LastAnswerIs(leg: ServerLeg, code: byte) {
    leg.answers != [] && leg.answers[|leg.answers| - 1].Some? && leg.answers[|leg.answers| - 1].value.code == code
  }

  function LastEap(leg: ServerLeg): Option<Bytes>
    requires leg.answers != [] && leg.answers[|leg.answers| - 1].Some?
  {
    leg.answers[|leg.answers| - 1].value.Eap()
  }

  /**
   A proper answer, in reassemble mode, to the supplicant's Response `id`: a minted Request has the
   next Identifier; a terminal packet is the server's own, of this very datagram, stamped with `id`, and kept;
   the session has a result exactly when a terminal packet was handed out, and it is the server's.
   */
  predicate ProperAnswer(s: SessionView, handled: Handled, id: byte) {
    match handled
    case Err(_) => s.result.None?
    case Ok(o) =>
      match o.action
      case ActAccept =>
        && s.result == Some(Accepted) && LastAnswerIs(s.server, ACCESS_ACCEPT)
        && s.pendingSuccess == LastEap(s.server)
        && o.eap == Stamped(LastEap(s.server), id) && o.echoId == Some(id)
      case ActReject =>
        && s.result == Some(Rejected) && LastAnswerIs(s.server, ACCESS_REJECT)
        && s.pendingFailure == LastEap(s.server)
        && o.eap == Stamped(LastEap(s.server), id) && o.echoId == Some(id)
      case _ =>
        && s.result.None?
        && (o.eap.Some? ==>
              && o.echoId == Some((id + 1) % 0x100)
              && |o.eap.value| >= 6 && o.eap.value[0] == 1 && o.eap.value[1] == (id + 1) % 0x100)
  }

  predicate Expecting(s: SessionView, id: byte) {
    s.result.None? && s.supplicant.nextId == id && s.supplicant.lastReqId == Some(id)
  }

  lemma StampIsOneOctet(s: SessionView, eap: Option<Bytes>, id: byte)
    requires s.supplicant.lastReqId == Some(id)
    ensures RestampTerminal(s, eap) == Stamped(eap, id)
  {
    if eap.Some? && |eap.value| >= 2 {
      assert eap.value[..1] + [id] + eap.value[2..] == eap.value[1 := id];
    }
  }

  lemma DeliveryIsProper(s: SessionView, record: Bytes, id: byte)
    requires Expecting(s, id)
    ensures var (s', handled) := DeliverRecord(s, record); ProperAnswer(s', handled, id)
  {
  }

  /** A drain that ends in a terminal reply ends with that reply, kept for the supplicant. */
  lemma {:induction false} DrainConcludes(server: Server, s: SessionView, caller: Caller, more: bool, id: byte)
    requires Expecting(s, id)
    ensures var (s', drained) := Drain(server, s, caller, more);
            if drained.Terminal? then
              && s'.result.Some?
              && LastAnswerIs(s'.server, if s'.result.value.Accepted? then ACCESS_ACCEPT else ACCESS_REJECT)
              && (if s'.result.value.Accepted? then s'.pendingSuccess else s'.pendingFailure) == LastEap(s'.server)
            else s'.result.None?
    decreases if |s.server.requests| <= server.lifetime then server.lifetime - |s.server.requests| + 1 else 0
  {
    if more {
      var (s1, reply) := AckUpstream(server, s, caller);
      if reply.Some? {
        var (s2, turn) := TakeFragment(s1, reply.value);
        if turn.Pulled? {
          DrainConcludes(server, s2, caller, turn.more, id);
        }
      }
    }
  }

  lemma ReplyIsProper(server: Server, s: SessionView, caller: Caller, reply: Reply, id: byte)
    requires Expecting(s, id)
    requires s.server.answers != [] && s.server.answers[|s.server.answers| - 1].Some?
    requires reply == ReplyOf(s.server.answers[|s.server.answers| - 1].value)
    ensures var (s', handled) := HandleUpstreamReply(server, s, caller, reply); ProperAnswer(s', handled, id)
  {
    if reply.Accept() || reply.Reject() {
      StampIsOneOctet(s, reply.eap, id);
    } else if reply.eap.Some? && Parse(reply.eap.value).Ok? {
      var pkt := Parse(reply.eap.value).value;
      var (s1, ingested) := IngestDown(s, pkt);
      if ingested.NeedMore? {
        DrainConcludes(server, s1, caller, pkt.moreFragments, id);
        var (s2, drained) := Drain(server, s1, caller, pkt.moreFragments);
        AfterDrainIsProper(s2, drained, id);
      } else if ingested.Message? {
        DeliveryIsProper(s1, ingested.data, id);
      }
    }
  }

  lemma AfterDrainIsProper(s: SessionView, drained: Drained, id: byte)
    requires s.supplicant.nextId == id && s.supplicant.lastReqId == Some(id)
    requires if drained.Terminal? then
               && s.result.Some?
               && LastAnswerIs(s.server, if s.result.value.Accepted? then ACCESS_ACCEPT else ACCESS_REJECT)
               && (if s.result.value.Accepted? then s.pendingSuccess else s.pendingFailure) == LastEap(s.server)
             else s.result.None?
    ensures var (s', handled) := AfterDrain(s, drained); ProperAnswer(s', handled, id)
  {
    match drained
    case DrainRaised(_) =>
    case Record(m) => DeliveryIsProper(s, m, id);
    case Terminal =>
      StampIsOneOctet(s, s.pendingSuccess, id);
      StampIsOneOctet(s, s.pendingFailure, id);
  }

  lemma ChunkReturnsItsAnswer(server: Server, s: SessionView, caller: Caller, total: nat, chunks: seq<Bytes>, i: nat)
    requires i < |chunks|
    ensures var (s', reply) := SendChunk(server, s, caller, total, chunks, i);
            reply.Ok? ==>
              && s'.server.answers != [] && s'.server.answers[|s'.server.answers| - 1].Some?
              && reply.value == ReplyOf(s'.server.answers[|s'.server.answers| - 1].value)
  {
    hide Encode;
  }

  /** Only the last chunk's answer is returned, and it is the last answer of the conversation. */
  lemma {:induction false} SendChunksReturnsTheLastAnswer(server: Server, s: SessionView, caller: Caller,
                                                          total: nat, chunks: seq<Bytes>, i: nat)
    requires i < |chunks|
    ensures var (s', reply) := SendChunks(server, s, caller, total, chunks, i);
            reply.Ok? ==>
              && s'.server.answers != [] && s'.server.answers[|s'.server.answers| - 1].Some?
              && reply.value == ReplyOf(s'.server.answers[|s'.server.answers| - 1].value)
    decreases |chunks| - i
  {
    hide SendChunk, ReplyOf;
    ChunkReturnsItsAnswer(server, s, caller, total, chunks, i);
    var (s1, reply) := SendChunk(server, s, caller, total, chunks, i);
    if reply.Ok? && i < |chunks| - 1 {
      SendChunksReturnsTheLastAnswer(server, s1, caller, total, chunks, i + 1);
    }
  }

  lemma ForwardIsProper(server: Server, s: SessionView, caller: Caller, record: Bytes, id: byte)
    requires Expecting(s, id)
    ensures var (s', handled) := ForwardRecordUpstream(server, s, caller, record); ProperAnswer(s', handled, id)
  {
    var fragmented := Fragment(record, s.settings.upstreamFragmentSize);
    if fragmented.Ok? {
      SendChunksReturnsTheLastAnswer(server, s, caller, |record|, fragmented.value, 0);
      var (s1, reply) := SendChunks(server, s, caller, |record|, fragmented.value, 0);
      if reply.Ok? {
        ReplyIsProper(server, s1, caller, reply.value, id);
      }
    }
  }

  lemma AckIsProper(server: Server, s: SessionView, caller: Caller, id: byte)
    requires Expecting(s, id)
    ensures var (s', handled) := HandleAck(server, s, caller); ProperAnswer(s', handled, id)
  {
    if s.supplicant.outbox == [] {
      var (leg, upId) := PickUpstreamId(s.server);
      var (leg', reply) := Exchange(server, leg, caller, BuildAck(RESPONSE, upId));
      if reply.Some? {
        ReplyIsProper(server, s.(server := leg'), caller, reply.value, id);
      }
    }
  }

  /**
   Against any server, every packet the mediator hands back in reassemble mode has the Identifier
   the supplicant waits for, and every verdict is the server's verdict of this very datagram.
   */
  lemma EveryAnswerIsProper(server: Server, s: SessionView, caller: Caller, eap: Bytes)
    requires s.settings.mode.Reassemble? && s.result.None? && Parse(eap).Ok?
    ensures var (s', handled) := HandleSupplicantEap(server, s, caller, eap);
            ProperAnswer(s', handled, Parse(eap).value.identifier)
  {
    hide ForwardRecordUpstream, HandleAck, Parse;
    var pkt := Parse(eap).value;
    var s1 := NotePacket(s, pkt);
    if pkt.IsAck() {
      AckIsProper(server, s1, caller, pkt.identifier);
    } else {
      var (r, ingested) := Ingest(s1.settings.maxMessageLen, s1.upReasm, pkt);
      if ingested.Message? {
        var s2 := s1.(upReasm := r, up := s1.up.(bytesReassembled := s1.up.bytesReassembled + |ingested.data|));
        ForwardIsProper(server, s2, caller, ingested.data, pkt.identifier);
      }
    }
  }

  /** A verdict once given is given again to an ACK, stamped for that, with no word to the server. */
  lemma HeldVerdictIsGivenAgain(server: Server, s: SessionView, caller: Caller, eap: Bytes, id: byte)
    requires s.settings.mode.Reassemble? && s.result.None? && Parse(eap).Ok?
    requires var t := HandleSupplicantEap(server, s, caller, eap).0; t.result.Some? && t.supplicant.outbox == []
    ensures var (t, first) := HandleSupplicantEap(server, s, caller, eap);
            var (u, again) := HandleSupplicantEap(server, t, caller, BuildAck(RESPONSE, id));
            && first.Ok? && again.Ok? && again.value.action == first.value.action
            && LastAnswerIs(t.server, if first.value.action.ActAccept? then ACCESS_ACCEPT else ACCESS_REJECT)
            && again.value.eap == Stamped(LastEap(t.server), id) && again.value.echoId == Some(id)
            && u.server == t.server && u.result == t.result
  {
    hide Parse, ForwardRecordUpstream, HandleData, HandleUpstreamReply;
    EveryAnswerIsProper(server, s, caller, eap);
    var t := HandleSupplicantEap(server, s, caller, eap).0;
    ParseBuilt(RESPONSE, id, [], false, None, false);
    var t1 := NotePacket(t, BuiltPacket(RESPONSE, id, [], false, None, false));
    assert t.result.value.Accepted? || t.result.value.Rejected?;
    StampIsOneOctet(t1, t.pendingSuccess, id);
    StampIsOneOctet(t1, t.pendingFailure, id);
  }

  /** Passthrough hands the server's packet and verdict on as they are, but drops a Failure packet. */
  lemma PassthroughRelays(server: Server, s: SessionView, caller: Caller, eap: Bytes)
    requires s.settings.mode.Passthrough? && s.result.None? && Parse(eap).Ok?
    ensures var (s', handled) := HandleSupplicantEap(server, s, caller, eap);
            match handled
            case Err(_) => s'.result.None?
            case Ok(o) =>
              && s'.server.answers != [] && s'.server.answers[|s'.server.answers| - 1].Some?
              && (o.action.ActAccept? <==> LastAnswerIs(s'.server, ACCESS_ACCEPT))
              && (o.action.ActReject? <==> LastAnswerIs(s'.server, ACCESS_REJECT))
              && s'.result == (if o.action.ActAccept? then Some(Accepted)
                               else if o.action.ActReject? then Some(Rejected) else None)
              && o.eap == (if o.action.ActReject? then None else LastEap(s'.server))
  {
    var s1 := NotePacket(s, Parse(eap).value);
    var (leg, reply) := Exchange(server, s1.server, caller, eap);
    assert leg.answers[|leg.answers| - 1].Some? == reply.Some?;
  }

  // ---- The downstream queue -----------------------------------------------

  /** An ACK with fragments queued takes the first off the queue, even if a number in it is too large to print. */
  lemma AckAlwaysPops(server: Server, s: SessionView, caller: Caller, id: byte)
    requires s.settings.mode.Reassemble? && s.supplicant.outbox != []
    ensures var (t, handled) := HandleSupplicantEap(server, s, caller, BuildAck(RESPONSE, id));
            && t.server == s.server && t.result == s.result
            && t.supplicant == s.supplicant.(outbox := s.supplicant.outbox[1..], nextId := (id + 1) % 0x100,
                                             lastReqId := Some(id))
            && (handled.Ok? || handled == Err(NumberTooLarge))
  {
    hide Parse, Encode;
    ParseBuilt(RESPONSE, id, [], false, None, false);
  }

  /** The queue is what is left of a record cut at the downstream size, `sent` chunks being gone. */
  predicate Queued(leg: SupplicantLeg, record: Bytes, size: nat, sent: nat) {
    && 1 <= size <= 65000 && |record| < U32_LIMIT
    && sent <= |Chunks(record, size)|
    && leg.outbox == Enumerate(Chunks(record, size))[sent..]
    && leg.total == |record| && leg.nchunks == |Chunks(record, size)|
  }

  /** Fragment number `i` of a record as the supplicant must see it. */
  function FragmentPacket(record: Bytes, size: nat, i: nat, id: byte): EapTlsPacket
    requires size >= 1 && i < |Chunks(record, size)|
  {
    BuiltPacket(REQUEST, id, Chunks(record, size)[i], i < |Chunks(record, size)| - 1,
           if i == 0 then Some(|record|) else None, false)
  }

  function CountFragment(down: Metrics, more: bool): Metrics {
    down.(fragmentsOut := down.fragmentsOut + 1, acksGenerated := down.acksGenerated + (if more then 1 else 0))
  }

  /** Sending one fragment: the right packet, the queue one shorter, nothing else touched but the counts. */
  lemma NextFragmentIsSent(s: SessionView, record: Bytes, size: nat, sent: nat)
    requires Queued(s.supplicant, record, size, sent) && sent < |Chunks(record, size)|
    ensures var (s', handled) := SendNextDownstreamFragment(s);
            var id := NextId(s.supplicant.nextId);
            && IsFragment(handled, record, size, sent, id)
            && Queued(s'.supplicant, record, size, sent + 1)
            && s' == s.(supplicant := s.supplicant.(outbox := s.supplicant.outbox[1..], nextId := id),
                        down := CountFragment(s.down, sent < |Chunks(record, size)| - 1))
  {
    FragmentIsPrintable(record, size, sent, NextId(s.supplicant.nextId));
    assert s.supplicant.outbox[0] == (sent, Chunks(record, size)[sent]);
    assert s.supplicant.outbox[1..] == Enumerate(Chunks(record, size))[sent + 1..];
  }

  lemma FragmentIsPrintable(record: Bytes, size: nat, i: nat, id: byte)
    requires 1 <= size <= 65000 && |record| < U32_LIMIT && i < |Chunks(record, size)|
    ensures var p := FragmentPacket(record, size, i, id);
            var built := Build(REQUEST, id, p.tlsData, p.moreFragments, p.tlsMessageLength, false);
            built.Ok? && Parse(built.value) == Ok(p) && |built.value| == |p.tlsData| + if i == 0 then 10 else 6
  {
    var p := FragmentPacket(record, size, i, id);
    ChunksCutExactly(record, size);
    assert p.tlsData in Chunks(record, size);
    EncodeLayout(REQUEST, id, p.tlsData, p.moreFragments, p.tlsMessageLength, false);
    ParseBuilt(REQUEST, id, p.tlsData, p.moreFragments, p.tlsMessageLength, false);
  }

  /** A series of packets from the supplicant: the session after it, and what each call returned or raised. */
  function PacketRun(server: Server, s: SessionView, caller: Caller, wire: seq<Bytes>): (SessionView, seq<Handled>)
    decreases |wire|
  {
    if wire == [] then (s, [])
    else
      var (s1, handled) := HandleSupplicantEap(server, s, caller, wire[0]);
      var (s2, rest) := PacketRun(server, s1, caller, wire[1..]);
      (s2, [handled] + rest)
  }

  /** The Identifier of the Request handed back to the supplicant, if one was. */
  function RequestIdOf(handled: Handled): Option<byte> {
    if handled.Ok? && !handled.value.action.ActAccept? && !handled.value.action.ActReject?
       && handled.value.eap.Some? && |handled.value.eap.value| >= 2
    then Some(handled.value.eap.value[1]) else None
  }

  /** The Identifier of an EAP-TLS packet. */
  function IdOf(eap: Bytes): Option<byte> {
    if Parse(eap).Ok? then Some(Parse(eap).value.identifier) else None
  }

  predicate Concludes(handled: Handled) {
    handled.Ok? && (handled.value.action.ActAccept? || handled.value.action.ActReject?)
  }

  /**
   Each packet carries the Identifier of the last Request received, which is `id` to begin with; what gets
   no Request in answer, be it an exception or nothing at all, leaves it as it is. The verdict is the end.
   */
  predicate Echoing(id: byte, wire: seq<Bytes>, handled: seq<Handled>)
    decreases |wire|
  {
    && |wire| == |handled|
    && (wire == [] ||
        (&& IdOf(wire[0]) == Some(id)
         && (Concludes(handled[0]) ==> |wire| == 1)
         && Echoing(Override(RequestIdOf(handled[0]), Some(id)).value, wire[1..], handled[1..])))
  }

  /** The Identifiers of the Requests among the answers, in order. */
  function RequestIds(handled: seq<Handled>): seq<byte> {
    if handled == [] then []
    else (if RequestIdOf(handled[0]).Some? then [RequestIdOf(handled[0]).value] else []) + RequestIds(handled[1..])
  }

  /** Numbered one after another, from the one after `id` on. */
  predicate Numbered(ids: seq<byte>, id: byte) {
    forall i :: 0 <= i < |ids| ==> ids[i] == (id + 1 + i) % 0x100
  }

  /**
   Whatever an echoing supplicant sends in reassemble mode, and whatever the server does or leaves undone,
   the Requests the supplicant gets are numbered one after another; so two of them have the same
   Identifier if and only if a multiple of 256 lies between them.
   */
  lemma RequestsStayApart(server: Server, s: SessionView, caller: Caller, wire: seq<Bytes>, id: byte, i: nat, j: nat)
    requires s.settings.mode.Reassemble? && s.result.None?
    requires Echoing(id, wire, PacketRun(server, s, caller, wire).1)
    requires i < j < |RequestIds(PacketRun(server, s, caller, wire).1)|
    ensures var ids := RequestIds(PacketRun(server, s, caller, wire).1);
            && ids[i] == (id + 1 + i) % 0x100
            && (ids[i] == ids[j] <==> (j - i) % 0x100 == 0)
  {
    hide PacketRun, RequestIdOf, IdOf, RequestIds, Echoing;
    RequestsAreNumbered(server, s, caller, wire, id);
    ResiduesMeet(id + 1 + i, id + 1 + j);
  }

  lemma ResiduesMeet(a: nat, b: nat)
    requires a <= b
    ensures a % 0x100 == b % 0x100 <==> (b - a) % 0x100 == 0
  {
    assert a == a / 0x100 * 0x100 + a % 0x100 && b == b / 0x100 * 0x100 + b % 0x100;
  }

  lemma {:induction false} RequestsAreNumbered(server: Server, s: SessionView, caller: Caller, wire: seq<Bytes>, id: byte)
    requires s.settings.mode.Reassemble? && s.result.None?
    requires Echoing(id, wire, PacketRun(server, s, caller, wire).1)
    ensures Numbered(RequestIds(PacketRun(server, s, caller, wire).1), id)
    decreases |wire|
  {
    hide HandleSupplicantEap, RequestIdOf, IdOf, Numbered, Concludes;
    if wire == [] {
      NothingIsNumbered(id);
    } else {
      var (s1, first) := HandleSupplicantEap(server, s, caller, wire[0]);
      var rest := PacketRun(server, s1, caller, wire[1..]).1;
      var handled := [first] + rest;
      assert PacketRun(server, s, caller, wire).1 == handled;
      assert handled[0] == first && handled[1..] == rest;
      AnswersInTurn(server, s, caller, wire[0]);
      if Concludes(first) {
        assert rest == [] && RequestIds(handled) == [];
        NothingIsNumbered(id);
      } else if RequestIdOf(first).Some? {
        RequestsAreNumbered(server, s1, caller, wire[1..], NextId(id));
        NumberedOnwards(RequestIds(rest), id);
        assert RequestIds(handled) == [NextId(id)] + RequestIds(rest);
      } else {
        RequestsAreNumbered(server, s1, caller, wire[1..], id);
        assert RequestIds(handled) == RequestIds(rest);
      }
    }
  }

  lemma NothingIsNumbered(id: byte)
    ensures Numbered([], id)
  {
  }

  lemma NumberedOnwards(rest: seq<byte>, id: byte)
    requires Numbered(rest, NextId(id))
    ensures Numbered([NextId(id)] + rest, id)
  {
    forall i | 0 <= i < |rest| + 1 ensures ([NextId(id)] + rest)[i] == (id + 1 + i) % 0x100 {
      if i > 0 {
        NextResidue(id + 1, i);
      }
    }
  }

  lemma NextResidue(a: nat, i: nat)
    ensures (a % 0x100 + i) % 0x100 == (a + i) % 0x100
  {
    assert a == a / 0x100 * 0x100 + a % 0x100;
  }

  lemma AnswersInTurn(server: Server, s: SessionView, caller: Caller, eap: Bytes)
    requires s.settings.mode.Reassemble? && s.result.None? && IdOf(eap).Some?
    ensures var (s', handled) := HandleSupplicantEap(server, s, caller, eap);
            && (RequestIdOf(handled).Some? ==> RequestIdOf(handled) == Some(NextId(IdOf(eap).value)))
            && (Concludes(handled) ==> RequestIdOf(handled).None?)
            && (!Concludes(handled) ==> s'.result.None?)
  {
    hide HandleSupplicantEap, Parse;
    EveryAnswerIsProper(server, s, caller, eap);
    var handled := HandleSupplicantEap(server, s, caller, eap).1;
    assert handled.Ok? ==>
        var o := handled.value; o.action.ActAck? || o.action.ActChallenge? || o.action.ActAccept? || o.action.ActReject?;
  }

  /** ACK after ACK, with whatever Identifiers. */
  function Acks(ids: seq<byte>): seq<Bytes> {
    seq(|ids|, i requires 0 <= i < |ids| => BuildAck(RESPONSE, ids[i]))
  }

  /**
   Any number of ACKs, up to the chunks left, draws exactly the next chunks in order, each in a
   well-marked packet, without a word to the server.
   */
  lemma {:induction false} AcksDrawTheQueue(server: Server, s: SessionView, caller: Caller, ids: seq<byte>,
                                            record: Bytes, size: nat, sent: nat)
    requires s.settings.mode.Reassemble?
    requires Queued(s.supplicant, record, size, sent) && sent + |ids| <= |Chunks(record, size)|
    ensures var (s', handled) := PacketRun(server, s, caller, Acks(ids));
            && Queued(s'.supplicant, record, size, sent + |ids|)
            && s'.server == s.server && |handled| == |ids|
            && forall j :: 0 <= j < |ids| ==> IsFragment(handled[j], record, size, sent + j, NextId(ids[j]))
    decreases |ids|
  {
    hide HandleSupplicantEap, Queued, IsFragment;
    if ids != [] {
      AckDrawsNext(server, s, caller, ids[0], record, size, sent);
      var (s1, first) := HandleSupplicantEap(server, s, caller, BuildAck(RESPONSE, ids[0]));
      assert Acks(ids)[1..] == Acks(ids[1..]);
      AcksDrawTheQueue(server, s1, caller, ids[1..], record, size, sent + 1);
      var (s2, rest) := PacketRun(server, s1, caller, Acks(ids[1..]));
      forall j | 0 <= j < |ids|
        ensures IsFragment(([first] + rest)[j], record, size, sent + j, NextId(ids[j]))
      {
        if j > 0 {
          var i := j - 1;
          assert IsFragment(rest[i], record, size, sent + 1 + i, NextId(ids[1..][i]));
          assert sent + 1 + i == sent + j && ids[1..][i] == ids[j] && ([first] + rest)[j] == rest[i];
        }
      }
    }
  }

  predicate IsFragment(handled: Handled, record: Bytes, size: nat, i: nat, id: byte)
    requires size >= 1 && i < |Chunks(record, size)|
  {
    && handled.Ok? && handled.value.action.ActChallenge? && handled.value.eap.Some?
    && Parse(handled.value.eap.value) == Ok(FragmentPacket(record, size, i, id))
    && |handled.value.eap.value| == |Chunks(record, size)[i]| + if i == 0 then 10 else 6
  }

  lemma AckDrawsNext(server: Server, s: SessionView, caller: Caller, id: byte, record: Bytes, size: nat, sent: nat)
    requires s.settings.mode.Reassemble?
    requires Queued(s.supplicant, record, size, sent) && sent < |Chunks(record, size)|
    ensures var (s', handled) := HandleSupplicantEap(server, s, caller, BuildAck(RESPONSE, id));
            && IsFragment(handled, record, size, sent, NextId(id))
            && Queued(s'.supplicant, record, size, sent + 1)
            && s' == s.(supplicant := s'.supplicant,
                        up := s.up.(fragmentsIn := s.up.fragmentsIn + 1),
                        down := CountFragment(s.down, sent < |Chunks(record, size)| - 1))
  {
    var ack := BuildAck(RESPONSE, id);
    ParseBuilt(RESPONSE, id, [], false, None, false);
    var s0 := NotePacket(s, Parse(ack).value);
    assert s0.supplicant.outbox != [];
    NextFragmentIsSent(s0, record, size, sent);
    assert HandleSupplicantEap(server, s, caller, ack) == SendNextDownstreamFragment(s0);
  }

  function QueuedPayloads(leg: SupplicantLeg): seq<Bytes> {
    seq(|leg.outbox|, i requires 0 <= i < |leg.outbox| => leg.outbox[i].1)
  }

  function PayloadsSent(handled: seq<Handled>): seq<Bytes>
    requires forall h :: h in handled ==> h.Ok? && h.value.eap.Some? && Parse(h.value.eap.value).Ok?
  {
    seq(|handled|, i requires 0 <= i < |handled| =>
      assert handled[i] in handled; Parse(handled[i].value.eap.value).value.tlsData)
  }

  /**
   Downward conservation: once a record is taken from the server, whatever number of ACKs came
   since, the payloads sent and the payloads still queued make up the record, in order.
   */
  lemma DownwardConservation(server: Server, s: SessionView, caller: Caller, record: Bytes, ids: seq<byte>)
    requires s.settings.mode.Reassemble? && 1 <= s.settings.downstreamFragmentSize <= 65000
    requires |record| < U32_LIMIT && |ids| < ChunkCount(|record|, s.settings.downstreamFragmentSize)
    ensures var (s1, first) := DeliverRecord(s, record);
            var (s2, rest) := PacketRun(server, s1, caller, Acks(ids));
            && (forall h :: h in [first] + rest ==> h.Ok? && h.value.eap.Some? && Parse(h.value.eap.value).Ok?)
            && Join(PayloadsSent([first] + rest)) + Join(QueuedPayloads(s2.supplicant)) == record
            && s2.server == s.server
  {
    hide HandleSupplicantEap, Encode, Parse, SendNextDownstreamFragment, PacketRun, Chunks;
    var size := s.settings.downstreamFragmentSize;
    var chunks := Chunks(record, size);
    ChunksCutExactly(record, size);
    var s0 := s.(down := s.down.(bytesReassembled := s.down.bytesReassembled + |record|),
                 supplicant := s.supplicant.(outbox := Enumerate(chunks), total := |record|, nchunks := |chunks|));
    assert Enumerate(chunks)[0..] == Enumerate(chunks);
    NextFragmentIsSent(s0, record, size, 0);
    var (s1, first) := DeliverRecord(s, record);
    assert (s1, first) == SendNextDownstreamFragment(s0);
    AcksDrawTheQueue(server, s1, caller, ids, record, size, 1);
    var (s2, rest) := PacketRun(server, s1, caller, Acks(ids));
    var all := [first] + rest;
    forall j | 0 <= j < |all| ensures CarriesChunk(all[j], record, size, j) {
      if j > 0 {
        assert all[j] == rest[j - 1] && IsFragment(rest[j - 1], record, size, 1 + (j - 1), NextId(ids[j - 1]));
      }
    }
    PayloadsMakeTheRecord(all, s2.supplicant, record, size);
  }

  predicate CarriesChunk(handled: Handled, record: Bytes, size: nat, i: nat)
    requires size >= 1 && i < |Chunks(record, size)|
  {
    && handled.Ok? && handled.value.eap.Some? && Parse(handled.value.eap.value).Ok?
    && Parse(handled.value.eap.value).value.tlsData == Chunks(record, size)[i]
  }

  lemma SentAreChunks(handled: seq<Handled>, record: Bytes, size: nat)
    requires size >= 1 && |handled| <= |Chunks(record, size)|
    requires forall j :: 0 <= j < |handled| ==> CarriesChunk(handled[j], record, size, j)
    ensures forall h :: h in handled ==> h.Ok? && h.value.eap.Some? && Parse(h.value.eap.value).Ok?
    ensures PayloadsSent(handled) == Chunks(record, size)[..|handled|]
  {
    hide Parse, Chunks;
    forall h | h in handled ensures h.Ok? && h.value.eap.Some? && Parse(h.value.eap.value).Ok? {
      var j :| 0 <= j < |handled| && handled[j] == h;
      assert CarriesChunk(handled[j], record, size, j);
    }
    forall j | 0 <= j < |handled| ensures PayloadsSent(handled)[j] == Chunks(record, size)[j] {
      assert CarriesChunk(handled[j], record, size, j);
    }
  }

  lemma QueuedAreChunks(leg: SupplicantLeg, record: Bytes, size: nat, sent: nat)
    requires Queued(leg, record, size, sent)
    ensures QueuedPayloads(leg) == Chunks(record, size)[sent..]
  {
    hide Chunks;
  }

  lemma PayloadsMakeTheRecord(handled: seq<Handled>, leg: SupplicantLeg, record: Bytes, size: nat)
    requires Queued(leg, record, size, |handled|)
    requires forall j :: 0 <= j < |handled| ==> CarriesChunk(handled[j], record, size, j)
    ensures forall h :: h in handled ==> h.Ok? && h.value.eap.Some? && Parse(h.value.eap.value).Ok?
    ensures Join(PayloadsSent(handled)) + Join(QueuedPayloads(leg)) == record
  {
    hide Parse, Chunks, CarriesChunk, PayloadsSent, QueuedPayloads, Join;
    var chunks, k := Chunks(record, size), |handled|;
    SentAreChunks(handled, record, size);
    QueuedAreChunks(leg, record, size, k);
    ChunksCutExactly(record, size);
    JoinAppend(chunks[..k], chunks[k..]);
    assert chunks == chunks[..k] + chunks[k..];
  }
}
