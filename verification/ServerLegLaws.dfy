/**
 What the proxy keeps towards the auth server, against any server whatever: State chaining,
 Identifier echo, and where the key blobs come from. Proved once for the server leg, then
 carried through every handler of the mediator.
 */
module ServerLegLaws {
  import opened Prelude
  import opened Octets
  import opened EapTls
  import opened Reassembly
  import opened Radius
  import opened SessionState
  import opened MediatorSpec

  /** The first value an answer has under a key. */
  function FirstUnder(answer: Answer, key: AttrKey): Option<Bytes> {
    if key in answer.attrs && answer.attrs[key] != [] then Some(answer.attrs[key][0]) else None
  }

  /** The State of the last answer that arrived. */
  function LastState(answers: seq<Option<Answer>>): Option<Bytes> {
    if answers == [] then None
    else
      match answers[|answers| - 1]
      case Some(a) => FirstUnder(a, Plain(24))
      case None => LastState(answers[..|answers| - 1])
  }

  /** The Identifier of the last EAP-Request that arrived. */
  function LastRequestId(answers: seq<Option<Answer>>): Option<byte> {
    if answers == [] then None
    else
      match answers[|answers| - 1]
      case Some(a) =>
        if a.Eap().Some? && |a.Eap().value| >= 2 && a.Eap().value[0] == 1 then Some(a.Eap().value[1])
        else LastRequestId(answers[..|answers| - 1])
      case None => LastRequestId(answers[..|answers| - 1])
  }

  /** The key blob of the last Access-Accept that carried one. */
  function LastKey(answers: seq<Option<Answer>>, key: AttrKey): Option<Bytes> {
    if answers == [] then None
    else
      var before := LastKey(answers[..|answers| - 1], key);
      match answers[|answers| - 1]
      case Some(a) => if a.code == 2 && FirstUnder(a, key).Some? then FirstUnder(a, key) else before
      case None => before
  }

  /** Each request carries the State of the last answer before it. */
  predicate Chained(leg: ServerLeg) {
    && |leg.requests| == |leg.answers|
    && forall i :: 0 <= i < |leg.requests| ==> leg.requests[i].state == LastState(leg.answers[..i])
  }

  /** What the session remembers is what its conversation says. */
  predicate Faithful(leg: ServerLeg) {
    && Chained(leg)
    && leg.radiusState == LastState(leg.answers)
    && leg.lastEapReqId == LastRequestId(leg.answers)
    && leg.msMppeSendKey == LastKey(leg.answers, Vendor(311, 16))
    && leg.msMppeRecvKey == LastKey(leg.answers, Vendor(311, 17))
    && leg.roundTrips == |leg.requests|
  }

  /**
   Request number i, made in a call that began with the leg `before`: an EAP-Response that echoes the last
   EAP-Request received before it or, while there is none, counts on from the fallback counter.
   */
  predicate Echoes(before: ServerLeg, leg: ServerLeg, i: nat)
    requires |before.requests| <= i < |leg.requests| <= |leg.answers|
  {
    var eap := leg.requests[i].Eap();
    && |eap| >= 2 && eap[0] == 2
    && eap[1] == match LastRequestId(leg.answers[..i])
                 case Some(id) => id
                 case None => (before.nextId + 1 + (i - |before.requests|)) % 0x100
  }

  /** A name is passed on unless it is absent or empty. */
  predicate PassedOn(sent: Option<string>, given: Option<string>) {
    if given == None || given == Some("") then sent == None else sent == given
  }

  predicate SentFor(request: Request, leg: ServerLeg, caller: Caller) {
    && request.authenticator == leg.lastApAuthenticator
    && request.username == caller.username
    && PassedOn(request.calling, caller.calling)
    && PassedOn(request.called, caller.called)
  }

  /** The leg grew, on behalf of this caller; only the fallback counter aside. */
  predicate Grew(before: ServerLeg, after: ServerLeg, caller: Caller) {
    && before.requests <= after.requests && before.answers <= after.answers
    && |after.requests| == |after.answers|
    && after.lastApAuthenticator == before.lastApAuthenticator
    && (forall i :: |before.requests| <= i < |after.requests| ==> SentFor(after.requests[i], before, caller))
    && (before.lastEapReqId.Some? ==> after.lastEapReqId.Some? && after.nextId == before.nextId)
  }

  /** The leg grew by packets the mediator built itself. */
  predicate GrewEchoing(before: ServerLeg, after: ServerLeg, caller: Caller) {
    && Grew(before, after, caller)
    && forall i :: |before.requests| <= i < |after.requests| ==> Echoes(before, after, i)
  }

  /** The fallback counter stands where the requests made without a Request to echo have taken it. */
  predicate Counted(before: ServerLeg, after: ServerLeg) {
    after.lastEapReqId.None? && |before.requests| <= |after.requests| ==>
      after.nextId == (before.nextId + (|after.requests| - |before.requests|)) % 0x100
  }

  lemma {:induction false} NoneBefore(answers: seq<Option<Answer>>, n: nat)
    requires LastRequestId(answers).None? && n <= |answers|
    ensures LastRequestId(answers[..n]).None?
    decreases |answers|
  {
    hide ConcatEap;
    if n < |answers| {
      NoneBefore(answers[..|answers| - 1], n);
      assert answers[..|answers| - 1][..n] == answers[..n];
    } else {
      assert answers[..n] == answers;
    }
  }

  lemma ModSteps(a: nat, b: nat, c: nat)
    ensures ((a + b) % 0x100 + c) % 0x100 == (a + b + c) % 0x100
  {
  }

  lemma EchoesFromBefore(a: ServerLeg, b: ServerLeg, c: ServerLeg, i: nat)
    requires Faithful(b) && |a.requests| <= |b.requests| <= i < |c.requests| <= |c.answers|
    requires b.answers <= c.answers && Counted(a, b) && Echoes(b, c, i)
    ensures Echoes(a, c, i)
  {
    var k, j := |b.requests| - |a.requests|, i - |b.requests|;
    if LastRequestId(c.answers[..i]).None? {
      NoneBefore(c.answers[..i], |b.answers|);
      assert c.answers[..i][..|b.answers|] == b.answers;
      ModSteps(a.nextId, k, 1 + j);
    }
  }

  lemma GrewTransitive(a: ServerLeg, b: ServerLeg, c: ServerLeg, caller: Caller)
    requires |a.requests| == |a.answers| && Faithful(b) && Counted(a, b)
    requires GrewEchoing(a, b, caller) && GrewEchoing(b, c, caller)
    ensures GrewEchoing(a, c, caller)
    ensures Counted(b, c) ==> Counted(a, c)
  {
    hide Faithful, Echoes;
    forall i | |a.requests| <= i < |c.requests| ensures SentFor(c.requests[i], a, caller) && Echoes(a, c, i) {
      if i < |b.requests| {
        StillEchoes(a, b, c, i);
        assert SentFor(b.requests[i], a, caller);
      } else {
        EchoesFromBefore(a, b, c, i);
        assert SentFor(c.requests[i], b, caller);
      }
    }
    CountsOn(a, b, c);
  }

  lemma StillEchoes(a: ServerLeg, b: ServerLeg, c: ServerLeg, i: nat)
    requires |a.requests| <= i < |b.requests| == |b.answers| && Echoes(a, b, i)
    requires b.requests <= c.requests && b.answers <= c.answers && |c.requests| == |c.answers|
    ensures Echoes(a, c, i)
  {
    assert c.requests[i] == b.requests[i] && c.answers[..i] == b.answers[..i];
  }

  lemma CountsOn(a: ServerLeg, b: ServerLeg, c: ServerLeg)
    requires Counted(a, b) && |a.requests| <= |b.requests| <= |c.requests|
    requires b.lastEapReqId.Some? ==> c.lastEapReqId.Some?
    ensures Counted(b, c) ==> Counted(a, c)
  {
    ModSteps(a.nextId, |b.requests| - |a.requests|, |c.requests| - |b.requests|);
  }

  /** What an exchange logs. */
  lemma ExchangeAdds(server: Server, leg: ServerLeg, caller: Caller, eap: Bytes)
    ensures var leg' := Exchange(server, leg, caller, eap).0;
            && |leg'.requests| == |leg.requests| + 1 && |leg'.answers| == |leg.answers| + 1
            && leg'.requests[..|leg.requests|] == leg.requests && leg'.answers[..|leg.answers|] == leg.answers
            && leg.requests <= leg'.requests && leg.answers <= leg'.answers
            && leg'.requests[|leg.requests|].Eap() == eap && leg'.requests[|leg.requests|].state == leg.radiusState
            && SentFor(leg'.requests[|leg.requests|], leg, caller)
  {
    hide ConcatEap;
    ChunksCutExactly(eap, MAX_VALUE);
  }

  /** What it remembers. */
  lemma ExchangeRemembers(server: Server, leg: ServerLeg, caller: Caller, eap: Bytes)
    requires Faithful(leg)
    ensures var leg' := Exchange(server, leg, caller, eap).0;
            && leg'.radiusState == LastState(leg'.answers) && leg'.lastEapReqId == LastRequestId(leg'.answers)
            && leg'.msMppeSendKey == LastKey(leg'.answers, Vendor(311, 16))
            && leg'.msMppeRecvKey == LastKey(leg'.answers, Vendor(311, 17))
            && leg'.roundTrips == |leg'.requests| && leg'.nextId == leg.nextId
            && leg'.lastApAuthenticator == leg.lastApAuthenticator
            && (leg.lastEapReqId.Some? ==> leg'.lastEapReqId.Some?)
  {
    hide ConcatEap, SplitEap, Chained;
    var leg' := Exchange(server, leg, caller, eap).0;
    assert leg'.answers[..|leg.answers|] == leg.answers;
  }

  /** One exchange keeps all of it. */
  lemma ExchangeIsFaithful(server: Server, leg: ServerLeg, caller: Caller, eap: Bytes)
    requires Faithful(leg)
    ensures var leg' := Exchange(server, leg, caller, eap).0;
            && Faithful(leg') && Grew(leg, leg', caller)
            && |leg'.requests| == |leg.requests| + 1
            && leg'.requests[|leg.requests|].Eap() == eap
            && leg'.answers[..|leg.requests|] == leg.answers && leg'.nextId == leg.nextId
  {
    hide Exchange, LastState, LastRequestId, LastKey, SentFor;
    ExchangeAdds(server, leg, caller, eap);
    ExchangeRemembers(server, leg, caller, eap);
    var leg' := Exchange(server, leg, caller, eap).0;
    forall i | 0 <= i < |leg'.requests| ensures leg'.requests[i].state == LastState(leg'.answers[..i]) {
      if i < |leg.requests| {
        assert leg'.answers[..i] == leg.answers[..i] && leg'.requests[i] == leg.requests[i];
      }
    }
  }

  /** The first of some values, or else what was there. */
  function FirstOr(values: seq<Bytes>, otherwise: Option<Bytes>): Option<Bytes> {
    if values == [] then otherwise else Some(values[0])
  }

  /**
   From the octets of an answer to what is kept of it: for any attributes that hold no others but vendor-specific
   ones, the reply has the first State and all EAP-Message values joined, and an Access-Accept leaves
   the first of each MS-MPPE key that its vendor attributes hold.
   */
  lemma AnswerIsRead(server: Server, leg: ServerLeg, caller: Caller, eap: Bytes, lib: Library, code: byte, list: seq<Tlv>)
    requires Encodable(list) && NoneNested(lib, list)
    requires AnswerTo(server, leg.requests + [RequestFor(leg, caller, leg.radiusState, eap)])
          == Some(Answer(code, Collect(lib, map[], ScanTlvs(EncodeTlvs(list)).list)))
    ensures var (leg', reply) := Exchange(server, leg, caller, eap);
            var joined := Join(ValuesOf(lib, list, Plain(79)));
            && reply == Some(Reply(code, if joined == [] then None else Some(joined),
                                   FirstOr(ValuesOf(lib, list, Plain(24)), None)))
            && leg'.radiusState == reply.value.state
            && leg'.msMppeSendKey == (if code == 2 then FirstOr(ValuesOf(lib, list, Vendor(311, 16)), leg.msMppeSendKey)
                                      else leg.msMppeSendKey)
            && leg'.msMppeRecvKey == (if code == 2 then FirstOr(ValuesOf(lib, list, Vendor(311, 17)), leg.msMppeRecvKey)
                                      else leg.msMppeRecvKey)
  {
    hide Collect, ValuesOf, EncodeTlvs, Join, SplitEap;
    ScanOfEncode(list);
    var attrs := Collect(lib, map[], list);
    CollectKeepsOrder(lib, map[], list, Plain(24));
    CollectKeepsOrder(lib, map[], list, Plain(79));
    CollectKeepsOrder(lib, map[], list, Vendor(311, 16));
    CollectKeepsOrder(lib, map[], list, Vendor(311, 17));
    NothingAtFirst(ValuesOf(lib, list, Plain(24)));
    NothingAtFirst(ValuesOf(lib, list, Plain(79)));
    NothingAtFirst(ValuesOf(lib, list, Vendor(311, 16)));
    NothingAtFirst(ValuesOf(lib, list, Vendor(311, 17)));
  }

  lemma NothingAtFirst(values: seq<Bytes>)
    ensures [] + values == values
  {
  }

  /** Answering with the picked Identifier is an echo. */
  lemma PickedIdEchoes(server: Server, leg: ServerLeg, caller: Caller, eap: Bytes)
    requires Faithful(leg) && |eap| >= 2 && eap[0] == RESPONSE && eap[1] == PickUpstreamId(leg).1
    ensures var leg' := Exchange(server, PickUpstreamId(leg).0, caller, eap).0;
            Faithful(leg') && GrewEchoing(leg, leg', caller) && Counted(leg, leg')
  {
    var picked := PickUpstreamId(leg).0;
    ExchangeIsFaithful(server, picked, caller, eap);
    var leg' := Exchange(server, picked, caller, eap).0;
    forall i | |leg.requests| <= i < |leg'.requests| ensures Echoes(leg, leg', i) {
      assert i == |leg.requests|;
    }
  }

  lemma AckUpstreamIsFaithful(server: Server, s: SessionView, caller: Caller)
    requires Faithful(s.server)
    ensures var s' := AckUpstream(server, s, caller).0;
            Faithful(s'.server) && GrewEchoing(s.server, s'.server, caller) && Counted(s.server, s'.server)
  {
    PickedIdEchoes(server, s.server, caller, BuildAck(RESPONSE, PickUpstreamId(s.server).1));
  }

  lemma {:induction false} DrainIsFaithful(server: Server, s: SessionView, caller: Caller, more: bool)
    requires Faithful(s.server)
    ensures var s' := Drain(server, s, caller, more).0;
            Faithful(s'.server) && GrewEchoing(s.server, s'.server, caller) && Counted(s.server, s'.server)
    decreases if |s.server.requests| <= server.lifetime then server.lifetime - |s.server.requests| + 1 else 0
  {
    if more {
      AckUpstreamIsFaithful(server, s, caller);
      var (s1, reply) := AckUpstream(server, s, caller);
      if reply.Some? {
        var (s2, turn) := TakeFragment(s1, reply.value);
        if turn.Pulled? {
          DrainIsFaithful(server, s2, caller, turn.more);
          GrewTransitive(s.server, s1.server, Drain(server, s2, caller, turn.more).0.server, caller);
        }
      }
    }
  }

  lemma ReplyHandlingIsFaithful(server: Server, s: SessionView, caller: Caller, reply: Reply)
    requires Faithful(s.server)
    ensures var s' := HandleUpstreamReply(server, s, caller, reply).0;
            Faithful(s'.server) && GrewEchoing(s.server, s'.server, caller) && Counted(s.server, s'.server)
  {
    if !reply.Accept() && !reply.Reject() && reply.eap.Some? && Parse(reply.eap.value).Ok? {
      var pkt := Parse(reply.eap.value).value;
      DrainIsFaithful(server, IngestDown(s, pkt).0, caller, pkt.moreFragments);
    }
  }

  lemma SendChunkIsFaithful(server: Server, s: SessionView, caller: Caller, total: nat, chunks: seq<Bytes>, i: nat)
    requires Faithful(s.server) && i < |chunks|
    ensures var (s', reply) := SendChunk(server, s, caller, total, chunks, i);
            && Faithful(s'.server) && GrewEchoing(s.server, s'.server, caller)
            && (reply.Ok? ==> Counted(s.server, s'.server))
  {
    var id := PickUpstreamId(s.server).1;
    var built := Build(RESPONSE, id, chunks[i], i < |chunks| - 1, if i == 0 then Some(total) else None, false);
    if built.Ok? {
      PickedIdEchoes(server, s.server, caller, built.value);
    }
  }

  lemma {:induction false} SendChunksIsFaithful(server: Server, s: SessionView, caller: Caller,
                                                total: nat, chunks: seq<Bytes>, i: nat)
    requires Faithful(s.server) && i < |chunks|
    ensures var (s', reply) := SendChunks(server, s, caller, total, chunks, i);
            && Faithful(s'.server) && GrewEchoing(s.server, s'.server, caller)
            && (reply.Ok? ==> Counted(s.server, s'.server))
    decreases |chunks| - i
  {
    SendChunkIsFaithful(server, s, caller, total, chunks, i);
    var (s1, reply) := SendChunk(server, s, caller, total, chunks, i);
    if reply.Ok? && i < |chunks| - 1 {
      SendChunksIsFaithful(server, s1, caller, total, chunks, i + 1);
      GrewTransitive(s.server, s1.server, SendChunks(server, s1, caller, total, chunks, i + 1).0.server, caller);
    }
  }

  lemma ForwardIsFaithful(server: Server, s: SessionView, caller: Caller, record: Bytes)
    requires Faithful(s.server)
    ensures var s' := ForwardRecordUpstream(server, s, caller, record).0;
            Faithful(s'.server) && GrewEchoing(s.server, s'.server, caller)
  {
    var fragmented := Fragment(record, s.settings.upstreamFragmentSize);
    if fragmented.Ok? {
      SendChunksIsFaithful(server, s, caller, |record|, fragmented.value, 0);
      var (s1, reply) := SendChunks(server, s, caller, |record|, fragmented.value, 0);
      if reply.Ok? {
        ReplyHandlingIsFaithful(server, s1, caller, reply.value);
        GrewTransitive(s.server, s1.server, HandleUpstreamReply(server, s1, caller, reply.value).0.server, caller);
      }
    }
  }

  lemma PollIsFaithful(server: Server, s: SessionView, caller: Caller)
    requires Faithful(s.server) && s.supplicant.outbox == [] && s.result.None?
    ensures var s' := HandleAck(server, s, caller).0;
            Faithful(s'.server) && GrewEchoing(s.server, s'.server, caller)
  {
    hide HandleUpstreamReply, Exchange, Encode;
    var (leg, id) := PickUpstreamId(s.server);
    var ack := BuildAck(RESPONSE, id);
    PickedIdEchoes(server, s.server, caller, ack);
    var (leg', reply) := Exchange(server, leg, caller, ack);
    var s' := s.(server := leg');
    if reply.Some? {
      ReplyHandlingIsFaithful(server, s', caller, reply.value);
      var s'' := HandleUpstreamReply(server, s', caller, reply.value).0;
      assert HandleAck(server, s, caller).0 == s'';
      GrewTransitive(s.server, leg', s''.server, caller);
    } else {
      assert HandleAck(server, s, caller).0 == s';
    }
  }

  lemma AckHandlingIsFaithful(server: Server, s: SessionView, caller: Caller)
    requires Faithful(s.server)
    ensures var s' := HandleAck(server, s, caller).0;
            Faithful(s'.server) && GrewEchoing(s.server, s'.server, caller)
  {
    if s.supplicant.outbox == [] && s.result.None? {
      PollIsFaithful(server, s, caller);
    } else if s.supplicant.outbox == [] {
      assert s.result.value.Accepted? || s.result.value.Rejected?;
    }
  }

  lemma StaysFaithful(leg: ServerLeg, caller: Caller)
    requires Faithful(leg)
    ensures GrewEchoing(leg, leg, caller)
  {
    hide Echoes, SentFor;
  }

  lemma DataHandlingIsFaithful(server: Server, s: SessionView, caller: Caller, pkt: EapTlsPacket)
    requires Faithful(s.server)
    ensures var s' := HandleData(server, s, caller, pkt).0;
            Faithful(s'.server) && GrewEchoing(s.server, s'.server, caller)
  {
    hide ForwardRecordUpstream, Faithful, GrewEchoing;
    StaysFaithful(s.server, caller);
    var (r, ingested) := Ingest(s.settings.maxMessageLen, s.upReasm, pkt);
    if ingested.Message? {
      var s' := s.(upReasm := r, up := s.up.(bytesReassembled := s.up.bytesReassembled + |ingested.data|));
      ForwardIsFaithful(server, s', caller, ingested.data);
    }
  }

  /**
   Against any server, a supplicant packet leaves the memory of the session true to its
   conversation; every request it causes bears the authenticator and names of the datagram
   being answered; and in reassemble mode every packet sent upstream echoes the Identifier of
   the latest upstream EAP-Request, the fallback counter being untouched once there was one.
   */
  lemma HandlerIsFaithful(server: Server, s: SessionView, caller: Caller, eap: Bytes)
    requires Faithful(s.server)
    ensures var s' := HandleSupplicantEap(server, s, caller, eap).0;
            && Faithful(s'.server) && Grew(s.server, s'.server, caller)
            && (s.settings.mode.Reassemble? ==> GrewEchoing(s.server, s'.server, caller))
            && (s.settings.mode.Passthrough? && Parse(eap).Ok? ==>
                  |s'.server.requests| == |s.server.requests| + 1
                  && s'.server.requests[|s.server.requests|].Eap() == eap)
  {
    if Parse(eap).Ok? {
      var pkt := Parse(eap).value;
      var s1 := NotePacket(s, pkt);
      if s.settings.mode.Passthrough? {
        ExchangeIsFaithful(server, s1.server, caller, eap);
      } else if pkt.IsAck() {
        AckHandlingIsFaithful(server, s1, caller);
      } else {
        DataHandlingIsFaithful(server, s1, caller, pkt);
      }
    }
  }

  lemma MirroringIsFaithful(s: SessionView, authenticator: Bytes)
    requires Faithful(s.server)
    ensures Faithful(Mirrored(s, authenticator).server)
  {
  }
}
