/**
 The server's messages as its conversation with the session shows them, and what the reassembler knows of
 them, against any auth server whatever: where the two agree, and which answers part them.
 */
module MessageLaws {
  import opened Prelude
  import opened Octets
  import opened EapTls
  import opened Reassembly
  import opened Radius
  import opened SessionState
  import opened MediatorSpec
  import DownstreamSpec
  import opened DrainLaws
  import opened VerdictLaws

  // ---- Messages -----------------------------------------------------------

  /** What the server has sent of a message it has not ended: all data since its last fragment without M. */
  function Opened(answers: seq<Option<Answer>>): Bytes
    decreases |answers|
  {
    if answers == [] then []
    else
      var (front, last) := (answers[..|answers| - 1], answers[|answers| - 1]);
      if Completes(last) then [] else Opened(front) + Brings(last)
  }

  /** The messages it has ended, in order, each from its beginning to its end. */
  function Messages(answers: seq<Option<Answer>>): seq<Bytes>
    decreases |answers|
  {
    if answers == [] then []
    else
      var (front, last) := (answers[..|answers| - 1], answers[|answers| - 1]);
      Messages(front) + if Completes(last) then [Opened(front) + Brings(last)] else []
  }

  lemma OneMore(answers: seq<Option<Answer>>, last: Option<Answer>)
    ensures Opened(answers + [last]) == if Completes(last) then [] else Opened(answers) + Brings(last)
    ensures Messages(answers + [last])
         == Messages(answers) + if Completes(last) then [Opened(answers) + Brings(last)] else []
  {
    hide Completes, Brings;
    assert (answers + [last])[..|answers|] == answers;
  }

  /** Fragments with M add to the message that is open. */
  lemma {:induction false} OpenedGrows(answers: seq<Option<Answer>>, run: seq<Option<Answer>>)
    requires forall a :: a in run ==> Continues(a)
    ensures Opened(answers + run) == Opened(answers) + AllBring(run) && Messages(answers + run) == Messages(answers)
    decreases |run|
  {
    hide Continues, Completes, Brings, Opened, Messages, AllBring;
    if run == [] {
      assert answers + run == answers && AllBring([]) == [] by { NoneBring(); }
      assert Opened(answers) + [] == Opened(answers);
    } else {
      var front, last := run[..|run| - 1], run[|run| - 1];
      assert last in run && run == front + [last];
      OpenedGrows(answers, front);
      NotBoth(last);
      OneMore(answers + front, last);
      AllBringSnoc(front, last);
      assert answers + run == answers + front + [last];
      assert Opened(answers) + (AllBring(front) + Brings(last)) == Opened(answers) + AllBring(front) + Brings(last);
    }
  }

  lemma NoneBring()
    ensures AllBring([]) == []
  {
  }

  lemma NotBoth(answer: Option<Answer>)
    requires Continues(answer)
    ensures !Completes(answer)
  {
  }

  /** The data of a conversation, packet by packet. */
  function DataOf(answers: seq<Option<Answer>>): seq<EapTlsPacket>
    decreases |answers|
  {
    if answers == [] then []
    else
      var (front, last) := (answers[..|answers| - 1], answers[|answers| - 1]);
      DataOf(front) + if IsData(last) then [FragmentOf(last)] else []
  }

  lemma {:induction false} FeedOneMore(max: nat, r: Reasm, pkts: seq<EapTlsPacket>, pkt: EapTlsPacket)
    ensures var fed := Feed(max, r, pkts);
            Feed(max, r, pkts + [pkt])
            == if fed.error.Some? then fed
               else match Ingest(max, fed.r, pkt)
                    case (r', Raised(e)) => Fed(r', fed.messages, Some(e))
                    case (r', NeedMore) => Fed(r', fed.messages, None)
                    case (r', Message(m)) => Fed(r', fed.messages + [m], None)
    decreases |pkts|
  {
    hide Ingest;
    if pkts == [] {
      assert [] + [pkt] == [pkt];
    } else {
      FeedOneMore(max, Ingest(max, r, pkts[0]).0, pkts[1..], pkt);
      assert (pkts + [pkt])[1..] == pkts[1..] + [pkt];
    }
  }

  /** The messages so read off are those a reassembler gives that hears all of the data and raises at none. */
  lemma {:induction false} MessagesAreHeard(max: nat, answers: seq<Option<Answer>>)
    ensures var fed := Feed(max, EMPTY, DataOf(answers));
            fed.error.None? ==> fed.messages == Messages(answers) && Buffered(fed.r) == Opened(answers)
    decreases |answers|
  {
    hide Parse, ConcatEap, Ingest, Feed;
    if answers == [] {
      assert Feed(max, EMPTY, []) == Fed(EMPTY, [], None) by { FeedNothing(max); }
    } else {
      var front, last := answers[..|answers| - 1], answers[|answers| - 1];
      MessagesAreHeard(max, front);
      var fed := Feed(max, EMPTY, DataOf(front));
      if IsData(last) {
        FeedOneMore(max, EMPTY, DataOf(front), FragmentOf(last));
        IngestEnds(max, fed.r, FragmentOf(last));
        HeldAfter(max, fed.r, FragmentOf(last));
      } else {
        assert DataOf(front) + [] == DataOf(front) && Opened(front) + [] == Opened(front);
      }
    }
  }

  lemma FeedNothing(max: nat)
    ensures Feed(max, EMPTY, []) == Fed(EMPTY, [], None)
  {
  }

  // ---- What the reassembler remembers -------------------------------------

  /** A request whose answer is looked at: an EAP-TLS packet, and not a chunk with more to follow. */
  predicate Reads(request: Request) {
    |request.Eap()| >= 5 && request.Eap()[4] == EAP_TYPE_TLS && !BearsMore(request)
  }

  /** What one exchange does to the reassembler. */
  function Told(max: nat, r: Reasm, request: Request, answer: Option<Answer>): Reasm {
    if Reads(request) && IsData(answer) then Ingest(max, r, FragmentOf(answer)).0 else r
  }

  /** What a whole conversation makes of it. */
  function ReasmOf(max: nat, requests: seq<Request>, answers: seq<Option<Answer>>): Reasm
    requires |requests| == |answers|
    decreases |answers|
  {
    if answers == [] then EMPTY
    else
      var n := |answers| - 1;
      Told(max, ReasmOf(max, requests[..n], answers[..n]), requests[n], answers[n])
  }

  lemma ReasmOfSnoc(max: nat, requests: seq<Request>, answers: seq<Option<Answer>>,
                    request: Request, answer: Option<Answer>)
    requires |requests| == |answers|
    ensures ReasmOf(max, requests + [request], answers + [answer])
         == Told(max, ReasmOf(max, requests, answers), request, answer)
  {
    hide Told;
    assert (requests + [request])[..|answers|] == requests && (answers + [answer])[..|answers|] == answers;
  }

  /** The downstream reassembler is what the conversation with the server has made it. */
  predicate Remembers(s: SessionView) {
    Aligned(s.server) && s.downReasm == ReasmOf(s.settings.maxMessageLen, s.server.requests, s.server.answers)
  }

  /** The same but for the last answer, which is in hand. */
  predicate Pending(s: SessionView, reply: Reply) {
    && InHand(s.server, reply)
    && var n := |s.server.answers| - 1;
    && Reads(s.server.requests[n])
    && s.downReasm == ReasmOf(s.settings.maxMessageLen, s.server.requests[..n], s.server.answers[..n])
  }

  /** One exchange: its answer is in hand if it is to be read, or else forgotten. */
  lemma ExchangeIsRemembered(server: Server, s: SessionView, leg: ServerLeg, caller: Caller, eap: Bytes)
    requires Remembers(s) && leg.requests == s.server.requests && leg.answers == s.server.answers
    ensures var (leg', reply) := Exchange(server, leg, caller, eap);
            var t := s.(server := leg');
            && |leg'.requests| == |leg.requests| + 1 && leg'.requests[|leg.requests|].Eap() == eap
            && (Reads(leg'.requests[|leg.requests|]) && reply.Some? ==> Pending(t, reply.value))
            && (!Reads(leg'.requests[|leg.requests|]) || reply.None? ==> Remembers(t))
  {
    hide Exchange, Reads, ReasmOf, Ingest;
    ExchangeLogs(server, leg, caller, eap);
    var (leg', reply) := Exchange(server, leg, caller, eap);
    var n := |leg.answers|;
    assert leg'.requests == s.server.requests + [leg'.requests[n]] && leg'.answers == s.server.answers + [leg'.answers[n]];
    assert leg'.requests[..n] == s.server.requests && leg'.answers[..n] == s.server.answers;
    ReasmOfSnoc(s.settings.maxMessageLen, s.server.requests, s.server.answers, leg'.requests[n], leg'.answers[n]);
  }

  lemma AckIsRead(request: Request, id: byte)
    requires request.Eap() == BuildAck(RESPONSE, id)
    ensures Reads(request)
  {
    AckBearsNoMore(request, id);
  }

  /** An answer in hand that brings nothing is as good as read. */
  lemma NothingToTake(s: SessionView, reply: Reply)
    requires Pending(s, reply) && !IsData(s.server.answers[|s.server.answers| - 1])
    ensures Remembers(s)
  {
    hide Reads, IsData, Ingest;
  }

  /** Any other is read by ingesting it. */
  lemma DataIsTaken(s: SessionView, reply: Reply, pkt: EapTlsPacket)
    requires Pending(s, reply) && !reply.Accept() && !reply.Reject() && reply.eap.Some?
    requires Parse(reply.eap.value) == Ok(pkt)
    ensures Remembers(IngestDown(s, pkt).0)
  {
    hide Reads, Parse, ConcatEap;
    if pkt.IsAck() {
      NothingToTake(s, reply);
    }
  }

  lemma TurnIsRemembered(s: SessionView, reply: Reply)
    requires Pending(s, reply)
    ensures Remembers(TakeFragment(s, reply).0)
  {
    hide Pending, Remembers, Parse, Ingest;
    if !reply.Accept() && !reply.Reject() && reply.eap.Some? && Parse(reply.eap.value).Ok? {
      DataIsTaken(s, reply, Parse(reply.eap.value).value);
    } else {
      BringsNothing(s, reply);
    }
  }

  /** A verdict, or a challenge that cannot be read, brings nothing. */
  lemma BringsNothing(s: SessionView, reply: Reply)
    requires Pending(s, reply)
    requires !(!reply.Accept() && !reply.Reject() && reply.eap.Some? && Parse(reply.eap.value).Ok?)
    ensures forall verdict: Option<Verdict>, success: Option<Bytes>, failure: Option<Bytes> ::
              Remembers(s.(result := verdict, pendingSuccess := success, pendingFailure := failure))
  {
    hide Reads, Parse, ConcatEap, ReasmOf;
    NothingToTake(s, reply);
  }

  lemma {:induction false} DrainIsRemembered(server: Server, s: SessionView, caller: Caller, more: bool)
    requires Remembers(s)
    ensures Remembers(Drain(server, s, caller, more).0)
    decreases if |s.server.requests| <= server.lifetime then server.lifetime - |s.server.requests| + 1 else 0
  {
    hide Exchange, Pending, Remembers, TakeFragment, BuildAck, Reads;
    if more {
      AckIsRemembered(server, s, caller);
      var (s1, reply) := AckUpstream(server, s, caller);
      if reply.Some? {
        TurnIsRemembered(s1, reply.value);
        var (s2, turn) := TakeFragment(s1, reply.value);
        if turn.Pulled? {
          DrainIsRemembered(server, s2, caller, turn.more);
        }
      }
    }
  }

  lemma AckIsRemembered(server: Server, s: SessionView, caller: Caller)
    requires Remembers(s)
    ensures var (s1, reply) := AckUpstream(server, s, caller);
            if reply.Some? then Pending(s1, reply.value) else Remembers(s1)
  {
    hide Exchange, BuildAck, Reads, ReasmOf;
    var (leg, id) := PickUpstreamId(s.server);
    ExchangeIsRemembered(server, s, leg, caller, BuildAck(RESPONSE, id));
    var leg' := Exchange(server, leg, caller, BuildAck(RESPONSE, id)).0;
    AckIsRead(leg'.requests[|leg.requests|], id);
  }

  lemma ReplyIsRemembered(server: Server, s: SessionView, caller: Caller, reply: Reply)
    requires Pending(s, reply)
    ensures Remembers(HandleUpstreamReply(server, s, caller, reply).0)
  {
    hide Pending, Parse, Ingest, Drain, DeliverRecord, ReasmOf;
    if !reply.Accept() && !reply.Reject() && reply.eap.Some? && Parse(reply.eap.value).Ok? {
      var pkt := Parse(reply.eap.value).value;
      DataIsTaken(s, reply, pkt);
      DrainIsRemembered(server, IngestDown(s, pkt).0, caller, pkt.moreFragments);
    } else {
      BringsNothing(s, reply);
    }
  }

  /** The send loop reads the last answer only. */
  lemma {:induction false} ChunksAreRemembered(server: Server, s: SessionView, caller: Caller, total: nat,
                                               chunks: seq<Bytes>, i: nat)
    requires Remembers(s) && i < |chunks|
    ensures var (t, reply) := SendChunks(server, s, caller, total, chunks, i);
            if reply.Ok? then Pending(t, reply.value) else Remembers(t)
    decreases |chunks| - i
  {
    hide SendChunk, Remembers, Pending;
    ChunkIsRemembered(server, s, caller, total, chunks, i);
    var (s1, reply) := SendChunk(server, s, caller, total, chunks, i);
    if reply.Ok? && i < |chunks| - 1 {
      ChunksAreRemembered(server, s1, caller, total, chunks, i + 1);
    }
  }

  lemma ChunkIsRemembered(server: Server, s: SessionView, caller: Caller, total: nat, chunks: seq<Bytes>, i: nat)
    requires Remembers(s) && i < |chunks|
    ensures var (t, reply) := SendChunk(server, s, caller, total, chunks, i);
            if reply.Ok? && i == |chunks| - 1 then Pending(t, reply.value) else Remembers(t)
  {
    hide Exchange, Encode, Parse, ReasmOf;
    var (leg, id) := PickUpstreamId(s.server);
    var more, length := i < |chunks| - 1, if i == 0 then Some(total) else None;
    if Fits(chunks[i], length) {
      ParseBuilt(RESPONSE, id, chunks[i], more, length, false);
      ExchangeIsRemembered(server, s, leg, caller, Encode(RESPONSE, id, chunks[i], more, length, false));
    }
  }

  lemma ForwardIsRemembered(server: Server, s: SessionView, caller: Caller, record: Bytes)
    requires Remembers(s)
    ensures Remembers(ForwardRecordUpstream(server, s, caller, record).0)
  {
    hide SendChunks, HandleUpstreamReply, Pending, Remembers, Chunks;
    var fragmented := Fragment(record, s.settings.upstreamFragmentSize);
    if fragmented.Ok? {
      ChunksAreRemembered(server, s, caller, |record|, fragmented.value, 0);
      var (s1, reply) := SendChunks(server, s, caller, |record|, fragmented.value, 0);
      if reply.Ok? {
        ReplyIsRemembered(server, s1, caller, reply.value);
      }
    }
  }

  lemma PollIsRemembered(server: Server, s: SessionView, caller: Caller)
    requires Remembers(s)
    ensures Remembers(HandleAck(server, s, caller).0)
  {
    hide Exchange, HandleUpstreamReply, Pending, BuildAck, Reads, ReasmOf;
    if s.supplicant.outbox == [] && s.result.None? {
      var (leg, id) := PickUpstreamId(s.server);
      ExchangeIsRemembered(server, s, leg, caller, BuildAck(RESPONSE, id));
      var (leg', reply) := Exchange(server, leg, caller, BuildAck(RESPONSE, id));
      AckIsRead(leg'.requests[|leg.requests|], id);
      if reply.Some? {
        ReplyIsRemembered(server, s.(server := leg'), caller, reply.value);
      }
    } else if s.supplicant.outbox == [] {
      assert s.result.value.Accepted? || s.result.value.Rejected?;
    }
  }

  /**
   Any packet on any route, against any server, and however the call ends: in reassemble mode the downstream
   reassembler stays what the conversation with the server has made it.
   */
  lemma EveryRouteIsRemembered(server: Server, s: SessionView, caller: Caller, eap: Bytes)
    requires s.settings.mode.Reassemble? && Remembers(s)
    ensures Remembers(DownstreamSpec.Route(server, s, caller, eap).0)
  {
    hide Exchange, Parse, HandleAck, ForwardRecordUpstream, Ingest, BuildAck, BearsMore, ReasmOf;
    if |eap| < 5 || eap[4] != EAP_TYPE_TLS {
      ExchangeIsRemembered(server, s, s.server, caller, eap);
    } else if Parse(eap).Ok? {
      var pkt := Parse(eap).value;
      var s1 := NotePacket(s, pkt);
      if pkt.IsAck() {
        PollIsRemembered(server, s1, caller);
      } else {
        var (r, ingested) := Ingest(s1.settings.maxMessageLen, s1.upReasm, pkt);
        if ingested.Message? {
          var s2 := s1.(upReasm := r, up := s1.up.(bytesReassembled := s1.up.bytesReassembled + |ingested.data|));
          ForwardIsRemembered(server, s2, caller, ingested.data);
        }
      }
    }
  }

  // ---- In step and out of step --------------------------------------------

  /** The reassembler holds exactly what the server has sent of its open message. */
  predicate InStep(max: nat, requests: seq<Request>, answers: seq<Option<Answer>>)
    requires |requests| == |answers|
  {
    Buffered(ReasmOf(max, requests, answers)) == Opened(answers)
  }

  /**
   An answer that parts the two. One with M does if it brings octets and nobody reads it, or it is refused for
   the length it declares; one without M if the message overflows the reassembler, or nobody
   reads it while the beginning of its message is held.
   */
  predicate Parts(max: nat, r: Reasm, request: Request, answer: Option<Answer>) {
    && IsData(answer)
    && var ingested := Ingest(max, r, FragmentOf(answer)).1;
    if FragmentOf(answer).moreFragments then
      Brings(answer) != [] && (!Reads(request) || ingested == Raised(DeclaredLengthExceedsMax))
    else if Reads(request) then ingested == Raised(BufferExceedsMax)
    else Buffered(r) != []
  }

  /** What is held after a data packet, whichever way the call ends. */
  lemma HeldAfter(max: nat, r: Reasm, pkt: EapTlsPacket)
    requires !pkt.IsAck()
    ensures var (r', ingested) := Ingest(max, r, pkt);
            && (ingested == Raised(DeclaredLengthExceedsMax) ==> Buffered(r') == Buffered(r) == [])
            && (ingested == Raised(BufferExceedsMax) ==>
                  Buffered(r') == Buffered(r) + pkt.tlsData && Buffered(r') != [])
            && (!ingested.Raised? ==>
                  Buffered(r') == if pkt.moreFragments then Buffered(r) + pkt.tlsData else [])
            && (ingested.Raised? ==> ingested.error == DeclaredLengthExceedsMax || ingested.error == BufferExceedsMax)
  {
    assert [] + pkt.tlsData == pkt.tlsData;
  }

  /** From in step, one exchange goes out of step exactly so. */
  lemma StepIsKeptExactly(max: nat, requests: seq<Request>, answers: seq<Option<Answer>>,
                          request: Request, answer: Option<Answer>)
    requires |requests| == |answers| && InStep(max, requests, answers)
    ensures InStep(max, requests + [request], answers + [answer])
       <==> !Parts(max, ReasmOf(max, requests, answers), request, answer)
  {
    hide Reads, Parse, ReasmOf, Opened, Messages, ConcatEap, Ingest, Buffered;
    var r, held := ReasmOf(max, requests, answers), Opened(answers);
    ReasmOfSnoc(max, requests, answers, request, answer);
    OneMore(answers, answer);
    if IsData(answer) {
      HeldAfter(max, r, FragmentOf(answer));
    }
    assert |held + Brings(answer)| == |held| + |Brings(answer)|;
    assert [] + Brings(answer) == Brings(answer) && held + [] == held;
  }

  /** From anywhere, a fragment without M that is read and does not overflow brings the two together again. */
  lemma StepIsFoundAgain(max: nat, requests: seq<Request>, answers: seq<Option<Answer>>,
                         request: Request, answer: Option<Answer>)
    requires |requests| == |answers| && Reads(request) && Completes(answer)
    requires Ingest(max, ReasmOf(max, requests, answers), FragmentOf(answer)).1 != Raised(BufferExceedsMax)
    ensures InStep(max, requests + [request], answers + [answer])
  {
    hide Reads, Parse, ReasmOf, Opened, Messages, ConcatEap;
    ReasmOfSnoc(max, requests, answers, request, answer);
    OneMore(answers, answer);
  }

  /** No answer from number k on parts them. */
  predicate NothingParts(max: nat, requests: seq<Request>, answers: seq<Option<Answer>>, k: nat)
    requires |requests| == |answers|
  {
    forall i :: k <= i < |answers| ==> !Parts(max, ReasmOf(max, requests[..i], answers[..i]), requests[i], answers[i])
  }

  /**
   From any point of a conversation at which the two are in step they are so after each answer that follows if
   and only if none of these parts them.
   */
  lemma {:induction false} InStepThroughout(max: nat, requests: seq<Request>, answers: seq<Option<Answer>>, k: nat)
    requires |requests| == |answers| && k <= |answers| && InStep(max, requests[..k], answers[..k])
    ensures (forall i :: k <= i <= |answers| ==> InStep(max, requests[..i], answers[..i]))
       <==> NothingParts(max, requests, answers, k)
    decreases |answers|
  {
    hide InStep, Parts, ReasmOf;
    if k < |answers| {
      var n := |answers| - 1;
      PrefixesOfPrefix(requests, n);
      PrefixesOfPrefix(answers, n);
      InStepThroughout(max, requests[..n], answers[..n], k);
      if InStep(max, requests[..n], answers[..n]) {
        StepIsKeptExactly(max, requests[..n], answers[..n], requests[n], answers[n]);
      }
    }
  }

  lemma PrefixesOfPrefix<T>(s: seq<T>, n: nat)
    requires |s| == n + 1
    ensures s[..n + 1] == s[..n] + [s[n]] == s
    ensures forall i :: 0 <= i <= n ==> s[..n][..i] == s[..i]
  {
  }

  /** They are at the start, so a conversation in which nothing parts them ends in step. */
  lemma InStepAtLast(max: nat, requests: seq<Request>, answers: seq<Option<Answer>>)
    requires |requests| == |answers|
    ensures NothingParts(max, requests, answers, 0) ==> InStep(max, requests, answers)
  {
    hide Parts;
    assert requests[..0] == [] && answers[..0] == [];
    InStepThroughout(max, requests, answers, 0);
    assert requests[..|answers|] == requests && answers[..|answers|] == answers;
  }

  /**
   And they are after any fragment without M, number j, that is read and does not overflow, whatever went before;
   so a conversation in which nothing has parted them since then ends in step.
   */
  lemma InStepSince(max: nat, requests: seq<Request>, answers: seq<Option<Answer>>, j: nat)
    requires |requests| == |answers| && j < |answers|
    requires Reads(requests[j]) && Completes(answers[j])
    requires Ingest(max, ReasmOf(max, requests[..j], answers[..j]), FragmentOf(answers[j])).1 != Raised(BufferExceedsMax)
    ensures NothingParts(max, requests, answers, j + 1) ==> InStep(max, requests, answers)
  {
    hide Parts, InStep, Reads, Completes, Ingest, ReasmOf;
    StepIsFoundAgain(max, requests[..j], answers[..j], requests[j], answers[j]);
    assert requests[..j + 1] == requests[..j] + [requests[j]] && answers[..j + 1] == answers[..j] + [answers[j]];
    InStepThroughout(max, requests, answers, j + 1);
    assert requests[..|answers|] == requests && answers[..|answers|] == answers;
  }
}
