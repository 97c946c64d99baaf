/**
 Which verdicts of the auth server conclude a session, against any server whatever: all of them but those
 that, in reassemble mode, answer a chunk with more to follow, whose answers nobody reads.
 */
module VerdictLaws {
  import opened Prelude
  import opened Octets
  import opened EapTls
  import opened Reassembly
  import opened Radius
  import opened SessionState
  import opened MediatorSpec
  import DownstreamSpec
  import opened DrainLaws

  /** A fragment with M. */
  predicate BearsMore(request: Request) {
    Parse(request.Eap()).Ok? && Parse(request.Eap()).value.moreFragments
  }

  predicate Aligned(leg: ServerLeg) {
    |leg.requests| == |leg.answers|
  }

  /**
   From answer number `from` on, a verdict is the last answer and concludes the session if and only if the
   request it answers is not a fragment with M.
   */
  predicate VerdictsCount(t: SessionView, from: nat) {
    && Aligned(t.server)
    && forall i :: from <= i < |t.server.answers| && Ends(t.server.answers[i]) ==>
         ((i == |t.server.answers| - 1 && t.result.Some?) <==> !BearsMore(t.server.requests[i]))
  }

  /** From answer number `from` on, every verdict is the last answer and concludes the session. */
  predicate AllVerdictsCount(t: SessionView, from: nat) {
    && Aligned(t.server)
    && forall i :: from <= i < |t.server.answers| && Ends(t.server.answers[i]) ==>
         i == |t.server.answers| - 1 && t.result.Some?
  }

  /** From request number `from` on, none is a fragment with M. */
  predicate NoMore(t: SessionView, from: nat) {
    forall i :: from <= i < |t.server.requests| ==> !BearsMore(t.server.requests[i])
  }

  predicate Longer(s: SessionView, t: SessionView) {
    s.server.answers <= t.server.answers && s.server.requests <= t.server.requests
  }

  lemma AckBearsNoMore(request: Request, id: byte)
    requires request.Eap() == BuildAck(RESPONSE, id)
    ensures !BearsMore(request)
  {
    ParseBuilt(RESPONSE, id, [], false, None, false);
  }

  lemma ExchangeLogs(server: Server, leg: ServerLeg, caller: Caller, eap: Bytes)
    requires Aligned(leg)
    ensures var (leg', reply) := Exchange(server, leg, caller, eap);
            && Aligned(leg') && leg.answers <= leg'.answers && leg.requests <= leg'.requests
            && |leg'.answers| == |leg.answers| + 1 && leg'.requests[|leg.requests|].Eap() == eap
            && var answer := leg'.answers[|leg.answers|];
            reply == if answer.Some? then Some(ReplyOf(answer.value)) else None
  {
    ChunksCutExactly(eap, MAX_VALUE);
  }

  lemma {:induction false} DrainVerdicts(server: Server, s: SessionView, caller: Caller, more: bool)
    requires Aligned(s.server)
    ensures var t := Drain(server, s, caller, more).0;
            && AllVerdictsCount(t, |s.server.answers|) && NoMore(t, |s.server.requests|) && Longer(s, t)
    decreases if |s.server.requests| <= server.lifetime then server.lifetime - |s.server.requests| + 1 else 0
  {
    hide Exchange, Parse, BuildAck, BearsMore, Ingest;
    if more {
      var (leg, id) := PickUpstreamId(s.server);
      ExchangeLogs(server, leg, caller, BuildAck(RESPONSE, id));
      var (s1, reply) := AckUpstream(server, s, caller);
      AckBearsNoMore(s1.server.requests[|s.server.requests|], id);
      if reply.Some? {
        var (s2, turn) := TakeFragment(s1, reply.value);
        if turn.Pulled? {
          DrainVerdicts(server, s2, caller, turn.more);
        }
      }
    }
  }

  /** The reply in hand is the last answer. */
  predicate InHand(leg: ServerLeg, reply: Reply) {
    && Aligned(leg) && leg.answers != []
    && var last := leg.answers[|leg.answers| - 1]; last.Some? && reply == ReplyOf(last.value)
  }

  lemma ReplyVerdicts(server: Server, s: SessionView, caller: Caller, reply: Reply)
    requires InHand(s.server, reply)
    ensures var t := HandleUpstreamReply(server, s, caller, reply).0;
            && AllVerdictsCount(t, |s.server.answers| - 1) && NoMore(t, |s.server.requests|) && Longer(s, t)
  {
    hide Drain, Parse, BearsMore, Ingest, DeliverRecord;
    if !reply.Accept() && !reply.Reject() && reply.eap.Some? && Parse(reply.eap.value).Ok? {
      var pkt := Parse(reply.eap.value).value;
      DrainVerdicts(server, IngestDown(s, pkt).0, caller, pkt.moreFragments);
    }
  }

  lemma ChunkLogs(server: Server, s: SessionView, caller: Caller, total: nat, chunks: seq<Bytes>, i: nat)
    requires Aligned(s.server) && i < |chunks|
    ensures var (t, reply) := SendChunk(server, s, caller, total, chunks, i);
            var n := |s.server.answers|;
            && Aligned(t.server) && s.server.answers <= t.server.answers && s.server.requests <= t.server.requests
            && n <= |t.server.answers| <= n + 1
            && (|t.server.answers| == n + 1 ==> (BearsMore(t.server.requests[n]) <==> i < |chunks| - 1))
            && (reply.Ok? ==> |t.server.answers| == n + 1 && InHand(t.server, reply.value))
            && (reply.Err? && |t.server.answers| == n + 1 ==> t.server.answers[n].None?)
  {
    hide Exchange, Encode, Parse;
    var (leg, id) := PickUpstreamId(s.server);
    var more, length := i < |chunks| - 1, if i == 0 then Some(total) else None;
    if Fits(chunks[i], length) {
      ParseBuilt(RESPONSE, id, chunks[i], more, length, false);
      ExchangeLogs(server, leg, caller, Encode(RESPONSE, id, chunks[i], more, length, false));
    }
  }

  /** The send loop's requests are fragments with M, all but the one whose answer is returned. */
  lemma {:induction false} ChunksLog(server: Server, s: SessionView, caller: Caller, total: nat, chunks: seq<Bytes>, i: nat)
    requires Aligned(s.server) && i < |chunks|
    ensures var (t, reply) := SendChunks(server, s, caller, total, chunks, i);
            var n := |s.server.answers|;
            && Aligned(t.server) && Longer(s, t)
            && (reply.Ok? ==> |t.server.answers| > n && InHand(t.server, reply.value))
            && forall k :: n <= k < |t.server.answers| ==>
                 if reply.Ok? then BearsMore(t.server.requests[k]) <==> k < |t.server.answers| - 1
                 else BearsMore(t.server.requests[k]) || !Ends(t.server.answers[k])
    decreases |chunks| - i
  {
    hide SendChunk, BearsMore;
    ChunkLogs(server, s, caller, total, chunks, i);
    var (s1, reply) := SendChunk(server, s, caller, total, chunks, i);
    if reply.Ok? && i < |chunks| - 1 {
      ChunksLog(server, s1, caller, total, chunks, i + 1);
    }
  }

  lemma ForwardVerdicts(server: Server, s: SessionView, caller: Caller, record: Bytes)
    requires Aligned(s.server) && s.result.None?
    ensures VerdictsCount(ForwardRecordUpstream(server, s, caller, record).0, |s.server.answers|)
    ensures Longer(s, ForwardRecordUpstream(server, s, caller, record).0)
  {
    hide SendChunks, HandleUpstreamReply, BearsMore, Chunks;
    var fragmented := Fragment(record, s.settings.upstreamFragmentSize);
    if fragmented.Ok? {
      ChunksLog(server, s, caller, |record|, fragmented.value, 0);
      var (s1, reply) := SendChunks(server, s, caller, |record|, fragmented.value, 0);
      if reply.Ok? {
        ReplyVerdicts(server, s1, caller, reply.value);
      }
    }
  }

  lemma PollVerdicts(server: Server, s: SessionView, caller: Caller)
    requires Aligned(s.server) && s.result.None?
    ensures VerdictsCount(HandleAck(server, s, caller).0, |s.server.answers|)
    ensures Longer(s, HandleAck(server, s, caller).0)
  {
    hide Exchange, HandleUpstreamReply, BearsMore, BuildAck;
    if s.supplicant.outbox == [] {
      var (leg, id) := PickUpstreamId(s.server);
      ExchangeLogs(server, leg, caller, BuildAck(RESPONSE, id));
      var (leg', reply) := Exchange(server, leg, caller, BuildAck(RESPONSE, id));
      AckBearsNoMore(leg'.requests[|leg.requests|], id);
      if reply.Some? {
        ReplyVerdicts(server, s.(server := leg'), caller, reply.value);
      }
    }
  }

  /**
   Any packet on any route, against any server. In reassemble mode a verdict among the server's answers is
   the last of them and concludes the session in this very call if and only if it does not answer a
   fragment with M; on every other route every verdict does.
   */
  lemma EveryVerdictCounts(server: Server, s: SessionView, caller: Caller, eap: Bytes)
    requires Aligned(s.server) && s.result.None?
    ensures var t := DownstreamSpec.Route(server, s, caller, eap).0;
            && Longer(s, t)
            && if s.settings.mode.Reassemble? && |eap| >= 5 && eap[4] == EAP_TYPE_TLS
               then VerdictsCount(t, |s.server.answers|) else AllVerdictsCount(t, |s.server.answers|)
  {
    hide Exchange, Parse, HandleAck, ForwardRecordUpstream, BearsMore, Ingest;
    ExchangeLogs(server, s.server, caller, eap);
    if Parse(eap).Ok? && s.settings.mode.Reassemble? {
      var pkt := Parse(eap).value;
      var s1 := NotePacket(s, pkt);
      if pkt.IsAck() {
        PollVerdicts(server, s1, caller);
      } else {
        var (r, ingested) := Ingest(s1.settings.maxMessageLen, s1.upReasm, pkt);
        if ingested.Message? {
          var s2 := s1.(upReasm := r, up := s1.up.(bytesReassembled := s1.up.bytesReassembled + |ingested.data|));
          ForwardVerdicts(server, s2, caller, ingested.data);
        }
      }
    }
  }

  /** Every verdict among the first n answers answered a fragment with M, in reassemble mode. */
  predicate Unread(mode: Mode, leg: ServerLeg, n: nat) {
    && Aligned(leg) && n <= |leg.answers|
    && forall i :: 0 <= i < n && Ends(leg.answers[i]) ==> mode.Reassemble? && BearsMore(leg.requests[i])
  }

  /** A session that goes on has outlived unread verdicts only; one that ends, but for its last. */
  lemma OutlivesTheUnread(server: Server, s: SessionView, caller: Caller, eap: Bytes)
    requires s.result.None? && Unread(s.settings.mode, s.server, |s.server.answers|)
    ensures var t := DownstreamSpec.Route(server, s, caller, eap).0;
            && (t.result.None? ==> Unread(s.settings.mode, t.server, |t.server.answers|))
            && (t.server.answers != [] ==> Unread(s.settings.mode, t.server, |t.server.answers| - 1))
  {
    hide BearsMore, Ends;
    EveryVerdictCounts(server, s, caller, eap);
    var t := DownstreamSpec.Route(server, s, caller, eap).0;
    forall i | 0 <= i < |t.server.answers| && Ends(t.server.answers[i]) && (i < |t.server.answers| - 1 || t.result.None?)
      ensures t.settings.mode.Reassemble? && BearsMore(t.server.requests[i])
    {
      if i < |s.server.answers| {
        assert t.server.answers[i] == s.server.answers[i] && t.server.requests[i] == s.server.requests[i];
      }
    }
  }
}
