/** The `Mediator` object of proxy/mediator.py, proved against MediatorSpec. */
module Mediators {
  import opened Prelude
  import opened Octets
  import opened EapTls
  import opened Reassembly
  import opened SessionState
  import opened Sessions
  import opened Upstream
  import Spec = MediatorSpec
  import opened MediatorSpec

  class Mediator {
    const upstream: UpstreamClient

    constructor (upstream: UpstreamClient)
      ensures this.upstream == upstream
    {
      this.upstream := upstream;
    }

    method HandleSupplicantEap(session: Session, eap: Bytes, caller: Caller) returns (handled: Handled)
      requires session.Valid()
      modifies session.Repr()
      ensures (session.View(), handled)
           == Spec.HandleSupplicantEap(upstream.server, old(session.View()), caller, eap)
    {
      var parsed := Parse(eap);
      if parsed.Err? {
        return Err(parsed.error);
      }
      var pkt := parsed.value;
      NotePacket(session, pkt);
      if session.settings.mode.Passthrough? {
        handled := PassthroughUpstream(session, eap, caller);
      } else if pkt.IsAck() {
        handled := HandleAck(session, caller);
      } else {
        handled := HandleData(session, pkt, caller);
      }
    }

    method NotePacket(session: Session, pkt: EapTlsPacket)
      requires session.Valid()
      modifies session
      ensures session.View() == Spec.NotePacket(old(session.View()), pkt)
    {
      session.up := session.up.(fragmentsIn := session.up.fragmentsIn + 1);
      session.downNextId := pkt.identifier;
      if !session.settings.mode.Passthrough? {
        session.downLastReqId := Some(pkt.identifier);
      }
    }

    method HandleData(session: Session, pkt: EapTlsPacket, caller: Caller) returns (handled: Handled)
      requires session.Valid()
      modifies session.Repr()
      ensures (session.View(), handled) == Spec.HandleData(upstream.server, old(session.View()), caller, pkt)
    {
      hide Spec.ForwardRecordUpstream, Encode, Reassembly.Ingest, NextId;
      var ingested := session.upReasm.Ingest(pkt);
      match ingested
      case Raised(e) =>
        return Err(e);
      case NeedMore =>
        session.up := session.up.(acksGenerated := session.up.acksGenerated + 1);
        var ackId := session.NextDownId();
        return Ok(Outcome(ActAck, Some(BuildAck(REQUEST, ackId)), Some(ackId)));
      case Message(complete) =>
        session.up := session.up.(bytesReassembled := session.up.bytesReassembled + |complete|);
        handled := ForwardRecordUpstream(session, complete, caller);
    }

    method HandleAck(session: Session, caller: Caller) returns (handled: Handled)
      requires session.Valid()
      modifies session.Repr()
      ensures (session.View(), handled) == Spec.HandleAck(upstream.server, old(session.View()), caller)
    {
      if session.downOutbox != [] {
        handled := SendNextDownstreamFragment(session);
        return;
      }
      if session.result == Some(Accepted) {
        return Ok(Terminate(session, Accepted, session.pendingSuccess));
      }
      if session.result == Some(Rejected) {
        return Ok(Terminate(session, Rejected, session.pendingFailure));
      }
      var id := UpstreamId(session);
      var reply := Exchange(session, BuildAck(RESPONSE, id), caller);
      if reply.None? {
        return Err(UpstreamTimeout);
      }
      handled := HandleUpstreamReply(session, reply.value, caller);
    }

    /** The Identifier to echo upstream, or a minted one if the server never sent a Request. */
    method UpstreamId(session: Session) returns (id: byte)
      requires session.Valid()
      modifies session`upNextId
      ensures (session.ServerView(), id) == PickUpstreamId(old(session.ServerView()))
      ensures session.View() == old(session.View()).(server := session.ServerView())
    {
      if session.upstreamLastEapReqId.Some? {
        return session.upstreamLastEapReqId.value;
      }
      id := session.NextUpId();
    }

    /** Sends upstream with the current State and remembers the State that comes back. */
    method Exchange(session: Session, eap: Bytes, caller: Caller) returns (reply: Option<Reply>)
      requires session.Valid()
      modifies session
      ensures (session.ServerView(), reply)
           == SessionState.Exchange(upstream.server, old(session.ServerView()), caller, eap)
      ensures session.View() == old(session.View()).(server := session.ServerView())
    {
      reply := upstream.SendEap(session, eap, caller, session.radiusState);
      if reply.Some? {
        session.radiusState := reply.value.state;
      }
    }

    method ForwardRecordUpstream(session: Session, record: Bytes, caller: Caller) returns (handled: Handled)
      requires session.Valid()
      modifies session.Repr()
      ensures (session.View(), handled)
           == Spec.ForwardRecordUpstream(upstream.server, old(session.View()), caller, record)
    {
      var fragmented := Fragment(record, session.settings.upstreamFragmentSize);
      if fragmented.Err? {
        return Err(fragmented.error);
      }
      var chunks := fragmented.value;
      var reply := SendChunks(session, |record|, chunks, caller);
      if reply.Err? {
        return Err(reply.error);
      }
      handled := HandleUpstreamReply(session, reply.value, caller);
    }

    /** The send loop; every answer but the last is dropped unread. */
    method SendChunks(session: Session, total: nat, chunks: seq<Bytes>, caller: Caller)
      returns (reply: Result<Reply, EapError>)
      requires session.Valid() && chunks != []
      modifies session.Repr()
      ensures (session.View(), reply)
           == Spec.SendChunks(upstream.server, old(session.View()), caller, total, chunks, 0)
    {
      hide Spec.SendChunk;
      reply := Err(UpstreamTimeout);
      ghost var sending := Spec.SendChunks(upstream.server, session.View(), caller, total, chunks, 0);
      for idx := 0 to |chunks|
        invariant sending == if idx < |chunks|
                             then Spec.SendChunks(upstream.server, session.View(), caller, total, chunks, idx)
                             else (session.View(), reply)
      {
        reply := SendChunk(session, total, chunks, idx, caller);
        if reply.Err? {
          return;
        }
      }
    }

    method SendChunk(session: Session, total: nat, chunks: seq<Bytes>, idx: nat, caller: Caller)
      returns (reply: Result<Reply, EapError>)
      requires session.Valid() && idx < |chunks|
      modifies session.Repr()
      ensures (session.View(), reply)
           == Spec.SendChunk(upstream.server, old(session.View()), caller, total, chunks, idx)
    {
      var more := idx < |chunks| - 1;
      var tml := if idx == 0 then Some(total) else None;
      var id := UpstreamId(session);
      var built := Build(RESPONSE, id, chunks[idx], more, tml, false);
      if built.Err? {
        return Err(built.error);
      }
      session.up := session.up.(fragmentsOut := session.up.fragmentsOut + 1);
      var arrived := Exchange(session, built.value, caller);
      return if arrived.None? then Err(UpstreamTimeout) else Ok(arrived.value);
    }

    method HandleUpstreamReply(session: Session, reply: Reply, caller: Caller) returns (handled: Handled)
      requires session.Valid()
      modifies session.Repr()
      ensures (session.View(), handled)
           == Spec.HandleUpstreamReply(upstream.server, old(session.View()), caller, reply)
    {
      hide Spec.DeliverRecord, Spec.AfterDrain, Drain;
      if reply.Accept() {
        Conclude(session, Accepted, reply.eap);
        return Ok(Terminate(session, Accepted, reply.eap));
      }
      if reply.Reject() {
        Conclude(session, Rejected, reply.eap);
        return Ok(Terminate(session, Rejected, reply.eap));
      }
      if reply.eap.None? {
        return Ok(Outcome(ActAck, None, None));
      }
      var parsed := Parse(reply.eap.value);
      if parsed.Err? {
        return Err(parsed.error);
      }
      var ingested := IngestDown(session, parsed.value);
      match ingested
      case Raised(e) =>
        return Err(e);
      case Message(complete) =>
        handled := DeliverRecord(session, complete);
      case NeedMore =>
        var drained := DrainUpstreamFragments(session, parsed.value, caller);
        handled := AfterDrain(session, drained);
    }

    method AfterDrain(session: Session, drained: Drained) returns (handled: Handled)
      requires session.Valid()
      modifies session.Repr()
      ensures (session.View(), handled) == Spec.AfterDrain(old(session.View()), drained)
    {
      match drained
      case DrainRaised(e) =>
        return Err(e);
      case Record(complete) =>
        handled := DeliverRecord(session, complete);
      case Terminal =>
        if session.result == Some(Accepted) {
          return Ok(Terminate(session, Accepted, session.pendingSuccess));
        }
        return Ok(Terminate(session, Rejected, session.pendingFailure));
    }

    method DeliverRecord(session: Session, complete: Bytes) returns (handled: Handled)
      requires session.Valid()
      modifies session.Repr()
      ensures (session.View(), handled) == Spec.DeliverRecord(old(session.View()), complete)
    {
      session.down := session.down.(bytesReassembled := session.down.bytesReassembled + |complete|);
      handled := BeginDownstreamFragmentation(session, complete);
    }

    method IngestDown(session: Session, pkt: EapTlsPacket) returns (ingested: Ingested)
      requires session.Valid()
      modifies session.downReasm
      ensures (session.View(), ingested) == Spec.IngestDown(old(session.View()), pkt)
    {
      ingested := session.downReasm.Ingest(pkt);
    }

    /** Records the verdict and keeps the terminal packet for the supplicant. */
    method Conclude(session: Session, verdict: Verdict, eap: Option<Bytes>)
      requires session.Valid()
      modifies session
      ensures session.View() == Spec.Conclude(old(session.View()), verdict, eap)
    {
      session.Finish(verdict);
      if verdict.Accepted? {
        session.pendingSuccess := eap;
      } else {
        session.pendingFailure := eap;
      }
    }

    /** The terminal packet, restamped with the Identifier the supplicant last answered to. */
    function Terminate(session: Session, verdict: Verdict, eap: Option<Bytes>): (outcome: Outcome)
      reads session.Repr()
      ensures outcome == TerminalOutcome(session.View(), verdict, eap)
    {
      var id := session.downLastReqId;
      var stamped := if eap.None? || |eap.value| < 2 || id.None? then eap
                     else Some(eap.value[..1] + [id.value] + eap.value[2..]);
      Outcome(if verdict.Accepted? then ActAccept else ActReject, stamped, id)
    }

    /** ACKs upstream until the server's record is whole or the server ends the conversation. */
    method DrainUpstreamFragments(session: Session, first: EapTlsPacket, caller: Caller) returns (drained: Drained)
      requires session.Valid()
      modifies session.Repr()
      ensures (session.View(), drained)
           == Drain(upstream.server, old(session.View()), caller, first.moreFragments)
    {
      var lastPkt := first;
      ghost var whole := Drain(upstream.server, session.View(), caller, first.moreFragments);
      while lastPkt.moreFragments
        invariant Drain(upstream.server, session.View(), caller, lastPkt.moreFragments) == whole
        decreases if |session.requests| <= upstream.server.lifetime
                  then upstream.server.lifetime - |session.requests| + 1 else 0
      {
        var arrived := AckUpstream(session, caller);
        if arrived.None? {
          return DrainRaised(UpstreamTimeout);
        }
        var turn, pkt := TakeFragment(session, arrived.value);
        if turn.Ended? {
          return turn.drained;
        }
        lastPkt := pkt;
      }
      return Record(session.downReasm.buffer);
    }

    method AckUpstream(session: Session, caller: Caller) returns (reply: Option<Reply>)
      requires session.Valid()
      modifies session.Repr()
      ensures (session.View(), reply) == Spec.AckUpstream(upstream.server, old(session.View()), caller)
    {
      var ackId := UpstreamId(session);
      session.down := session.down.(acksGenerated := session.down.acksGenerated + 1);
      reply := Exchange(session, BuildAck(RESPONSE, ackId), caller);
    }

    method TakeFragment(session: Session, reply: Reply) returns (turn: DrainTurn, pkt: EapTlsPacket)
      requires session.Valid()
      modifies session.Repr()
      ensures (session.View(), turn) == Spec.TakeFragment(old(session.View()), reply)
      ensures turn.Pulled? ==> turn.more == pkt.moreFragments
    {
      pkt := EapTlsPacket(REQUEST, 0, false, false, false, None, []);
      if reply.Accept() || reply.Reject() {
        Conclude(session, if reply.Accept() then Accepted else Rejected, reply.eap);
        return Ended(Terminal), pkt;
      }
      if reply.eap.None? {
        return Ended(Record(session.downReasm.buffer)), pkt;
      }
      var parsed := Parse(reply.eap.value);
      if parsed.Err? {
        return Ended(DrainRaised(parsed.error)), pkt;
      }
      pkt := parsed.value;
      var ingested := IngestDown(session, pkt);
      match ingested
      case Raised(e) => turn := Ended(DrainRaised(e));
      case Message(m) => turn := Ended(Record(m));
      case NeedMore => turn := Pulled(pkt.moreFragments);
    }

    method BeginDownstreamFragmentation(session: Session, record: Bytes) returns (handled: Handled)
      requires session.Valid()
      modifies session.Repr()
      ensures (session.View(), handled) == Spec.BeginDownstreamFragmentation(old(session.View()), record)
    {
      var fragmented := Fragment(record, session.settings.downstreamFragmentSize);
      if fragmented.Err? {
        return Err(fragmented.error);
      }
      var chunks := fragmented.value;
      session.downOutbox := Enumerate(chunks);
      session.downTotal := |record|;
      session.downNchunks := |chunks|;
      handled := SendNextDownstreamFragment(session);
    }

    method SendNextDownstreamFragment(session: Session) returns (handled: Handled)
      requires session.Valid()
      modifies session.Repr()
      ensures (session.View(), handled) == Spec.SendNextDownstreamFragment(old(session.View()))
    {
      hide Encode;
      if session.downOutbox == [] {
        return Ok(Outcome(ActAck, None, None));
      }
      var idx, chunk, downId := PopFragment(session);
      var more := idx < session.downNchunks - 1;
      var tml := if idx == 0 then Some(session.downTotal) else None;
      var built := Build(REQUEST, downId, chunk, more, tml, false);
      if built.Err? {
        return Err(built.error);
      }
      CountFragment(session, more);
      return Ok(Outcome(ActChallenge, Some(built.value), Some(downId)));
    }

    /** Takes the head of the queue and the next Identifier for it. */
    method PopFragment(session: Session) returns (idx: nat, chunk: Bytes, downId: byte)
      requires session.Valid() && session.downOutbox != []
      modifies session`downOutbox, session`downNextId
      ensures (idx, chunk) == old(session.downOutbox[0]) && downId == NextId(old(session.downNextId))
      ensures session.View()
           == old(session.View()).(supplicant := old(session.SupplicantView()).(outbox := old(session.downOutbox[1..]),
                                                                                nextId := downId))
    {
      idx, chunk := session.downOutbox[0].0, session.downOutbox[0].1;
      session.downOutbox := session.downOutbox[1..];
      downId := session.NextDownId();
    }

    method CountFragment(session: Session, more: bool)
      requires session.Valid()
      modifies session`down
      ensures session.View()
           == old(session.View()).(
                down := old(session.down).(fragmentsOut := old(session.down).fragmentsOut + 1,
                                           acksGenerated := old(session.down).acksGenerated + (if more then 1 else 0)))
    {
      session.down := session.down.(fragmentsOut := session.down.fragmentsOut + 1);
      if more {
        session.down := session.down.(acksGenerated := session.down.acksGenerated + 1);
      }
    }

    method PassthroughUpstream(session: Session, eap: Bytes, caller: Caller) returns (handled: Handled)
      requires session.Valid()
      modifies session.Repr()
      ensures (session.View(), handled)
           == Spec.PassthroughUpstream(upstream.server, old(session.View()), caller, eap)
    {
      hide SessionState.Exchange;
      session.up := session.up.(fragmentsOut := session.up.fragmentsOut + 1);
      var arrived := Exchange(session, eap, caller);
      if arrived.None? {
        return Err(UpstreamTimeout);
      }
      var reply := arrived.value;
      if reply.Accept() {
        session.Finish(Accepted);
        return Ok(Outcome(ActAccept, reply.eap, None));
      }
      if reply.Reject() {
        session.Finish(Rejected);
        return Ok(Outcome(ActReject, None, None));
      }
      if reply.eap.Some? {
        session.down := session.down.(fragmentsOut := session.down.fragmentsOut + 1);
        return Ok(Outcome(ActChallenge, reply.eap, None));
      }
      return Ok(Outcome(ActAck, None, None));
    }
  }
}
