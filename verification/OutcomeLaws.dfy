/**
 How a call of the mediator ends in reassemble mode, against any auth server whatever: by the last answer that
 came back, and by what was held before it.
 */
module OutcomeLaws {
  import opened Prelude
  import opened Octets
  import opened EapTls
  import opened Reassembly
  import opened Radius
  import opened SessionState
  import opened MediatorSpec
  import opened DrainLaws
  import opened VerdictLaws
  import opened MessageLaws
  import opened CountingLaws

  /** The ways a call that asked the server can end. */
  datatype Fate = Raises(error: EapError) | Closes(verdict: Verdict) | NothingYet | Delivers

  /**
   How it must, given the last answer and what the reassembler held before it; `alone` says that this answer is
   the only one of its flight.
   */
  function FateOf(max: nat, held: Reasm, last: Option<Answer>, alone: bool): Fate {
    match last
    case None => Raises(UpstreamTimeout)
    case Some(answer) =>
      if answer.code == 2 then Closes(Accepted)
      else if answer.code == 3 then Closes(Rejected)
      else
        match answer.Eap()
        case None => if alone then NothingYet else Delivers
        case Some(eap) =>
          match Parse(eap)
          case Err(e) => Raises(e)
          case Ok(pkt) =>
            match Ingest(max, held, pkt).1
            case Raised(e) => Raises(e)
            case _ => Delivers
  }

  predicate EndsSo(handled: Handled, fate: Fate) {
    match fate
    case Raises(e) => handled == Err(e)
    case Closes(Accepted) => handled.Ok? && handled.value.action.ActAccept?
    case Closes(Rejected) => handled.Ok? && handled.value.action.ActReject?
    case NothingYet => handled == Ok(Outcome(ActAck, None, None))
    case Delivers => handled.Ok? && handled.value.action.ActChallenge?
  }

  predicate DrainsSo(t: SessionView, drained: Drained, fate: Fate) {
    match fate
    case Raises(e) => drained == DrainRaised(e)
    case Closes(verdict) => drained.Terminal? && t.result == Some(verdict)
    case NothingYet => false
    case Delivers => drained.Record?
  }

  /** What was held before the last answer of a conversation. */
  function HeldBefore(s: SessionView): Reasm
    requires Aligned(s.server) && s.server.answers != []
  {
    var n := |s.server.answers| - 1;
    ReasmOf(s.settings.maxMessageLen, s.server.requests[..n], s.server.answers[..n])
  }

  lemma TurnEndsSo(s: SessionView, reply: Reply)
    requires Pending(s, reply)
    ensures var (t, turn) := TakeFragment(s, reply);
            var fate := FateOf(s.settings.maxMessageLen, HeldBefore(s), s.server.answers[|s.server.answers| - 1], false);
            && t.server == s.server && t.settings == s.settings
            && match turn
               case Ended(drained) => DrainsSo(t, drained, fate)
               case Pulled(more) => !more ==> fate.Delivers?
  {
    hide Parse, ConcatEap, Reads, Ingest, ReasmOf;
    assert HeldBefore(s) == s.downReasm;
  }

  lemma {:induction false} DrainEndsSo(server: Server, s: SessionView, caller: Caller)
    requires Remembers(s)
    ensures var (t, drained) := Drain(server, s, caller, true);
            && Remembers(t) && |t.server.answers| > |s.server.answers| && t.settings == s.settings
            && DrainsSo(t, drained, FateOf(s.settings.maxMessageLen, HeldBefore(t),
                                           t.server.answers[|t.server.answers| - 1], false))
    decreases if |s.server.requests| <= server.lifetime then server.lifetime - |s.server.requests| + 1 else 0
  {
    hide AckUpstream, TakeFragment, FateOf, DrainsSo, ReasmOf;
    AckIsRemembered(server, s, caller);
    AckBringsOneAnswer(server, s, caller);
    DrainIsRemembered(server, s, caller, true);
    var (s1, reply) := AckUpstream(server, s, caller);
    if reply.Some? {
      TurnEndsSo(s1, reply.value);
      TurnIsRemembered(s1, reply.value);
      var (s2, turn) := TakeFragment(s1, reply.value);
      if turn.Pulled? && turn.more {
        DrainEndsSo(server, s2, caller);
      } else {
        assert turn.Pulled? ==> Drain(server, s2, caller, false) == (s2, Record(s2.downReasm.buffer));
        var last := s1.server.answers[|s1.server.answers| - 1];
        DrainedSo(s2, turn, FateOf(s.settings.maxMessageLen, HeldBefore(s1), last, false));
      }
    } else {
      TimedOutSo(s1, s1.server.answers[|s1.server.answers| - 1], HeldBefore(s1));
    }
  }

  lemma DrainedSo(t: SessionView, turn: DrainTurn, fate: Fate)
    requires match turn case Ended(drained) => DrainsSo(t, drained, fate) case Pulled(more) => fate.Delivers?
    ensures DrainsSo(t, if turn.Ended? then turn.drained else Record(t.downReasm.buffer), fate)
  {
  }

  lemma TimedOutSo(t: SessionView, last: Option<Answer>, held: Reasm)
    requires last.None?
    ensures DrainsSo(t, DrainRaised(UpstreamTimeout), FateOf(t.settings.maxMessageLen, held, last, false))
  {
  }

  /** A record delivered is a challenge, unless a number is too large for its field. */
  lemma DeliveryIsChallenge(s: SessionView, record: Bytes)
    requires s.settings.downstreamFragmentSize >= 1
    ensures var handled := DeliverRecord(s, record).1;
            handled == Err(NumberTooLarge) || (handled.Ok? && handled.value.action.ActChallenge?)
  {
    hide Encode, Chunks;
  }

  /** The reply in hand is read, alone or as the first of a flight that is drained. */
  lemma ReplyEndsSo(server: Server, s: SessionView, caller: Caller, reply: Reply)
    requires Pending(s, reply) && s.result.None? && s.settings.downstreamFragmentSize >= 1
    ensures var (t, handled) := HandleUpstreamReply(server, s, caller, reply);
            && Remembers(t) && |t.server.answers| >= |s.server.answers|
            && (handled == Err(NumberTooLarge)
                || EndsSo(handled, FateOf(s.settings.maxMessageLen, HeldBefore(t), t.server.answers[|t.server.answers| - 1],
                                          |t.server.answers| == |s.server.answers|)))
  {
    hide Parse, ConcatEap, Reads, Ingest, ReasmOf, Drain, DeliverRecord, RestampTerminal;
    ReplyIsRemembered(server, s, caller, reply);
    assert HeldBefore(s) == s.downReasm;
    if !reply.Accept() && !reply.Reject() && reply.eap.Some? && Parse(reply.eap.value).Ok? {
      var pkt := Parse(reply.eap.value).value;
      var (s1, ingested) := IngestDown(s, pkt);
      if ingested.Message? {
        DeliveryIsChallenge(s1, ingested.data);
      } else if ingested.NeedMore? {
        DataIsTaken(s, reply, pkt);
        DrainedEndsSo(server, s1, caller, pkt.moreFragments, s.result);
      }
    }
  }

  lemma DrainedEndsSo(server: Server, s: SessionView, caller: Caller, more: bool, before: Option<Verdict>)
    requires Remembers(s) && s.result.None? && s.settings.downstreamFragmentSize >= 1 && s.server.answers != []
    ensures var (s1, drained) := Drain(server, s, caller, more);
            var (t, handled) := AfterDrain(s1, drained);
            && t.server == s1.server && t.settings == s.settings
            && Remembers(s1) && |t.server.answers| >= |s.server.answers|
            && (more ==> |t.server.answers| > |s.server.answers|)
            && (handled == Err(NumberTooLarge)
                || if more then EndsSo(handled, FateOf(s.settings.maxMessageLen, HeldBefore(s1),
                                                       s1.server.answers[|s1.server.answers| - 1], false))
                   else s1 == s && EndsSo(handled, Delivers))
  {
    hide Drain, FateOf, DeliverRecord, RestampTerminal, ReasmOf;
    var (s1, drained) := Drain(server, s, caller, more);
    if more {
      DrainEndsSo(server, s, caller);
    } else {
      DrainNothing(server, s, caller);
    }
    if drained.Record? {
      DeliveryIsChallenge(s1, drained.data);
    }
  }

  // ---- Whole calls --------------------------------------------------------

  /** All new requests but the last are chunks with more to follow. */
  predicate LastIsAlone(s: SessionView, t: SessionView) {
    forall i :: |s.server.requests| <= i < |t.server.requests| - 1 ==> BearsMore(t.server.requests[i])
  }

  /** The call asked the server and ended by its last answer. */
  predicate AskedAndEnded(s: SessionView, t: SessionView, handled: Handled) {
    && Aligned(t.server) && |t.server.answers| > |s.server.answers|
    && EndsSo(handled, FateOf(s.settings.maxMessageLen, HeldBefore(t), t.server.answers[|t.server.answers| - 1],
                              LastIsAlone(s, t)))
  }

  /** Once the last chunk, or the poll, is answered, the rest of the call is about that flight. */
  lemma FlightDecides(s: SessionView, s1: SessionView, t: SessionView)
    requires Aligned(s.server) && Aligned(s1.server) && Aligned(t.server) && Longer(s, s1) && Longer(s1, t)
    requires |s1.server.requests| > |s.server.requests|
    requires forall i :: |s.server.requests| <= i < |s1.server.requests| - 1 ==> BearsMore(s1.server.requests[i])
    requires !BearsMore(s1.server.requests[|s1.server.requests| - 1])
    ensures LastIsAlone(s, t) <==> |t.server.answers| == |s1.server.answers|
  {
    hide BearsMore;
    var m := |s1.server.requests| - 1;
    assert forall i :: 0 <= i <= m ==> t.server.requests[i] == s1.server.requests[i];
  }

  lemma PollEndsSo(server: Server, s: SessionView, caller: Caller)
    requires Remembers(s) && s.result.None? && s.supplicant.outbox == [] && s.settings.downstreamFragmentSize >= 1
    ensures var (t, handled) := HandleAck(server, s, caller);
            handled == Err(NumberTooLarge) || AskedAndEnded(s, t, handled)
  {
    hide Exchange, HandleUpstreamReply, BearsMore, BuildAck, FateOf, Reads, ReasmOf, EndsSo, LastIsAlone;
    var (leg, id) := PickUpstreamId(s.server);
    ExchangeLogs(server, leg, caller, BuildAck(RESPONSE, id));
    ExchangeIsRemembered(server, s, leg, caller, BuildAck(RESPONSE, id));
    var (leg', reply) := Exchange(server, leg, caller, BuildAck(RESPONSE, id));
    var s1 := s.(server := leg');
    AckIsRead(leg'.requests[|leg.requests|], id);
    AckBearsNoMore(leg'.requests[|leg.requests|], id);
    if reply.Some? {
      ReplyEndsSo(server, s1, caller, reply.value);
      ReplyVerdicts(server, s1, caller, reply.value);
      FlightDecides(s, s1, HandleAck(server, s, caller).0);
    } else {
      SilenceRaises(s.settings.maxMessageLen, HeldBefore(s1), LastIsAlone(s, s1));
    }
  }

  lemma SilenceRaises(max: nat, held: Reasm, alone: bool)
    ensures EndsSo(Err(UpstreamTimeout), FateOf(max, held, None, alone))
  {
  }

  lemma {:induction false} ChunksEndSo(server: Server, s: SessionView, caller: Caller, total: nat,
                                       chunks: seq<Bytes>, i: nat)
    requires Aligned(s.server) && i < |chunks|
    ensures var (t, reply) := SendChunks(server, s, caller, total, chunks, i);
            && Aligned(t.server) && Longer(s, t)
            && (reply.Err? ==>
                  || reply.error == NumberTooLarge
                  || (&& reply.error == UpstreamTimeout && |t.server.answers| > |s.server.answers|
                      && t.server.answers[|t.server.answers| - 1].None?))
    decreases |chunks| - i
  {
    hide Exchange, Encode;
    var (leg, id) := PickUpstreamId(s.server);
    var more, length := i < |chunks| - 1, if i == 0 then Some(total) else None;
    if Fits(chunks[i], length) {
      ExchangeLogs(server, leg, caller, Encode(RESPONSE, id, chunks[i], more, length, false));
    }
    var (s1, reply) := SendChunk(server, s, caller, total, chunks, i);
    if reply.Ok? && i < |chunks| - 1 {
      ChunksEndSo(server, s1, caller, total, chunks, i + 1);
    }
  }

  lemma ForwardEndsSo(server: Server, s: SessionView, caller: Caller, record: Bytes)
    requires Remembers(s) && s.result.None?
    requires s.settings.downstreamFragmentSize >= 1 && s.settings.upstreamFragmentSize >= 1
    ensures var (t, handled) := ForwardRecordUpstream(server, s, caller, record);
            handled == Err(NumberTooLarge) || AskedAndEnded(s, t, handled)
  {
    hide SendChunks, HandleUpstreamReply, BearsMore, FateOf, Reads, ReasmOf, EndsSo, Chunks, LastIsAlone;
    var chunks := Chunks(record, s.settings.upstreamFragmentSize);
    ChunksLog(server, s, caller, |record|, chunks, 0);
    ChunksEndSo(server, s, caller, |record|, chunks, 0);
    ChunksAreRemembered(server, s, caller, |record|, chunks, 0);
    var (s1, reply) := SendChunks(server, s, caller, |record|, chunks, 0);
    if reply.Ok? {
      ReplyEndsSo(server, s1, caller, reply.value);
      ReplyVerdicts(server, s1, caller, reply.value);
      FlightDecides(s, s1, ForwardRecordUpstream(server, s, caller, record).0);
    } else if reply.error == UpstreamTimeout {
      SilenceRaises(s.settings.maxMessageLen, HeldBefore(s1), LastIsAlone(s, s1));
    }
  }

  /**
   Any parsed packet in reassemble mode, against any server, within the limits on numbers. An ACK with fragments
   queued draws one; a fragment that does not complete a record is acknowledged or refused; neither asks the
   server. Every other packet asks it, and the call ends by the last answer exactly so: silence raises; a
   verdict closes; an EAP packet that cannot be read, or that the reassembler refuses, raises; a challenge with
   no EAP gives nothing if it answers the last chunk or the poll, and anything else delivers a record.
   */
  lemma EveryCallEndsSo(server: Server, s: SessionView, caller: Caller, eap: Bytes)
    requires s.settings.mode.Reassemble? && WithinLimits(s) && Remembers(s) && s.result.None? && Parse(eap).Ok?
    ensures var (t, handled) := HandleSupplicantEap(server, s, caller, eap);
            var pkt := Parse(eap).value;
            var ingested := Ingest(s.settings.maxMessageLen, s.upReasm, pkt).1;
            if pkt.IsAck() && s.supplicant.outbox != [] then
              t.server == s.server && EndsSo(handled, Delivers)
            else if !pkt.IsAck() && ingested.Raised? then
              t.server == s.server && handled == Err(ingested.error)
            else if !pkt.IsAck() && ingested.NeedMore? then
              && t.server == s.server && handled.Ok? && handled.value.action.ActAck?
              && handled.value.eap == Some([1, (pkt.identifier + 1) % 0x100, 0, 6, 13, 0])
            else AskedAndEnded(s, t, handled)
  {
    hide HandleAck, ForwardRecordUpstream, Parse, Ingest, BuildAck, AskedAndEnded, ReasmOf, EndsSo;
    var pkt := Parse(eap).value;
    var s1 := NotePacket(s, pkt);
    NothingIsTooLarge(server, s, caller, eap);
    if pkt.IsAck() {
      if s.supplicant.outbox == [] {
        PollEndsSo(server, s1, caller);
        SameStart(s1, s, HandleAck(server, s1, caller).0, HandleAck(server, s1, caller).1);
      } else {
        DrawEndsSo(server, s1, caller);
      }
    } else {
      AckOctets((pkt.identifier + 1) % 0x100);
      var (r, ingested) := Ingest(s1.settings.maxMessageLen, s1.upReasm, pkt);
      if ingested.Message? {
        var s2 := s1.(upReasm := r, up := s1.up.(bytesReassembled := s1.up.bytesReassembled + |ingested.data|));
        ForwardEndsSo(server, s2, caller, ingested.data);
        SameStart(s2, s, ForwardRecordUpstream(server, s2, caller, ingested.data).0,
                  ForwardRecordUpstream(server, s2, caller, ingested.data).1);
      }
    }
  }

  lemma SameStart(s: SessionView, s': SessionView, t: SessionView, handled: Handled)
    requires s.server == s'.server && s.settings == s'.settings
    ensures AskedAndEnded(s, t, handled) ==> AskedAndEnded(s', t, handled)
  {
  }

  lemma AckOctets(id: byte)
    ensures BuildAck(REQUEST, id) == [1, id, 0, 6, 13, 0]
  {
  }

  lemma DrawEndsSo(server: Server, s: SessionView, caller: Caller)
    requires WithinLimits(s) && s.supplicant.outbox != []
    ensures var (t, handled) := HandleAck(server, s, caller); t.server == s.server && EndsSo(handled, Delivers)
  {
    hide Encode;
    DrawPrints(s);
  }
}
