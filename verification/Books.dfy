/**
 The measurements of a reassembling session after every single datagram of an authentication, against
 what the supplicant has said and heard by then and what is still queued for it.
 */
module Books {
  import opened Prelude
  import opened Octets
  import opened EapTls
  import opened Reassembly
  import opened SessionState
  import opened MediatorSpec
  import opened ServerLegLaws
  import opened SupplicantLegLaws
  import opened CountingLaws
  import opened Endpoints
  import opened Authentication
  import opened Transparency

  /** The acts that the supplicant has handed over whole. */
  function Turned(p: Peer): seq<Option<Bytes>> {
    if p.verdict.None? && !p.inbox.open && p.said != [] then p.said[..|p.said| - 1] else p.said
  }

  /** The records that have begun to reach it. */
  function Begun(p: Peer): nat {
    |p.heard| + if p.inbox.open then 1 else 0
  }

  /** Octets of the messages said. */
  function Spoken(said: seq<Option<Bytes>>): nat {
    if said == [] then 0
    else
      var last := said[|said| - 1];
      Spoken(said[..|said| - 1]) + if last.Some? then |last.value| else 0
  }

  /** Turns with nothing to say. */
  function QuietTurns(said: seq<Option<Bytes>>): nat {
    if said == [] then 0 else QuietTurns(said[..|said| - 1]) + if said[|said| - 1].None? then 1 else 0
  }

  lemma SaidStep(said: seq<Option<Bytes>>, next: Option<Bytes>)
    ensures Spoken(said + [next]) == Spoken(said) + if next.Some? then |next.value| else 0
    ensures QuietTurns(said + [next]) == QuietTurns(said) + if next.None? then 1 else 0
  {
    assert (said + [next])[..|said|] == said;
  }

  /**
   The books balance. Each packet from the supplicant was acknowledged on the spot, or handed over a turn,
   or drew a queued fragment. Each exchange but the first was a chunk, or a poll, or an ACK that pulled a
   fragment; the rest of the ACKs counted downward are fragments that went out with M. The octets counted
   upward are those of the messages handed over; those counted downward are with the supplicant or queued.
   */
  predicate Balanced(a: Auth) {
    var (s, p) := (a.session, a.peer);
    && s.up.fragmentsIn == a.sent - 1
    && s.up.fragmentsIn == s.up.acksGenerated + |Turned(p)| + s.down.fragmentsOut - Begun(p)
    && |s.server.requests| + s.down.fragmentsOut - |p.heard|
    == 1 + s.up.fragmentsOut + QuietTurns(Turned(p)) + s.down.acksGenerated
    && s.up.bytesReassembled == Spoken(Turned(p))
    && s.down.bytesReassembled == |Join(p.heard)| + |p.inbox.data| + OctetsIn(s.supplicant.outbox)
  }

  /** What the supplicant has left to say, and what the session holds of it. */
  predicate MidAct(sc: Scenario, p: Peer, r: Reasm) {
    && p.inbox == CLOSED && p.said != []
    && match p.said[|p.said| - 1]
       case None => p.toSend == [] && !r.state.InProgress?
       case Some(m) => WellCut(p.toSend, sc.overhead) && Buffered(r) + Content(p.toSend) == m
  }

  /** The queue numbers what is left of a record of so many chunks. */
  predicate NumberedQueue(leg: SupplicantLeg) {
    forall j :: 0 <= j < |leg.outbox| ==> leg.outbox[j].0 == leg.nchunks - |leg.outbox| + j
  }

  /** Session and supplicant in step: either a record is on its way down, or an act on its way up. */
  predicate InStep(sc: Scenario, a: Auth) {
    var (s, p) := (a.session, a.peer);
    && s.result.None? && NumberedQueue(s.supplicant)
    && (p.inbox.open <==> s.supplicant.outbox != [])
    && if p.inbox.open then p.toSend == [] && !s.upReasm.state.InProgress? else MidAct(sc, p, s.upReasm)
  }

  predicate Kept(sc: Scenario, a: Auth) {
    && a.session.settings == sc.settings && Faithful(a.session.server) && Balanced(a)
    && (a.peer.verdict.None? ==> InStep(sc, a))
  }

  lemma PacketParses(sc: Scenario, a: Auth)
    requires Proper(sc) && a.peer.verdict.None? && InStep(sc, a)
    ensures Parse(PeerPacket(a.peer)) == Ok(NextPacket(a.peer))
    ensures NextPacket(a.peer).IsAck() <==> a.peer.toSend == []
  {
    PeerPacketParses(sc, a.peer);
    if a.peer.toSend != [] {
      PrintedFrag(RESPONSE, a.peer.lastId, a.peer.toSend, sc.overhead);
    }
  }

  /** What a step leaves behind, whichever way it went. */
  lemma StepCounts(sc: Scenario, a: Auth)
    requires Proper(sc) && sc.settings.mode.Reassemble? && Kept(sc, a) && a.peer.verdict.None? && Step(sc, a).Some?
    ensures var b, s := Step(sc, a).value, Noted(sc, a);
            var (t, handled) := HandleSupplicantEap(StrictServer(sc), s, sc.caller, PeerPacket(a.peer));
            && handled.Ok? && PeerGets(sc, a.peer, handled.value) == Some(b.peer)
            && b.session == t && b.sent == a.sent + 1 && t.settings == sc.settings && Faithful(t.server)
            && QueueAfter(s, t, NextPacket(a.peer), handled) && CountersAfter(s, t, NextPacket(a.peer), handled)
            && (handled.value.action.ActAccept? || handled.value.action.ActReject? || t.result.None?)
  {
    hide HandleSupplicantEap, PeerGets, PeerPacket, Parse, Faithful, QueueAfter, CountersAfter, Balanced;
    var s, eap := Noted(sc, a), PeerPacket(a.peer);
    MirroringIsFaithful(a.session, sc.authenticators(a.sent));
    PacketParses(sc, a);
    var (t, handled) := HandleSupplicantEap(StrictServer(sc), s, sc.caller, eap);
    assert handled.Ok? || handled.Err?;
    assert !PeerGets(sc, a.peer, handled.value).None?;
    AnsweredPacketCounts(StrictServer(sc), s, sc.caller, eap);
    HandlerIsFaithful(StrictServer(sc), s, sc.caller, eap);
    EveryAnswerIsProper(StrictServer(sc), s, sc.caller, eap);
    var o := handled.value;
    assert o.action.ActAck? || o.action.ActChallenge? || o.action.ActAccept? || o.action.ActReject?;
  }

  /** The supplicant takes in a fragment of a record. */
  lemma PeerTakes(sc: Scenario, p: Peer, handled: Handled)
    requires Emitted(handled).Some? && PeerGets(sc, p, handled.value).Some? && |p.toSend| <= 1
    ensures var q, p' := Emitted(handled).value, PeerGets(sc, p, handled.value).value;
            var data := p.inbox.data + q.tlsData;
            if q.moreFragments then p' == p.(lastId := q.identifier, toSend := [], inbox := Inbox(true, data))
            else p' == NextAct(sc, p.(lastId := q.identifier, inbox := CLOSED, heard := p.heard + [data]))
  {
    hide Parse;
  }

  /** A fragment of the supplicant's is taken in: held if more are to come, else the message is whole. */
  lemma FragmentIsIngested(sc: Scenario, p: Peer, r: Reasm, max: nat)
    requires MidAct(sc, p, r) && p.toSend != [] && !Ingest(max, r, NextPacket(p)).1.Raised?
    ensures p.said[|p.said| - 1].Some? && !NextPacket(p).IsAck()
    ensures var m, (r', ingested) := p.said[|p.said| - 1].value, Ingest(max, r, NextPacket(p));
            if |p.toSend| > 1 then
              ingested.NeedMore? && r'.state.InProgress? && r'.buffer + Content(p.toSend[1..]) == m
              && WellCut(p.toSend[1..], sc.overhead)
            else ingested == Message(m) && r'.state.Complete?
  {
    hide Content;
    PrintedFrag(RESPONSE, p.lastId, p.toSend, sc.overhead);
    ContentStep(p.toSend);
    var rest := p.toSend[1..];
    assert Buffered(r) + Content(p.toSend) == (Buffered(r) + p.toSend[0].data) + Content(rest);
    if |p.toSend| > 1 {
      TailIsWellCut(p.toSend, sc.overhead);
    } else {
      NothingHasNoContent(rest);
    }
  }

  lemma NothingHasNoContent(cut: seq<Frag>)
    requires cut == []
    ensures Content(cut) == []
  {
    assert Endpoints.Payloads(cut) == [];
  }

  /** The supplicant's next act begins. */
  lemma ActBegins(sc: Scenario, p: Peer, r: Reasm)
    requires Proper(sc) && p.inbox == CLOSED && !r.state.InProgress?
    ensures MidAct(sc, NextAct(sc, p), r)
  {
    hide Content;
    var act := sc.client(p.heard);
    if act.Say? {
      assert [] + Content(act.cut) == Content(act.cut);
    }
  }

  /** Where a fragment leaves the supplicant. */
  lemma AfterFragment(sc: Scenario, a: Auth, t: SessionView, handled: Handled, p': Peer)
    requires Proper(sc) && a.peer.verdict.None? && |a.peer.toSend| <= 1 && (a.peer.inbox.open || a.peer.inbox == CLOSED)
    requires Emitted(handled).Some? && PeerGets(sc, a.peer, handled.value) == Some(p')
    requires !t.upReasm.state.InProgress?
    ensures var q := Emitted(handled).value;
            && p'.verdict.None? && (p'.inbox.open <==> q.moreFragments)
            && Turned(p') == a.peer.said
            && Begun(p') == |a.peer.heard| + 1 && |p'.heard| == |a.peer.heard| + (if q.moreFragments then 0 else 1)
            && |Join(p'.heard)| + |p'.inbox.data| == |Join(a.peer.heard)| + |a.peer.inbox.data| + |q.tlsData|
            && (if q.moreFragments then p'.toSend == [] else MidAct(sc, p', t.upReasm))
  {
    hide Parse, Emitted, PeerGets, Proper;
    PeerTakes(sc, a.peer, handled);
    var q := Emitted(handled).value;
    var data := a.peer.inbox.data + q.tlsData;
    if !q.moreFragments {
      JoinSnoc(a.peer.heard, data);
      ActBegins(sc, a.peer.(lastId := q.identifier, inbox := CLOSED, heard := a.peer.heard + [data]), t.upReasm);
    }
  }

  /** An ACK draws a fragment. */
  lemma DrawIsBooked(sc: Scenario, a: Auth)
    requires Proper(sc) && sc.settings.mode.Reassemble? && Kept(sc, a) && a.peer.verdict.None? && Step(sc, a).Some?
    requires a.peer.inbox.open
    ensures Kept(sc, Step(sc, a).value)
  {
    hide Step, HandleSupplicantEap, Parse, Faithful, WellCut, Proper, PeerPacket, PeerGets, MidAct, Join;
    PacketParses(sc, a);
    StepCounts(sc, a);
    var s, b := Noted(sc, a), Step(sc, a).value;
    var handled := HandleSupplicantEap(StrictServer(sc), s, sc.caller, PeerPacket(a.peer)).1;
    AfterFragment(sc, a, b.session, handled, b.peer);
  }

  /** A fragment with more to follow is held. */
  lemma HoldIsBooked(sc: Scenario, a: Auth)
    requires Proper(sc) && sc.settings.mode.Reassemble? && Kept(sc, a) && a.peer.verdict.None? && Step(sc, a).Some?
    requires !a.peer.inbox.open && |a.peer.toSend| > 1
    ensures Kept(sc, Step(sc, a).value)
  {
    hide Step, HandleSupplicantEap, Parse, Faithful, WellCut, Proper, PeerPacket, Join, Content, Ingest, BuildAck;
    PacketParses(sc, a);
    StepCounts(sc, a);
    var p, s, b := a.peer, Noted(sc, a), Step(sc, a).value;
    FragmentIsIngested(sc, p, s.upReasm, s.settings.maxMessageLen);
    AckParses(REQUEST, NextId(NextPacket(p).identifier));
    assert b.peer.toSend == p.toSend[1..];
  }

  /** The packet that hands an act over completes what the session holds of it. */
  lemma ActIsWhole(sc: Scenario, p: Peer, s: SessionView)
    requires MidAct(sc, p, s.upReasm) && |p.toSend| <= 1
    requires !Ingest(s.settings.maxMessageLen, s.upReasm, NextPacket(p)).1.Raised?
    ensures var pkt, last := NextPacket(p), p.said[|p.said| - 1];
            var (r, ingested) := Ingest(s.settings.maxMessageLen, s.upReasm, pkt);
            && !r.state.InProgress? && (pkt.IsAck() || !ingested.NeedMore?)
            && (if pkt.IsAck() then last.None? else last.Some? && Completed(s, pkt) == |last.value|)
  {
    hide Ingest, Content;
    if p.toSend == [] {
      AckIsNotIngested(s.settings.maxMessageLen, s.upReasm, NextPacket(p));
    } else {
      FragmentIsIngested(sc, p, s.upReasm, s.settings.maxMessageLen);
    }
  }

  lemma TurnIsCounted(p: Peer)
    requires p.verdict.None? && !p.inbox.open && p.said != []
    ensures var last := p.said[|p.said| - 1];
            && |p.said| == |Turned(p)| + 1
            && Spoken(p.said) == Spoken(Turned(p)) + (if last.Some? then |last.value| else 0)
            && QuietTurns(p.said) == QuietTurns(Turned(p)) + (if last.None? then 1 else 0)
  {
    SaidStep(Turned(p), p.said[|p.said| - 1]);
    assert Turned(p) + [p.said[|p.said| - 1]] == p.said;
  }

  lemma AckIsNotIngested(max: nat, r: Reasm, pkt: EapTlsPacket)
    requires pkt.IsAck()
    ensures Ingest(max, r, pkt) == (r, NeedMore)
  {
  }

  /** What the handing over of an act leaves behind. */
  ghost predicate Handover(sc: Scenario, a: Auth, b: Auth, handled: Handled) {
    var s, t, pkt := Noted(sc, a), b.session, NextPacket(a.peer);
    && a.peer.verdict.None? && a.peer.inbox == CLOSED && a.peer.said != [] && |a.peer.toSend| <= 1
    && MidAct(sc, a.peer, a.session.upReasm)
    && a.session.supplicant.outbox == [] && a.session.result.None? && Balanced(a)
    && s.settings.downstreamFragmentSize >= 1 && QueueAfter(s, t, pkt, handled) && CountersAfter(s, t, pkt, handled)
    && handled.Ok? && PeerGets(sc, a.peer, handled.value) == Some(b.peer) && b.sent == a.sent + 1
    && (handled.value.action.ActAccept? || handled.value.action.ActReject? || t.result.None?)
  }

  /** Where the upward books then stand. */
  lemma HandoverIsBooked(sc: Scenario, a: Auth, b: Auth, handled: Handled)
    requires Handover(sc, a, b, handled)
    ensures var s, p := b.session, a.peer;
            && !AckedLocally(handled) && !s.upReasm.state.InProgress?
            && s.up.fragmentsIn == b.sent - 1
            && s.up.fragmentsIn == s.up.acksGenerated + |p.said| + a.session.down.fragmentsOut - |p.heard|
            && |s.server.requests| + EmittedMore(handled) + a.session.down.fragmentsOut - |p.heard|
            == 1 + s.up.fragmentsOut + QuietTurns(p.said) + s.down.acksGenerated
            && s.up.bytesReassembled == Spoken(p.said)
  {
    hide Parse, WellCut, PeerGets, Join, Ingest, Completed, Spoken, QuietTurns;
    hide Content, Emitted, QueueAfter, AckedLocally, NextPacket;
    ActIsWhole(sc, a.peer, Noted(sc, a));
    TurnIsCounted(a.peer);
  }

  lemma RestIsNumbered(leg: SupplicantLeg, record: Bytes, size: nat)
    requires size >= 1 && RestQueued(leg, record, size)
    ensures NumberedQueue(leg) && |leg.outbox| == |Chunks(record, size)| - 1
  {
    hide Chunks;
  }

  /** The answer is a record, whose first fragment reaches the supplicant. */
  lemma RecordIsBooked(sc: Scenario, a: Auth, b: Auth, handled: Handled)
    requires Proper(sc) && Handover(sc, a, b, handled) && Emitted(handled).Some?
    ensures Balanced(b) && InStep(sc, b) && b.peer.verdict.None?
  {
    hide Parse, WellCut, Proper, PeerGets, MidAct, Join, Ingest, Completed, Spoken, QuietTurns, Chunks;
    HandoverIsBooked(sc, a, b, handled);
    var size := a.session.settings.downstreamFragmentSize;
    var record :| RestQueued(b.session.supplicant, record, size) && FirstOf(Emitted(handled).value, record, size)
                  && b.session.down.bytesReassembled == a.session.down.bytesReassembled + |record|;
    RestMakesTheRecord(record, size);
    RestIsNumbered(b.session.supplicant, record, size);
    AfterFragment(sc, a, b.session, handled, b.peer);
  }

  /** The answer is the verdict. */
  lemma VerdictIsBooked(sc: Scenario, a: Auth, b: Auth, handled: Handled)
    requires Handover(sc, a, b, handled) && Emitted(handled).None?
    ensures Balanced(b) && b.peer.verdict.Some?
  {
    hide Parse, WellCut, MidAct, Join, Ingest, Completed, Spoken, QuietTurns, PeerReceive;
    HandoverIsBooked(sc, a, b, handled);
  }

  /** Whatever the act, handing it over keeps the books. */
  lemma TurnIsBooked(sc: Scenario, a: Auth)
    requires Proper(sc) && sc.settings.mode.Reassemble? && Kept(sc, a) && a.peer.verdict.None? && Step(sc, a).Some?
    requires !a.peer.inbox.open && |a.peer.toSend| <= 1
    ensures Kept(sc, Step(sc, a).value)
  {
    hide Step, HandleSupplicantEap, Parse, Faithful, PeerPacket, PeerGets, QueueAfter;
    hide CountersAfter, Balanced, NextPacket, WellCut, Content;
    StepCounts(sc, a);
    var b := Step(sc, a).value;
    var handled := HandleSupplicantEap(StrictServer(sc), Noted(sc, a), sc.caller, PeerPacket(a.peer)).1;
    assert Handover(sc, a, b, handled);
    if Emitted(handled).Some? {
      RecordIsBooked(sc, a, b, handled);
    } else {
      VerdictIsBooked(sc, a, b, handled);
    }
  }

  lemma StepIsBooked(sc: Scenario, a: Auth)
    requires Proper(sc) && sc.settings.mode.Reassemble? && Kept(sc, a) && Step(sc, a).Some?
    ensures Kept(sc, Step(sc, a).value)
  {
    hide Kept, Proper;
    if a.peer.verdict.None? {
      if a.peer.inbox.open {
        DrawIsBooked(sc, a);
      } else if |a.peer.toSend| > 1 {
        HoldIsBooked(sc, a);
      } else {
        TurnIsBooked(sc, a);
      }
    }
  }

  lemma {:induction false} RunIsBooked(sc: Scenario, a: Auth, k: nat)
    requires Proper(sc) && sc.settings.mode.Reassemble? && Kept(sc, a) && Run(sc, a, k).Some?
    ensures Kept(sc, Run(sc, a, k).value)
    decreases k
  {
    hide Kept, Step, Proper;
    if k > 0 {
      StepIsBooked(sc, a);
      RunIsBooked(sc, Step(sc, a).value, k - 1);
    }
  }

  lemma OpeningIsBooked(sc: Scenario, key: string)
    requires Sound(sc) && sc.settings.mode.Reassemble? && sc.lifetime >= 1
    ensures var opening := Opened(sc, NewSession(key, sc.settings)); opening.Some? && Kept(sc, opening.value)
  {
    hide Exchange, SrvAfter, Content;
    OpeningSucceeds(sc, key);
    var leg := Mirrored(NewSession(key, sc.settings), sc.authenticators(0)).server;
    NewLegIsFaithful(leg);
    ExchangeIsFaithful(StrictServer(sc), leg, sc.caller, sc.identity);
    var p := Opened(sc, NewSession(key, sc.settings)).value.peer;
    assert Turned(p) == [];
    if p.said[|p.said| - 1].Some? {
      assert [] + Content(p.toSend) == Content(p.toSend);
    }
  }

  lemma NewLegIsFaithful(leg: ServerLeg)
    requires leg == NEW_SERVER_LEG.(lastApAuthenticator := leg.lastApAuthenticator)
    ensures Faithful(leg)
  {
  }

  /** What a run did is done before it goes on. */
  lemma {:induction false} RunHasPrefixes(sc: Scenario, a: Auth, k: nat, n: nat)
    requires k <= n && Run(sc, a, n).Some?
    ensures Run(sc, a, k).Some?
    decreases k
  {
    hide Step;
    if k > 0 {
      RunHasPrefixes(sc, Step(sc, a).value, k - 1, n - 1);
    }
  }

  /** After every single datagram of an authentication in reassemble mode the books balance. */
  lemma MeasurementsBalance(sc: Scenario, tls: Tls, key: string, n: nat, k: nat)
    requires Sound(sc) && Runs(sc, tls) && 1 + Total(sc, n).exchanges <= sc.lifetime
    requires sc.settings.mode.Reassemble? && k <= Datagrams(sc, n)
    ensures var a := Authenticate(sc, key, k);
            && a.Some? && Balanced(a.value)
            && a.value.session.server.roundTrips == |a.value.session.server.requests|
  {
    hide Step, Total, Datagrams, Sound, Runs, Balanced, Holds, Opened;
    AuthenticationIsIdeal(sc, tls, key, n);
    OpeningIsBooked(sc, key);
    SoundIsProper(sc);
    var a := Opened(sc, NewSession(key, sc.settings)).value;
    RunHasPrefixes(sc, a, k, Datagrams(sc, n));
    RunIsBooked(sc, a, k);
  }

  lemma SoundIsProper(sc: Scenario)
    requires Sound(sc)
    ensures Proper(sc)
  {
  }
}
