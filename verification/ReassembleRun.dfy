/** Reassemble mode, turn by turn: each leg at its own pace, with ACKs made up on both. */
module ReassembleRun {
  import opened Prelude
  import opened Octets
  import opened EapTls
  import opened Reassembly
  import opened Radius
  import opened SessionState
  import opened MediatorSpec
  import opened Endpoints
  import opened Authentication
  import opened SupplicantLegLaws

  /** The session in mid-authentication, in agreement with the server. */
  predicate Talking(sc: Scenario, s: SessionView, v: Srv) {
    && s.settings == sc.settings && sc.settings.mode.Reassemble? && s.result.None?
    && Linked(sc, s.server, v) && s.server.roundTrips == |s.server.requests|
  }

  // ---- Towards the server -------------------------------------------------

  /** Where the server stands, and what it answered, when it has taken its turn as its n-th answer. */
  function Taken(sc: Scenario, n: nat, heard: seq<Option<Bytes>>): (Srv, Answer)
    requires n > 0 && (sc.serve(heard).Flight? ==> sc.serve(heard).cut != [])
  {
    SrvTurn(sc, Srv(n, heard, CLOSED, []), heard).value
  }

  /** The reply in hand is the server's turn. */
  predicate HasAnswered(sc: Scenario, s: SessionView, n: nat, heard: seq<Option<Bytes>>, reply: Reply)
    requires n > 0 && (sc.serve(heard).Flight? ==> sc.serve(heard).cut != [])
  {
    var (v, answer) := Taken(sc, n, heard);
    && reply == ReplyOf(answer) && Told(sc, s.server, v, answer)
    && |s.server.requests| == n + 1 && s.server.roundTrips == n + 1
  }

  /** One chunk of a record reaches the server. */
  lemma ChunkArrives(sc: Scenario, s: SessionView, v: Srv, record: Bytes, i: nat)
    requires Proper(sc) && Talking(sc, s, v) && |s.server.requests| < sc.lifetime && |record| < U32_LIMIT
    requires v.pending == [] && i < |Chunks(record, sc.settings.upstreamFragmentSize)|
    ensures var size := sc.settings.upstreamFragmentSize;
            var chunks, cut := Chunks(record, size), CutOf(record, size)[i..];
            && SrvHear(sc, v, FragPacket(RESPONSE, sc.ids(v.count - 1), cut)).Some?
            && var (v', answer) := SrvHear(sc, v, FragPacket(RESPONSE, sc.ids(v.count - 1), cut)).value;
            var (s', reply) := SendChunk(StrictServer(sc), s, sc.caller, |record|, chunks, i);
            && reply == Ok(ReplyOf(answer)) && Told(sc, s'.server, v', answer)
            && |s'.server.requests| == |s.server.requests| + 1 && s'.server.roundTrips == |s'.server.requests|
            && s' == s.(server := s'.server, up := s.up.(fragmentsOut := s.up.fragmentsOut + 1))
  {
    hide SrvStep, Encode, Exchange, Parse;
    var size := sc.settings.upstreamFragmentSize;
    var cut := CutOf(record, size)[i..];
    CutOfFacts(sc, record, size);
    assert WellCut(cut, sc.overhead) && cut[0] in cut;
    PrintedFrag(RESPONSE, sc.ids(v.count - 1), cut, sc.overhead);
    StrictExchange(sc, s.server, v, PrintFrag(RESPONSE, sc.ids(v.count - 1), cut));
  }

  /** What is left of a record from chunk i on: its first chunk, then what is left from the next. */
  lemma RestOfRecord(sc: Scenario, record: Bytes, size: nat, i: nat)
    requires 1 <= size <= 65000 && FitsRadius(size, sc.overhead) && |record| < U32_LIMIT && i < |Chunks(record, size)|
    ensures |CutOf(record, size)| == |Chunks(record, size)|
    ensures var cut := CutOf(record, size)[i..];
            && WellCut(cut, sc.overhead) && cut != []
            && Content(cut) == cut[0].data + (if |cut| > 1 then Content(CutOf(record, size)[i + 1..]) else [])
  {
    hide Chunks, CutOf, WellCut;
    CutOfFacts(sc, record, size);
    var cut := CutOf(record, size)[i..];
    ContentStep(cut);
    if |cut| > 1 {
      assert cut[1..] == CutOf(record, size)[i + 1..];
    } else {
      assert cut[1..] == [] && Content(cut[1..]) == [];
    }
  }

  /** The last chunk completes the record, and the server takes its turn. */
  lemma LastChunkArrives(sc: Scenario, s: SessionView, v: Srv, record: Bytes, i: nat)
    requires Proper(sc) && Talking(sc, s, v) && |record| < U32_LIMIT && v.pending == []
    requires i == |Chunks(record, sc.settings.upstreamFragmentSize)| - 1
    requires i < |CutOf(record, sc.settings.upstreamFragmentSize)|
    requires v.inbox.data + Content(CutOf(record, sc.settings.upstreamFragmentSize)[i..]) == record
    requires |s.server.requests| < sc.lifetime
    ensures var chunks := Chunks(record, sc.settings.upstreamFragmentSize);
            var (s', reply) := SendChunk(StrictServer(sc), s, sc.caller, |record|, chunks, i);
            && reply.Ok?
            && HasAnswered(sc, s', |s.server.requests|, v.heard + [Some(record)], reply.value)
            && s' == s.(server := s'.server, up := s.up.(fragmentsOut := s.up.fragmentsOut + 1))
  {
    hide SendChunk, SrvAfter, Chunks, Parse, Encode, SrvStep, ChunkCount;
    RestOfRecord(sc, record, sc.settings.upstreamFragmentSize, i);
    ChunkArrives(sc, s, v, record, i);
    assert v.inbox.data + CutOf(record, sc.settings.upstreamFragmentSize)[i..][0].data == record;
    assert SrvTurn(sc, v, v.heard + [Some(record)]) == Some(Taken(sc, v.count, v.heard + [Some(record)]));
  }

  /** The chunks from number i on complete the record at the server, which takes its turn. */
  lemma {:induction false} RecordArrives(sc: Scenario, s: SessionView, v: Srv, record: Bytes, i: nat)
    requires Proper(sc) && Talking(sc, s, v) && |record| < U32_LIMIT && v.pending == []
    requires i < |Chunks(record, sc.settings.upstreamFragmentSize)|
    requires v.inbox.data + Content(CutOf(record, sc.settings.upstreamFragmentSize)[i..]) == record
    requires |s.server.requests| + |Chunks(record, sc.settings.upstreamFragmentSize)| - i <= sc.lifetime
    ensures var chunks := Chunks(record, sc.settings.upstreamFragmentSize);
            var (s', reply) := SendChunks(StrictServer(sc), s, sc.caller, |record|, chunks, i);
            && reply.Ok?
            && HasAnswered(sc, s', |s.server.requests| + |chunks| - i - 1, v.heard + [Some(record)], reply.value)
            && s' == s.(server := s'.server, up := s.up.(fragmentsOut := s.up.fragmentsOut + |chunks| - i))
    decreases |Chunks(record, sc.settings.upstreamFragmentSize)| - i
  {
    hide SendChunk, SrvAfter, Chunks, Parse, Encode, SrvStep, HasAnswered, SrvTurn, WellCut;
    var size := sc.settings.upstreamFragmentSize;
    var chunks, cut := Chunks(record, size), CutOf(record, size)[i..];
    RestOfRecord(sc, record, size, i);
    if i == |chunks| - 1 {
      LastChunkArrives(sc, s, v, record, i);
    } else {
      ChunkArrives(sc, s, v, record, i);
      assert v.inbox.data + (cut[0].data + Content(CutOf(record, size)[i + 1..]))
          == (v.inbox.data + cut[0].data) + Content(CutOf(record, size)[i + 1..]);
      var (s1, _) := SendChunk(StrictServer(sc), s, sc.caller, |record|, chunks, i);
      RecordArrives(sc, s1, v.(count := v.count + 1, inbox := Inbox(true, v.inbox.data + cut[0].data)), record, i + 1);
    }
  }

  // ---- From the server ----------------------------------------------------

  /** A fragment after the first is pulled for an ACK the mediator makes up. */
  lemma FragmentIsPulled(sc: Scenario, s: SessionView, v: Srv)
    requires Proper(sc) && Talking(sc, s, v) && |s.server.requests| < sc.lifetime
    requires WellCut(v.pending, sc.overhead) && s.downReasm.state.InProgress?
    requires |s.downReasm.buffer + v.pending[0].data| <= sc.settings.maxMessageLen
    ensures var (s1, reply) := AckUpstream(StrictServer(sc), s, sc.caller);
            && reply.Some?
            && var (s2, turn) := TakeFragment(s1, reply.value);
            && Talking(sc, s2, v.(count := v.count + 1, pending := v.pending[1..]))
            && |s2.server.requests| == |s.server.requests| + 1
            && var buffer := s.downReasm.buffer + v.pending[0].data;
            && s2.downReasm.buffer == buffer
            && (if |v.pending| > 1 then turn == Pulled(true) && s2.downReasm.state.InProgress?
                else turn == Ended(Record(buffer)) && s2.downReasm.state.Complete?)
            && s2 == s.(server := s2.server, downReasm := s2.downReasm,
                        down := s.down.(acksGenerated := s.down.acksGenerated + 1))
  {
    hide SrvStep, Encode, Exchange, Parse;
    AckParses(RESPONSE, sc.ids(v.count - 1));
    AckFits(sc, RESPONSE, sc.ids(v.count - 1));
    StrictExchange(sc, s.server, v, BuildAck(RESPONSE, sc.ids(v.count - 1)));
    FragFacts(sc, v.count, v.pending);
    PrintedFrag(REQUEST, sc.ids(v.count), v.pending, sc.overhead);
  }

  /** The drain loop returns the flight whole. */
  lemma {:induction false} DrainPullsFlight(sc: Scenario, s: SessionView, v: Srv)
    requires Proper(sc) && Talking(sc, s, v) && |s.server.requests| + |v.pending| <= sc.lifetime
    requires WellCut(v.pending, sc.overhead) && s.downReasm.state.InProgress?
    requires |s.downReasm.buffer + Content(v.pending)| <= sc.settings.maxMessageLen
    ensures var (s', drained) := Drain(StrictServer(sc), s, sc.caller, true);
            && drained == Record(s.downReasm.buffer + Content(v.pending))
            && Talking(sc, s', v.(count := v.count + |v.pending|, pending := []))
            && |s'.server.requests| == |s.server.requests| + |v.pending|
            && !s'.downReasm.state.InProgress?
            && s' == s.(server := s'.server, downReasm := s'.downReasm,
                        down := s.down.(acksGenerated := s.down.acksGenerated + |v.pending|))
    decreases |v.pending|
  {
    hide AckUpstream, TakeFragment, SrvAfter;
    ContentStep(v.pending);
    assert s.downReasm.buffer + Content(v.pending)
        == (s.downReasm.buffer + v.pending[0].data) + Content(v.pending[1..]);
    FragmentIsPulled(sc, s, v);
    if |v.pending| == 1 {
      assert v.pending[1..] == [] && Content(v.pending[1..]) == [];
    } else {
      var (s1, reply) := AckUpstream(StrictServer(sc), s, sc.caller);
      TailIsWellCut(v.pending, sc.overhead);
      DrainPullsFlight(sc, TakeFragment(s1, reply.value).0, v.(count := v.count + 1, pending := v.pending[1..]));
    }
  }

  /** The session once a flight of `n` fragments has been pulled and its content is about to go out. */
  predicate PulledWhole(sc: Scenario, before: SessionView, after: SessionView, v: Srv, n: nat) {
    && Talking(sc, after, v) && |after.server.requests| == |before.server.requests| + n
    && !after.downReasm.state.InProgress?
    && after == before.(server := after.server, downReasm := after.downReasm,
                        down := before.down.(acksGenerated := before.down.acksGenerated + n))
  }

  /** A flight in answer: the mediator pulls it whole and passes its content on. */
  lemma FlightIsPulled(sc: Scenario, s: SessionView, n: nat, heard: seq<Option<Bytes>>, reply: Reply)
    returns (s': SessionView)
    requires Proper(sc) && sc.settings.mode.Reassemble? && s.settings == sc.settings && s.result.None?
    requires n > 0 && sc.serve(heard).Flight? && !s.downReasm.state.InProgress?
    requires sc.serve(heard).cut != [] && HasAnswered(sc, s, n, heard, reply)
    requires n + |sc.serve(heard).cut| <= sc.lifetime
    ensures var cut := sc.serve(heard).cut;
            && PulledWhole(sc, s, s', Srv(n + |cut|, heard, CLOSED, []), |cut| - 1)
            && HandleUpstreamReply(StrictServer(sc), s, sc.caller, reply) == DeliverRecord(s', Content(cut))
  {
    hide Encode, Parse, SrvAfter, AckUpstream, TakeFragment, DeliverRecord, PrintFrag;
    var cut := sc.serve(heard).cut;
    FragFacts(sc, n, cut);
    PrintedFrag(REQUEST, sc.ids(n), cut, sc.overhead);
    ContentStep(cut);
    var (s1, ingested) := IngestDown(s, FragPacket(REQUEST, sc.ids(n), cut));
    assert [] + cut[0].data == cut[0].data;
    if |cut| == 1 {
      assert cut[1..] == [] && Content(cut[1..]) == [];
      assert Content(cut) == cut[0].data;
      s' := s1;
    } else {
      TailIsWellCut(cut, sc.overhead);
      DrainPullsFlight(sc, s1, Srv(n + 1, heard, CLOSED, cut[1..]));
      s' := Drain(StrictServer(sc), s1, sc.caller, true).0;
    }
  }

  /** The end in answer: the verdict, and the terminal packet under the supplicant's Identifier. */
  lemma ClosingIsPassedOn(sc: Scenario, s: SessionView, n: nat, heard: seq<Option<Bytes>>, reply: Reply, id: byte)
    requires n > 0 && sc.serve(heard).Close? && HasAnswered(sc, s, n, heard, reply)
    requires s.supplicant.lastReqId == Some(id)
    ensures var verdict := sc.serve(heard).verdict;
            var (s', handled) := HandleUpstreamReply(StrictServer(sc), s, sc.caller, reply);
            && handled == Ok(Outcome(if verdict.Accepted? then ActAccept else ActReject,
                                     Some(TerminalPacket(verdict, id)), Some(id)))
            && s'.result == Some(verdict) && s'.server == s.server && s'.up == s.up && s'.down == s.down
  {
    hide SrvAfter;
    var verdict := sc.serve(heard).verdict;
    ClosingFacts(verdict, sc.ids(n - 1));
    StampIsOneOctet(s, Some(TerminalPacket(verdict, sc.ids(n - 1))), id);
    assert TerminalPacket(verdict, sc.ids(n - 1))[1 := id] == TerminalPacket(verdict, id);
  }

  // ---- To the supplicant --------------------------------------------------

  /** The supplicant is being fed a record of which the fragments from number `i` on are queued. */
  predicate Feeding(sc: Scenario, a: Auth, d: Dialogue, record: Bytes, i: nat) {
    var size := sc.settings.downstreamFragmentSize;
    && size >= 1
    && Talking(sc, a.session, RestingSrv(a.session.server, d.said))
    && !a.session.upReasm.state.InProgress? && !a.session.downReasm.state.InProgress?
    && Queued(a.session.supplicant, record, size, i)
    && a.peer.verdict.None? && a.peer.toSend == [] && a.peer.said == d.said && d.verdict.None?
    && i < |CutOf(record, size)|
    && d.heard == a.peer.heard + [a.peer.inbox.data + Content(CutOf(record, size)[i..])]
  }

  /** k fragments drawn by k ACKs, the last of them with or without M. */
  function Feed(k: nat, more: bool): Bill
    requires k >= 1
  {
    Bill(0, Metrics(k, 0, 0, 0), Metrics(0, k, if more then k else k - 1, 0))
  }

  /** Each ACK of the supplicant brings it one fragment, at no cost upstream. */
  lemma FeedingStep(sc: Scenario, a: Auth, d: Dialogue, record: Bytes, i: nat)
    requires Proper(sc) && Feeding(sc, a, d, record, i)
    ensures var size := sc.settings.downstreamFragmentSize;
            && Step(sc, a).Some?
            && var b := Step(sc, a).value;
            && b.session.server == Noted(sc, a).server
            && Billed(a.session, b.session, Feed(1, i < |CutOf(record, size)| - 1))
            && if i == |CutOf(record, size)| - 1 then AtTurn(sc, b, d) else Feeding(sc, b, d, record, i + 1)
  {
    hide HandleSupplicantEap, SrvAfter, Parse, BuildAck, Encode, WellCut;
    var size := sc.settings.downstreamFragmentSize;
    var cut, id := CutOf(record, size)[i..], NextId(a.peer.lastId);
    CutOfFacts(sc, record, size);
    AckDrawsNext(StrictServer(sc), Noted(sc, a), sc.caller, a.peer.lastId, record, size, i);
    var (s', handled) := HandleSupplicantEap(StrictServer(sc), Noted(sc, a), sc.caller, PeerPacket(a.peer));
    assert FragmentPacket(record, size, i, id) == FragPacket(REQUEST, id, cut);
    FirstFits(cut, sc.overhead);
    PeerTakesFragment(sc, a.peer, handled.value.eap.value, id, cut);
    if |cut| == 1 {
      PeerFinishes(sc, a.peer, id, cut, d);
    } else {
      PeerGoesOn(sc, a.peer, id, cut);
      assert cut[1..] == CutOf(record, size)[i + 1..];
    }
  }

  lemma {:induction false} FeedingEnds(sc: Scenario, a: Auth, d: Dialogue, record: Bytes, i: nat)
    requires Proper(sc) && Feeding(sc, a, d, record, i)
    ensures var k := |CutOf(record, sc.settings.downstreamFragmentSize)| - i;
            Arrives(sc, a, k, Feed(k, false), d)
    decreases |CutOf(record, sc.settings.downstreamFragmentSize)| - i
  {
    hide Arrives, Step, AtTurn, CutOf;
    var n := |CutOf(record, sc.settings.downstreamFragmentSize)|;
    FeedingStep(sc, a, d, record, i);
    var b := Step(sc, a).value;
    if i == n - 1 {
      ArrivesNow(sc, a, Feed(1, false), d);
    } else {
      FeedingEnds(sc, b, d, record, i + 1);
      ArrivesStep(sc, a, n - i, Feed(1, true), Feed(n - i - 1, false), d);
    }
  }

  /** The supplicant has handed over its turn and waits for the answer. */
  predicate Handed(a: Auth, d: Dialogue) {
    && d.verdict.None? && a.peer.verdict.None? && |a.peer.toSend| <= 1 && a.peer.inbox == CLOSED
    && a.peer.heard == d.heard
  }

  /** The session `s` is about to answer the packet just sent by the supplicant. */
  predicate Answering(sc: Scenario, a: Auth, s: SessionView) {
    && s.settings == sc.settings && sc.settings.mode.Reassemble? && s.result.None?
    && s.supplicant.nextId == a.peer.lastId && s.supplicant.lastReqId == Some(a.peer.lastId)
    && !s.upReasm.state.InProgress? && !s.downReasm.state.InProgress?
  }

  /** What one step makes of a record on its way out: the first fragment reaches the supplicant. */
  lemma FirstFragmentGoesOut(sc: Scenario, a: Auth, s: SessionView, record: Bytes, d: Dialogue)
    requires Proper(sc) && Answering(sc, a, s) && |record| < U32_LIMIT
    requires HandleSupplicantEap(StrictServer(sc), Noted(sc, a), sc.caller, PeerPacket(a.peer)) == DeliverRecord(s, record)
    requires Talking(sc, s, RestingSrv(s.server, d.said))
    requires d.heard != [] && Handed(a, d.(heard := d.heard[..|d.heard| - 1]))
    requires a.peer.said == d.said && d.heard == a.peer.heard + [record]
    ensures var n := |CutOf(record, sc.settings.downstreamFragmentSize)|;
            && Step(sc, a).Some?
            && var b := Step(sc, a).value;
            && b.session.server == s.server && b.session.up == s.up
            && b.session.down == AddMetrics(s.down, Metrics(0, 1, if n > 1 then 1 else 0, |record|))
            && if n == 1 then AtTurn(sc, b, d) else n > 1 && Feeding(sc, b, d, record, 1)
  {
    hide HandleSupplicantEap, SrvAfter, Parse, SendNextDownstreamFragment, WellCut, Linked;
    var size, id := sc.settings.downstreamFragmentSize, NextId(a.peer.lastId);
    var chunks, cut := Chunks(record, size), CutOf(record, size);
    CutOfFacts(sc, record, size);
    assert cut[0..] == cut && Enumerate(chunks)[0..] == Enumerate(chunks);
    var s0 := s.(down := s.down.(bytesReassembled := s.down.bytesReassembled + |record|),
                 supplicant := s.supplicant.(outbox := Enumerate(chunks), total := |record|, nchunks := |chunks|));
    NextFragmentIsSent(s0, record, size, 0);
    var (s1, handled) := SendNextDownstreamFragment(s0);
    assert DeliverRecord(s, record) == (s1, handled);
    assert FragmentPacket(record, size, 0, id) == FragPacket(REQUEST, id, cut);
    FirstFits(cut, sc.overhead);
    PeerTakesFragment(sc, a.peer, handled.value.eap.value, id, cut);
    assert CLOSED.data + Content(cut) == Content(cut) == record;
    if |cut| == 1 {
      PeerFinishes(sc, a.peer, id, cut, d);
    } else {
      PeerGoesOn(sc, a.peer, id, cut);
    }
  }

  // ---- A whole turn -------------------------------------------------------

  /** Datagrams that the server's turn takes after the packet that handed it over. */
  function Deliveries(sc: Scenario, turn: Turn): nat
    requires sc.settings.downstreamFragmentSize >= 1
  {
    match turn
    case Flight(cut) => ChunkCount(|Content(cut)|, sc.settings.downstreamFragmentSize) - 1
    case Close(_) => 0
  }

  /** Exchanges that it takes after the one that handed it over. */
  function Pulls(turn: Turn): nat {
    match turn
    case Flight(cut) => if cut == [] then 0 else |cut| - 1
    case Close(_) => 0
  }

  /** What the server's turn adds once its first packet is there. */
  function ServeBill(sc: Scenario, turn: Turn): (bill: Bill)
    requires sc.settings.downstreamFragmentSize >= 1
    ensures bill.exchanges == Pulls(turn)
  {
    match turn
    case Flight(cut) =>
      Bill(Pulls(turn), Metrics(Deliveries(sc, turn), 0, 0, 0),
           Metrics(0, 1 + Deliveries(sc, turn), Pulls(turn) + Deliveries(sc, turn), |Content(cut)|))
    case Close(_) => Bill(0, NO_METRICS, NO_METRICS)
  }

  /** The server has answered: from here to the next turn. */
  lemma AnswerIsServed(sc: Scenario, a: Auth, s: SessionView, reply: Reply, n: nat, d: Dialogue, spent: Bill)
    requires Proper(sc) && Answering(sc, a, s) && Handed(a, d)
    requires a.peer.said == d.said + [ActMeans(sc.client(d.heard))]
    requires n > 0 && HasAnswered(sc, s, n, a.peer.said, reply)
    requires HandleSupplicantEap(StrictServer(sc), Noted(sc, a), sc.caller, PeerPacket(a.peer))
          == HandleUpstreamReply(StrictServer(sc), s, sc.caller, reply)
    requires Billed(a.session, s, spent)
    requires n + 1 + Pulls(sc.serve(a.peer.said)) <= sc.lifetime
    ensures var turn := sc.serve(a.peer.said);
            Arrives(sc, a, 1 + Deliveries(sc, turn), AddBills(spent, ServeBill(sc, turn)), NextDialogue(sc, d))
  {
    hide Arrives, HandleSupplicantEap, HandleUpstreamReply, SrvAfter, AtTurn;
    var d' := NextDialogue(sc, d);
    if sc.serve(a.peer.said).Close? {
      ClosingIsPassedOn(sc, s, n, a.peer.said, reply, a.peer.lastId);
      assert Over(sc, Step(sc, a).value, d');
      ArrivesNow(sc, a, AddBills(spent, ServeBill(sc, sc.serve(a.peer.said))), d');
    } else {
      FlightIsServed(sc, a, s, reply, n, d, spent);
    }
  }

  lemma FlightIsServed(sc: Scenario, a: Auth, s: SessionView, reply: Reply, n: nat, d: Dialogue, spent: Bill)
    requires Proper(sc) && Answering(sc, a, s) && Handed(a, d)
    requires a.peer.said == d.said + [ActMeans(sc.client(d.heard))]
    requires n > 0 && sc.serve(a.peer.said).Flight? && HasAnswered(sc, s, n, a.peer.said, reply)
    requires HandleSupplicantEap(StrictServer(sc), Noted(sc, a), sc.caller, PeerPacket(a.peer))
          == HandleUpstreamReply(StrictServer(sc), s, sc.caller, reply)
    requires Billed(a.session, s, spent)
    requires n + 1 + Pulls(sc.serve(a.peer.said)) <= sc.lifetime
    ensures var turn := sc.serve(a.peer.said);
            Arrives(sc, a, 1 + Deliveries(sc, turn), AddBills(spent, ServeBill(sc, turn)), NextDialogue(sc, d))
  {
    hide Arrives, HandleSupplicantEap, HandleUpstreamReply, SrvAfter, AtTurn, Step;
    hide DeliverRecord, Told, Linked, CutOf, Chunks, Content, WellCut;
    var cut, d' := sc.serve(a.peer.said).cut, NextDialogue(sc, d);
    var record := Content(cut);
    var s' := FlightIsPulled(sc, s, n, a.peer.said, reply);
    assert Srv(n + |cut|, a.peer.said, CLOSED, []) == RestingSrv(s'.server, d'.said);
    assert d'.heard[..|d'.heard| - 1] == d.heard;
    FirstFragmentGoesOut(sc, a, s', record, d');
    CutOfFacts(sc, record, sc.settings.downstreamFragmentSize);
    var k := |CutOf(record, sc.settings.downstreamFragmentSize)|;
    var pulled := Bill(|cut| - 1, NO_METRICS, Metrics(0, 1, |cut| - 1 + if k > 1 then 1 else 0, |record|));
    if k == 1 {
      ArrivesNow(sc, a, AddBills(spent, pulled), d');
    } else {
      FeedingEnds(sc, Step(sc, a).value, d', record, 1);
      ArrivesStep(sc, a, k, AddBills(spent, pulled), Feed(k - 1, false), d');
    }
  }

  const POLL := Bill(1, Metrics(1, 0, 0, 0), NO_METRICS)

  /** The supplicant has nothing to say: its empty packet becomes a poll of the server. */
  lemma PollIsServed(sc: Scenario, a: Auth, d: Dialogue)
    requires Proper(sc) && sc.settings.mode.Reassemble? && AtTurn(sc, a, d) && d.verdict.None?
    requires sc.client(d.heard).Quiet?
    requires |a.session.server.requests| + 1 + Pulls(sc.serve(d.said + [None])) <= sc.lifetime
    ensures var turn := sc.serve(d.said + [None]);
            Arrives(sc, a, 1 + Deliveries(sc, turn), AddBills(POLL, ServeBill(sc, turn)), NextDialogue(sc, d))
  {
    hide Arrives, HandleUpstreamReply, Exchange, SrvStep, Encode, Parse;
    var v := RestingSrv(a.session.server, d.said);
    AckParses(RESPONSE, a.peer.lastId);
    AckParses(RESPONSE, sc.ids(v.count - 1));
    AckFits(sc, RESPONSE, sc.ids(v.count - 1));
    StrictExchange(sc, Noted(sc, a).server, v, BuildAck(RESPONSE, sc.ids(v.count - 1)));
    var s0 := NotePacket(Noted(sc, a), BuiltPacket(RESPONSE, a.peer.lastId, [], false, None, false));
    var (leg, reply) := Exchange(StrictServer(sc), s0.server, sc.caller, BuildAck(RESPONSE, sc.ids(v.count - 1)));
    assert SrvTurn(sc, v, d.said + [None]) == Some(Taken(sc, v.count, d.said + [None]));
    AnswerIsServed(sc, a, s0.(server := leg), reply.value, v.count, d, POLL);
  }

  /** In the middle of the supplicant's message: what it has sent is with the reassembler. */
  predicate Saying(sc: Scenario, a: Auth, d: Dialogue) {
    var act := sc.client(d.heard);
    && Talking(sc, a.session, RestingSrv(a.session.server, d.said))
    && a.session.supplicant.outbox == [] && !a.session.downReasm.state.InProgress?
    && d.verdict.None? && a.peer.verdict.None? && a.peer.heard == d.heard && a.peer.inbox == CLOSED
    && act.Say? && a.peer.said == d.said + [Some(Content(act.cut))] && WellCut(a.peer.toSend, sc.overhead)
    && Buffered(a.session.upReasm) + Content(a.peer.toSend) == Content(act.cut)
    && (a.session.upReasm.state.InProgress? || a.peer.toSend == act.cut)
  }

  /** A fragment of the supplicant is taken in: held if more are to come, else the record is whole. */
  lemma FragmentIsTaken(sc: Scenario, a: Auth, d: Dialogue)
    requires Proper(sc) && Saying(sc, a, d)
    ensures var p := FragPacket(RESPONSE, a.peer.lastId, a.peer.toSend);
            var (r, ingested) := Ingest(sc.settings.maxMessageLen, a.session.upReasm, p);
            && Parse(PeerPacket(a.peer)) == Ok(p) && !p.IsAck()
            && if |a.peer.toSend| > 1
               then ingested.NeedMore? && r.state.InProgress?
                    && r.buffer + Content(a.peer.toSend[1..]) == Content(sc.client(d.heard).cut)
               else ingested == Message(Content(sc.client(d.heard).cut)) && r.state.Complete?
  {
    hide SrvAfter, Encode, Parse;
    var toSend, r := a.peer.toSend, a.session.upReasm;
    PrintedFrag(RESPONSE, a.peer.lastId, toSend, sc.overhead);
    ContentStep(toSend);
    assert Buffered(r) + Content(toSend) == (Buffered(r) + toSend[0].data) + Content(toSend[1..]);
    if |toSend| == 1 {
      assert toSend[1..] == [] && Content(toSend[1..]) == [];
    }
  }

  const HELD := Bill(0, Metrics(1, 0, 1, 0), NO_METRICS)

  /** k fragments making up a record of so many octets, which goes up in so many chunks. */
  function RecordBill(k: nat, octets: nat, chunks: nat): Bill
    requires k >= 1
  {
    Bill(chunks, Metrics(k, chunks, k - 1, octets), NO_METRICS)
  }

  /** Any fragment but the last is acknowledged on the spot; the server hears nothing. */
  lemma FragmentIsHeld(sc: Scenario, a: Auth, d: Dialogue)
    requires Proper(sc) && Saying(sc, a, d) && |a.peer.toSend| > 1
    ensures Step(sc, a).Some?
    ensures var b := Step(sc, a).value;
            && Saying(sc, b, d) && Billed(a.session, b.session, HELD) && b.session.server == Noted(sc, a).server
            && b.peer.toSend == a.peer.toSend[1..] && b.peer.said == a.peer.said
  {
    hide SrvAfter, Encode, Parse;
    FragmentIsTaken(sc, a, d);
    TailIsWellCut(a.peer.toSend, sc.overhead);
    AckParses(REQUEST, NextId(a.peer.lastId));
    AckFits(sc, REQUEST, NextId(a.peer.lastId));
  }

  /** The last fragment sends the record to the server, and its answer is served. */
  lemma LastFragmentIsServed(sc: Scenario, a: Auth, d: Dialogue)
    requires Proper(sc) && Saying(sc, a, d) && |a.peer.toSend| == 1
    requires var chunks := ChunkCount(|Content(sc.client(d.heard).cut)|, sc.settings.upstreamFragmentSize);
             |a.session.server.requests| + chunks + Pulls(sc.serve(a.peer.said)) <= sc.lifetime
    ensures var turn := sc.serve(a.peer.said);
            var chunks := ChunkCount(|Content(sc.client(d.heard).cut)|, sc.settings.upstreamFragmentSize);
            var spent := RecordBill(1, |Content(sc.client(d.heard).cut)|, chunks);
            Arrives(sc, a, 1 + Deliveries(sc, turn), AddBills(spent, ServeBill(sc, turn)), NextDialogue(sc, d))
  {
    hide Arrives, SrvAfter, Encode, Parse, HandleUpstreamReply, SendChunks, Ingest, WellCut;
    FragmentIsTaken(sc, a, d);
    var record, size := Content(sc.client(d.heard).cut), sc.settings.upstreamFragmentSize;
    var p := FragPacket(RESPONSE, a.peer.lastId, a.peer.toSend);
    var s0 := NotePacket(Noted(sc, a), p);
    var r := Ingest(sc.settings.maxMessageLen, s0.upReasm, p).0;
    var s1 := s0.(upReasm := r, up := s0.up.(bytesReassembled := s0.up.bytesReassembled + |record|));
    CutOfFacts(sc, record, size);
    var v := RestingSrv(s1.server, d.said);
    assert CutOf(record, size)[0..] == CutOf(record, size);
    assert CLOSED.data + Content(CutOf(record, size)) == record;
    RecordArrives(sc, s1, v, record, 0);
    var (s2, reply) := SendChunks(StrictServer(sc), s1, sc.caller, |record|, Chunks(record, size), 0);
    assert HandleSupplicantEap(StrictServer(sc), Noted(sc, a), sc.caller, PeerPacket(a.peer))
        == HandleUpstreamReply(StrictServer(sc), s2, sc.caller, reply.value);
    AnswerIsServed(sc, a, s2, reply.value, |s1.server.requests| + |Chunks(record, size)| - 1, d,
                   RecordBill(1, |record|, |Chunks(record, size)|));
  }

  lemma {:induction false} MessageIsServed(sc: Scenario, a: Auth, d: Dialogue)
    requires Proper(sc) && Configured(sc) && Saying(sc, a, d)
    requires var chunks := ChunkCount(|Content(sc.client(d.heard).cut)|, sc.settings.upstreamFragmentSize);
             |a.session.server.requests| + chunks + Pulls(sc.serve(a.peer.said)) <= sc.lifetime
    ensures var turn := sc.serve(a.peer.said);
            var chunks := ChunkCount(|Content(sc.client(d.heard).cut)|, sc.settings.upstreamFragmentSize);
            var spent := RecordBill(|a.peer.toSend|, |Content(sc.client(d.heard).cut)|, chunks);
            Arrives(sc, a, |a.peer.toSend| + Deliveries(sc, turn),
                    AddBills(spent, ServeBill(sc, turn)), NextDialogue(sc, d))
    decreases |a.peer.toSend|
  {
    hide Arrives, Step, Talking, Content, ChunkCount, ServeBill, Deliveries, Pulls, Parse, SrvAfter;
    if |a.peer.toSend| == 1 {
      LastFragmentIsServed(sc, a, d);
    } else {
      FragmentIsHeld(sc, a, d);
      var b, turn := Step(sc, a).value, sc.serve(a.peer.said);
      MessageIsServed(sc, b, d);
      var chunks := ChunkCount(|Content(sc.client(d.heard).cut)|, sc.settings.upstreamFragmentSize);
      var rest := RecordBill(|a.peer.toSend| - 1, |Content(sc.client(d.heard).cut)|, chunks);
      ArrivesStep(sc, a, |a.peer.toSend| + Deliveries(sc, turn),
                  HELD, AddBills(rest, ServeBill(sc, turn)), NextDialogue(sc, d));
    }
  }

  /** Datagrams of one turn of each side in reassemble mode. */
  function TurnDatagrams(sc: Scenario, d: Dialogue): nat
    requires sc.settings.downstreamFragmentSize >= 1
  {
    var act := sc.client(d.heard);
    (if act.Say? then |act.cut| else 1) + Deliveries(sc, sc.serve(d.said + [ActMeans(act)]))
  }

  /** Exchanges of one turn of each side: the chunks of the record, or one poll, and the fragments pulled. */
  function Exchanges(said: Option<Bytes>, size: int, turn: Turn): nat
    requires size >= 1
  {
    (if said.Some? then ChunkCount(|said.value|, size) else 1) + Pulls(turn)
  }

  /** All that it adds to the measurements. */
  function TurnBill(sc: Scenario, d: Dialogue): (bill: Bill)
    requires sc.settings.upstreamFragmentSize >= 1 && sc.settings.downstreamFragmentSize >= 1
    requires sc.client(d.heard).Say? ==> sc.client(d.heard).cut != []
  {
    var act := sc.client(d.heard);
    var octets := if act.Say? then |Content(act.cut)| else 0;
    AddBills(if act.Say? then RecordBill(|act.cut|, octets, ChunkCount(octets, sc.settings.upstreamFragmentSize))
             else POLL,
             ServeBill(sc, sc.serve(d.said + [ActMeans(act)])))
  }

  lemma TurnBillCosts(sc: Scenario, d: Dialogue)
    requires sc.settings.upstreamFragmentSize >= 1 && sc.settings.downstreamFragmentSize >= 1
    requires sc.client(d.heard).Say? ==> sc.client(d.heard).cut != []
    ensures TurnBill(sc, d).exchanges
         == Exchanges(ActMeans(sc.client(d.heard)), sc.settings.upstreamFragmentSize,
                      sc.serve(d.said + [ActMeans(sc.client(d.heard))]))
  {
    hide ChunkCount, Content, Deliveries;
  }

  /** From one turn to the next. */
  lemma NextTurn(sc: Scenario, a: Auth, d: Dialogue)
    requires sc.settings.mode.Reassemble?
    requires Proper(sc) && AtTurn(sc, a, d) && d.verdict.None?
    requires |a.session.server.requests| + TurnBill(sc, d).exchanges <= sc.lifetime
    ensures Arrives(sc, a, TurnDatagrams(sc, d), TurnBill(sc, d), NextDialogue(sc, d))
  {
    hide Arrives, SrvAfter, Content, Deliveries, ServeBill;
    var act := sc.client(d.heard);
    if act.Say? {
      assert [] + Content(act.cut) == Content(act.cut);
      MessageIsServed(sc, a, d);
    } else {
      PollIsServed(sc, a, d);
    }
  }

  /**
   One turn of each side, a record of n octets or nothing answered by m fragments, takes the session
   exactly max(1, ceil(n / size)) + (m - 1) exchanges, or 1 + (m - 1).
   */
  lemma TurnCosts(sc: Scenario, a: Auth, d: Dialogue)
    requires sc.settings.mode.Reassemble?
    requires Proper(sc) && AtTurn(sc, a, d) && d.verdict.None?
    requires |a.session.server.requests|
             + Exchanges(ActMeans(sc.client(d.heard)), sc.settings.upstreamFragmentSize,
                         sc.serve(d.said + [ActMeans(sc.client(d.heard))])) <= sc.lifetime
    ensures var b := Run(sc, a, TurnDatagrams(sc, d));
            && b.Some? && Reached(sc, b.value, NextDialogue(sc, d))
            && |b.value.session.server.requests|
            == |a.session.server.requests|
               + Exchanges(ActMeans(sc.client(d.heard)), sc.settings.upstreamFragmentSize,
                           sc.serve(d.said + [ActMeans(sc.client(d.heard))]))
  {
    hide TurnBill, AtTurn, Reached, Exchanges, Content, NextDialogue, TurnDatagrams;
    TurnBillCosts(sc, d);
    NextTurn(sc, a, d);
  }
}
