/**
 What the drain loop makes of a server flight, against any auth server whatever: what it returns,
 how it ends, how long it takes, and when what it returns is not a message the server sent.
 */
module DrainLaws {
  import opened Prelude
  import opened Octets
  import opened EapTls
  import opened Reassembly
  import opened Radius
  import opened SessionState
  import opened MediatorSpec

  /** A challenge with a data fragment. */
  predicate IsData(answer: Option<Answer>) {
    && answer.Some? && !ReplyOf(answer.value).Accept() && !ReplyOf(answer.value).Reject()
    && answer.value.Eap().Some? && Parse(answer.value.Eap().value).Ok?
    && !Parse(answer.value.Eap().value).value.IsAck()
  }

  function FragmentOf(answer: Option<Answer>): EapTlsPacket
    requires IsData(answer)
  {
    Parse(answer.value.Eap().value).value
  }

  /** The TLS octets an answer brings. */
  function Brings(answer: Option<Answer>): Bytes {
    if IsData(answer) then FragmentOf(answer).tlsData else []
  }

  function AllBring(answers: seq<Option<Answer>>): Bytes {
    if answers == [] then [] else Brings(answers[0]) + AllBring(answers[1..])
  }

  /** A fragment with M: more of the flight is to come. */
  predicate Continues(answer: Option<Answer>) {
    IsData(answer) && FragmentOf(answer).moreFragments
  }

  /** The last fragment of a flight. */
  predicate Completes(answer: Option<Answer>) {
    IsData(answer) && !FragmentOf(answer).moreFragments
  }

  predicate Ends(answer: Option<Answer>) {
    answer.Some? && (ReplyOf(answer.value).Accept() || ReplyOf(answer.value).Reject())
  }

  /** Answers that came back between two states of a conversation. */
  function Since(before: ServerLeg, after: ServerLeg): seq<Option<Answer>> {
    if before.answers <= after.answers then after.answers[|before.answers|..] else []
  }

  /** How the answer that stopped a drain must have ended it, so much being buffered before. */
  predicate EndedBy(buffer: Bytes, max: nat, last: Option<Answer>, t: SessionView, drained: Drained) {
    match drained
    case Record(data) =>
      && last.Some? && !Ends(last) && !Continues(last)
      && data == buffer + Brings(last)
      && (Completes(last) <==> t.downReasm.state.Complete?)
    case Terminal => Ends(last)
    case DrainRaised(e) =>
      if last.None? then e == UpstreamTimeout
      else if IsData(last) then e == BufferExceedsMax && |buffer + Brings(last)| > max
      else !Ends(last) && last.value.Eap().Some? && Parse(last.value.Eap().value) == Err(e)
  }

  /** How a drain must have ended, given what came back. */
  predicate DrainedFrom(s: SessionView, t: SessionView, drained: Drained) {
    var back, max := Since(s.server, t.server), s.settings.maxMessageLen;
    && s.server.answers <= t.server.answers && back != []
    && |t.server.requests| - |s.server.requests| == |back|
    && var (front, last) := (back[..|back| - 1], back[|back| - 1]);
    && (forall a :: a in front ==> Continues(a))
    && |s.downReasm.buffer + AllBring(front)| <= max
    && EndedBy(s.downReasm.buffer + AllBring(front), max, last, t, drained)
  }

  lemma AckBringsOneAnswer(server: Server, s: SessionView, caller: Caller)
    ensures var (s1, reply) := AckUpstream(server, s, caller);
            && |s1.server.answers| == |s.server.answers| + 1 && s.server.answers <= s1.server.answers
            && |s1.server.requests| == |s.server.requests| + 1
            && var answer := s1.server.answers[|s.server.answers|];
            && reply == (if answer.Some? then Some(ReplyOf(answer.value)) else None)
            && s1.settings == s.settings && s1.downReasm == s.downReasm
  {
  }

  /** One turn of the loop, given the answer. */
  lemma TurnTakes(s: SessionView, answer: Answer)
    requires s.downReasm.state.InProgress? && |s.downReasm.buffer| <= s.settings.maxMessageLen
    ensures var (t, turn) := TakeFragment(s, ReplyOf(answer));
            && t.settings == s.settings
            && if Continues(Some(answer)) && |s.downReasm.buffer + Brings(Some(answer))| <= s.settings.maxMessageLen then
                 && turn == Pulled(true) && t.downReasm.state.InProgress?
                 && t.downReasm.buffer == s.downReasm.buffer + Brings(Some(answer))
                 && t.server == s.server
               else
                 && (turn.Pulled? ==> !turn.more && !IsData(Some(answer)) && t.downReasm == s.downReasm)
                 && var drained := if turn.Pulled? then Record(t.downReasm.buffer) else turn.drained;
                 && EndedBy(s.downReasm.buffer, s.settings.maxMessageLen, Some(answer), t, drained)
                 && t.server == s.server
  {
    hide Parse, ConcatEap;
    assert s.downReasm.buffer + [] == s.downReasm.buffer;
  }

  lemma DrainedAtOnce(s: SessionView, t: SessionView, answer: Option<Answer>, drained: Drained)
    requires t.server.answers == s.server.answers + [answer]
    requires |t.server.requests| == |s.server.requests| + 1
    requires |s.downReasm.buffer| <= s.settings.maxMessageLen
    requires EndedBy(s.downReasm.buffer, s.settings.maxMessageLen, answer, t, drained)
    ensures DrainedFrom(s, t, drained)
  {
    hide EndedBy, Continues;
    assert Since(s.server, t.server) == [answer];
    assert AllBring([answer][..0]) == [] && s.downReasm.buffer + [] == s.downReasm.buffer;
  }

  lemma OneMoreBrings(buffer: Bytes, answer: Option<Answer>, front: seq<Option<Answer>>)
    ensures buffer + AllBring([answer] + front) == buffer + Brings(answer) + AllBring(front)
  {
    hide Brings;
    assert AllBring([answer] + front) == Brings(answer) + AllBring(front);
  }

  lemma DrainedLater(s: SessionView, s2: SessionView, t: SessionView, answer: Option<Answer>, drained: Drained)
    requires s2.server.answers == s.server.answers + [answer] && s2.settings == s.settings
    requires |s2.server.requests| == |s.server.requests| + 1
    requires Continues(answer) && s2.downReasm.buffer == s.downReasm.buffer + Brings(answer)
    requires DrainedFrom(s2, t, drained)
    ensures DrainedFrom(s, t, drained)
  {
    hide EndedBy, Continues, Brings, AllBring;
    var back, rest := Since(s.server, t.server), Since(s2.server, t.server);
    assert back == [answer] + rest;
    var front := rest[..|rest| - 1];
    assert back[..|back| - 1] == [answer] + front;
    OneMoreBrings(s.downReasm.buffer, answer, front);
  }

  /**
   The drain loop, against any server. It goes on while fragments with M come back and stops at the
   first other answer. It returns a record just when that answer is neither a verdict, nor
   unreadable, nor too much: all the octets since the flight began, in order. That record is the
   whole flight if and only if the last answer was a fragment without M.
   */
  lemma {:induction false} DrainGathers(server: Server, s: SessionView, caller: Caller)
    requires s.downReasm.state.InProgress? && |s.downReasm.buffer| <= s.settings.maxMessageLen
    ensures var (t, drained) := Drain(server, s, caller, true); DrainedFrom(s, t, drained)
    decreases if |s.server.requests| <= server.lifetime then server.lifetime - |s.server.requests| + 1 else 0
  {
    hide TakeFragment, AckUpstream, IsData;
    AckBringsOneAnswer(server, s, caller);
    var (s1, reply) := AckUpstream(server, s, caller);
    var answer := s1.server.answers[|s.server.answers|];
    var (t, drained) := Drain(server, s, caller, true);
    if reply.None? {
      DrainedAtOnce(s, t, answer, drained);
    } else {
      TurnTakes(s1, answer.value);
      var (s2, turn) := TakeFragment(s1, reply.value);
      assert turn.Pulled? || turn.Ended?;
      if turn.Pulled? && turn.more {
        DrainGathers(server, s2, caller);
        DrainedLater(s, s2, t, answer, drained);
      } else {
        assert turn.Pulled? ==> Drain(server, s2, caller, false) == (s2, Record(s2.downReasm.buffer));
        DrainedAtOnce(s, t, answer, drained);
      }
    }
  }

  /** If every fragment with M brings something, the limit on a message bounds the number of ACKs sent for it. */
  lemma DrainIsBounded(server: Server, s: SessionView, caller: Caller)
    requires s.downReasm.state.InProgress? && |s.downReasm.buffer| <= s.settings.maxMessageLen
    ensures var t := Drain(server, s, caller, true).0;
            var back := Since(s.server, t.server);
            (forall a :: a in back && Continues(a) ==> Brings(a) != []) ==>
              |t.server.requests| - |s.server.requests| <= s.settings.maxMessageLen - |s.downReasm.buffer| + 1
  {
    hide Drain, Continues, Brings, EndedBy;
    DrainGathers(server, s, caller);
    var back := Since(s.server, Drain(server, s, caller, true).0.server);
    if forall a :: a in back && Continues(a) ==> Brings(a) != [] {
      EachBringsSomething(back[..|back| - 1]);
    }
  }

  lemma {:induction false} EachBringsSomething(answers: seq<Option<Answer>>)
    requires forall a :: a in answers ==> Brings(a) != []
    ensures |AllBring(answers)| >= |answers|
  {
    hide Brings;
    if answers != [] {
      assert answers[0] in answers;
      EachBringsSomething(answers[1..]);
    }
  }

  lemma {:induction false} AllBringSnoc(answers: seq<Option<Answer>>, last: Option<Answer>)
    ensures AllBring(answers + [last]) == AllBring(answers) + Brings(last)
  {
    hide Brings;
    if answers == [] {
      assert [] + [last] == [last];
    } else {
      AllBringSnoc(answers[1..], last);
      assert (answers + [last])[1..] == answers[1..] + [last];
    }
  }

  /**
   A flight that came back whole or in part, and the record made of it: its octets behind whatever was in
   the buffer already, of a flight that an earlier call gave up on.
   */
  predicate IsFlight(stale: Bytes, flight: seq<Option<Answer>>, record: Bytes, complete: bool) {
    && flight != []
    && (forall a :: a in flight[..|flight| - 1] ==> Continues(a))
    && record == stale + AllBring(flight)
    && (Completes(flight[|flight| - 1]) <==> complete)
  }

  lemma DrainedIsFlight(s: SessionView, t: SessionView, stale: Bytes, first: Option<Answer>, record: Bytes)
    requires Continues(first) && s.downReasm.buffer == stale + Brings(first)
    requires DrainedFrom(s, t, Record(record))
    ensures IsFlight(stale, [first] + Since(s.server, t.server), record, t.downReasm.state.Complete?)
  {
    hide Brings, Continues, Completes, Ends, Since, AllBring, IsFlight;
    var back := Since(s.server, t.server);
    LongerIsFlight(stale, first, back[..|back| - 1], back[|back| - 1], t.downReasm.state.Complete?);
    assert back[..|back| - 1] + [back[|back| - 1]] == back;
  }

  lemma LongerIsFlight(stale: Bytes, first: Option<Answer>, front: seq<Option<Answer>>, last: Option<Answer>, complete: bool)
    requires Continues(first) && (forall a :: a in front ==> Continues(a)) && (Completes(last) <==> complete)
    ensures IsFlight(stale, [first] + (front + [last]), stale + Brings(first) + AllBring(front) + Brings(last), complete)
  {
    hide Brings, Continues, Completes;
    AllBringSnoc(front, last);
    var flight := [first] + (front + [last]);
    assert flight[..|flight| - 1] == [first] + front;
    assert flight[1..] == front + [last];
    assert AllBring(flight) == Brings(first) + AllBring(front + [last]);
    assert stale + (Brings(first) + (AllBring(front) + Brings(last)))
        == stale + Brings(first) + AllBring(front) + Brings(last);
  }

  lemma LoneFragmentIsFlight(stale: Bytes, only: Option<Answer>)
    requires Completes(only)
    ensures IsFlight(stale, [only], stale + Brings(only), true)
  {
    hide Brings, Completes;
    AllBringSnoc([], only);
    assert [] + [only] == [only] && [] + Brings(only) == Brings(only);
  }

  /** What a record delivered in answer to a flight is made of, `before` being the state of the reassembler. */
  predicate MadeOf(before: Reasm, after: Reasm, flight: seq<Option<Answer>>, record: Bytes) {
    if flight != [] && IsData(flight[0]) then IsFlight(Buffered(before), flight, record, after.state.Complete?)
    else |flight| == 1 && record == before.buffer
  }

  /**
   A record delivered to the supplicant, against any server and in any state: the octets that came back since
   the reply in hand, in order, behind those of a flight given up half-way; but in answer to an empty
   EAP-TLS packet it is whatever was last in the buffer.
   */
  lemma RecordDelivered(server: Server, s: SessionView, caller: Caller, reply: Reply)
    returns (s': SessionView, record: Bytes)
    requires s.server.answers != []
    requires var last := s.server.answers[|s.server.answers| - 1]; last.Some? && reply == ReplyOf(last.value)
    ensures var (t, handled) := HandleUpstreamReply(server, s, caller, reply);
            handled.Ok? && handled.value.action.ActChallenge? ==>
              && (t, handled) == DeliverRecord(s', record)
              && s.server.answers <= t.server.answers
              && MadeOf(s.downReasm, t.downReasm, t.server.answers[|s.server.answers| - 1..], record)
  {
    hide Parse, ConcatEap, Drain, DeliverRecord, IsFlight, DrainedFrom;
    s', record := s, [];
    var n := |s.server.answers|;
    var last := s.server.answers[n - 1];
    assert s.server.answers[n - 1..] == [last];
    if !reply.Accept() && !reply.Reject() && reply.eap.Some? && Parse(reply.eap.value).Ok? {
      var pkt := Parse(reply.eap.value).value;
      var (s1, ingested) := IngestDown(s, pkt);
      if ingested.Message? {
        s', record := s1, ingested.data;
        assert [] + pkt.tlsData == pkt.tlsData;
        LoneFragmentIsFlight(Buffered(s.downReasm), last);
        assert HandleUpstreamReply(server, s, caller, reply) == DeliverRecord(s', record);
      } else if pkt.IsAck() {
        record := s.downReasm.buffer;
        assert Drain(server, s, caller, false) == (s, Record(record)) by { DrainNothing(server, s, caller); }
        assert HandleUpstreamReply(server, s, caller, reply) == DeliverRecord(s, record);
      } else if ingested.NeedMore? {
        var (s2, drained) := Drain(server, s1, caller, true);
        DrainGathers(server, s1, caller);
        assert [] + pkt.tlsData == pkt.tlsData;
        assert HandleUpstreamReply(server, s, caller, reply) == AfterDrain(s2, drained);
        if drained.Record? {
          s', record := s2, drained.data;
          DrainedIsFlight(s1, s2, Buffered(s.downReasm), last, record);
          DrainedGrew(s1, s2, drained);
          assert s2.server.answers[n - 1..] == [last] + Since(s1.server, s2.server);
        }
      }
    }
  }

  lemma DrainNothing(server: Server, s: SessionView, caller: Caller)
    ensures Drain(server, s, caller, false) == (s, Record(s.downReasm.buffer))
  {
  }

  lemma DrainedGrew(s: SessionView, t: SessionView, drained: Drained)
    requires DrainedFrom(s, t, drained)
    ensures s.server.answers <= t.server.answers
  {
  }

  /** An empty EAP-TLS packet in answer makes the proxy deliver whatever was last in the buffer. */
  lemma EmptyPacketRepeatsBuffer(server: Server, s: SessionView, caller: Caller, reply: Reply)
    requires !reply.Accept() && !reply.Reject() && reply.eap.Some?
    requires Parse(reply.eap.value).Ok? && Parse(reply.eap.value).value.IsAck()
    ensures HandleUpstreamReply(server, s, caller, reply) == DeliverRecord(s, s.downReasm.buffer)
  {
    hide Parse, DeliverRecord;
    DrainNothing(server, s, caller);
  }
}
