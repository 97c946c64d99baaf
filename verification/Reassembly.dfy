/**
 The reassembly state machine of proxy/eap_tls.py as a function on values, and what
 it promises over whole packet streams. The class that runs it is in Reassembler.dfy.
 */
module Reassembly {
  import opened Prelude
  import opened Octets
  import opened EapTls

  datatype ReassemblyState = Idle | InProgress | Complete

  datatype Reasm = Reasm(state: ReassemblyState, buffer: Bytes, expected: Option<nat>, fragmentCount: nat)

  const EMPTY := Reasm(Idle, [], None, 0)

  /** What is held of a message not yet whole. */
  function Buffered(r: Reasm): Bytes {
    if r.state.InProgress? then r.buffer else []
  }

  /** How one call of `ingest` ends: an exception, None, or the finished message. */
  datatype Ingested = Raised(error: EapError) | NeedMore | Message(data: Bytes)

  function Ingest(max: nat, r: Reasm, pkt: EapTlsPacket): (res: (Reasm, Ingested))
    ensures res.1.Message? ==> res.0.state.Complete? && res.0.buffer == res.1.data
    // the size bound holds after every return (but not after every raise: see OverflowIsSticky)
    ensures !res.1.Raised? && |r.buffer| <= max ==> |res.0.buffer| <= max
    ensures !res.1.Raised? && !pkt.IsAck() ==> |res.0.buffer| <= max
  {
    if pkt.IsAck() then (r, NeedMore)
    else
      var opening := !r.state.InProgress?;
      var r0 := if opening
                then EMPTY.(expected := if pkt.lengthIncluded then pkt.tlsMessageLength else None)
                else r;
      if opening && r0.expected.Some? && r0.expected.value > max then (r0, Raised(DeclaredLengthExceedsMax))
      else
        var r1 := Reasm(InProgress, r0.buffer + pkt.tlsData, r0.expected, r0.fragmentCount + 1);
        if |r1.buffer| > max then (r1, Raised(BufferExceedsMax))
        else if pkt.moreFragments then (r1, NeedMore)
        else (r1.(state := Complete), Message(r1.buffer))
  }

  /**
   How a call ends, exactly: it raises for a declared length or a buffer above the limit, wants more after an
   ACK or a fragment with M, and otherwise gives all the octets since the message began. It counts the
   fragments of a message and keeps the length that its first one declares.
   */
  lemma IngestEnds(max: nat, r: Reasm, pkt: EapTlsPacket)
    ensures var ingested, data := Ingest(max, r, pkt).1, Buffered(r) + pkt.tlsData;
            var declared := pkt.lengthIncluded && pkt.tlsMessageLength.Some? && !r.state.InProgress?;
            && (ingested == Raised(DeclaredLengthExceedsMax) <==>
                  !pkt.IsAck() && declared && pkt.tlsMessageLength.value > max)
            && (ingested == Raised(BufferExceedsMax) <==>
                  !pkt.IsAck() && !(declared && pkt.tlsMessageLength.value > max) && |data| > max)
            && (ingested == NeedMore <==> pkt.IsAck() || (!ingested.Raised? && pkt.moreFragments))
            && (ingested.Message? ==> ingested.data == data && |data| <= max)
            && (!pkt.IsAck() && ingested != Raised(DeclaredLengthExceedsMax) ==>
                  var (r', first) := (Ingest(max, r, pkt).0, !r.state.InProgress?);
                  && r'.fragmentCount == (if first then 1 else r.fragmentCount + 1)
                  && r'.expected == (if !first then r.expected
                                     else if pkt.lengthIncluded then pkt.tlsMessageLength else None))
  {
    assert [] + pkt.tlsData == pkt.tlsData;
  }

  // ---- The size bound -----------------------------------------------------

  predicate Overflowed(max: nat, r: Reasm) {
    r.state.InProgress? && |r.buffer| > max
  }

  /** The reassembler after a series of calls, whatever each of them returned or raised. */
  function After(max: nat, r: Reasm, pkts: seq<EapTlsPacket>): Reasm
    decreases |pkts|
  {
    if pkts == [] then r else After(max, Ingest(max, r, pkts[0]).0, pkts[1..])
  }

  /**
   The bound breaks exactly when `ingest` raises for an oversized buffer, and then no
   later packet gets out: data raises again and ACKs return None, until `reset`.
   */
  lemma {:induction false} OverflowIsSticky(max: nat, r: Reasm, first: EapTlsPacket,
                                            pkts: seq<EapTlsPacket>, last: EapTlsPacket)
    requires !Overflowed(max, r)
    ensures Overflowed(max, Ingest(max, r, first).0) <==> Ingest(max, r, first).1 == Raised(BufferExceedsMax)
    ensures Ingest(max, r, first).1 == Raised(BufferExceedsMax) ==>
              Ingest(max, After(max, Ingest(max, r, first).0, pkts), last).1
              == if last.IsAck() then NeedMore else Raised(BufferExceedsMax)
  {
    if Ingest(max, r, first).1 == Raised(BufferExceedsMax) {
      StaysOverflowed(max, Ingest(max, r, first).0, pkts);
    }
  }

  lemma {:induction false} StaysOverflowed(max: nat, r: Reasm, pkts: seq<EapTlsPacket>)
    requires Overflowed(max, r)
    ensures Overflowed(max, After(max, r, pkts))
    decreases |pkts|
  {
    if pkts != [] {
      StaysOverflowed(max, Ingest(max, r, pkts[0]).0, pkts[1..]);
    }
  }

  // ---- Streams of messages ------------------------------------------------

  function Payloads(pkts: seq<EapTlsPacket>): seq<Bytes> {
    seq(|pkts|, i requires 0 <= i < |pkts| => pkts[i].tlsData)
  }

  /** Data packets only, M on all but the last. */
  predicate Tail(pkts: seq<EapTlsPacket>) {
    && pkts != []
    && (forall p :: p in pkts ==> !p.IsAck())
    && (forall i :: 0 <= i < |pkts| ==> (pkts[i].moreFragments <==> i < |pkts| - 1))
  }

  /** The packets of one message in the order sent; L and its value are free after the first packet. */
  predicate Train(max: nat, pkts: seq<EapTlsPacket>) {
    && Tail(pkts)
    && |Join(Payloads(pkts))| <= max
    && (pkts[0].lengthIncluded && pkts[0].tlsMessageLength.Some? ==> pkts[0].tlsMessageLength.value <= max)
  }

  datatype Fed = Fed(r: Reasm, messages: seq<Bytes>, error: Option<EapError>)

  /** Feeds a stream packet by packet, collecting the messages, up to the first exception. */
  function Feed(max: nat, r: Reasm, pkts: seq<EapTlsPacket>): Fed
    decreases |pkts|
  {
    if pkts == [] then Fed(r, [], None)
    else
      match Ingest(max, r, pkts[0])
      case (r', Raised(e)) => Fed(r', [], Some(e))
      case (r', NeedMore) => Feed(max, r', pkts[1..])
      case (r', Message(m)) =>
        var rest := Feed(max, r', pkts[1..]);
        Fed(rest.r, [m] + rest.messages, rest.error)
  }

  function StripAcks(pkts: seq<EapTlsPacket>): seq<EapTlsPacket> {
    if pkts == [] then []
    else (if pkts[0].IsAck() then [] else [pkts[0]]) + StripAcks(pkts[1..])
  }

  /** ACK packets are invisible to the reassembler wherever they stand. */
  lemma {:induction false} AcksAreInvisible(max: nat, r: Reasm, pkts: seq<EapTlsPacket>)
    ensures Feed(max, r, pkts) == Feed(max, r, StripAcks(pkts))
    decreases |pkts|
  {
    if pkts != [] {
      AcksAreInvisible(max, Ingest(max, r, pkts[0]).0, pkts[1..]);
      if pkts[0].IsAck() {
        assert StripAcks(pkts) == StripAcks(pkts[1..]);
      } else {
        assert StripAcks(pkts)[1..] == StripAcks(pkts[1..]);
      }
    }
  }

  lemma PayloadsStep(pkts: seq<EapTlsPacket>)
    requires pkts != []
    ensures Join(Payloads(pkts)) == pkts[0].tlsData + Join(Payloads(pkts[1..]))
  {
    assert Payloads(pkts)[1..] == Payloads(pkts[1..]);
  }

  /** From the middle of a message: its remaining packets complete it, the rest of the stream follows. */
  lemma {:induction false} TailCompletes(max: nat, r: Reasm, tail: seq<EapTlsPacket>, rest: seq<EapTlsPacket>)
    requires Tail(tail) && r.state.InProgress?
    requires |r.buffer + Join(Payloads(tail))| <= max
    ensures var whole := r.buffer + Join(Payloads(tail));
            var done := Reasm(Complete, whole, r.expected, r.fragmentCount + |tail|);
            var after := Feed(max, done, rest);
            Feed(max, r, tail + rest) == Fed(after.r, [whole] + after.messages, after.error)
    decreases |tail|
  {
    PayloadsStep(tail);
    var whole := r.buffer + Join(Payloads(tail));
    assert whole == (r.buffer + tail[0].tlsData) + Join(Payloads(tail[1..]));
    assert (tail + rest)[1..] == tail[1..] + rest;
    if |tail| == 1 {
      assert whole == r.buffer + tail[0].tlsData;
      assert tail[1..] + rest == rest;
    } else {
      TailCompletes(max, Ingest(max, r, tail[0]).0, tail[1..], rest);
    }
  }

  /** A whole message from a reassembler that is not in the middle of one. */
  lemma TrainCompletes(max: nat, r: Reasm, train: seq<EapTlsPacket>, rest: seq<EapTlsPacket>)
    requires Train(max, train) && !r.state.InProgress?
    ensures var message := Join(Payloads(train));
            var expected := if train[0].lengthIncluded then train[0].tlsMessageLength else None;
            var done := Reasm(Complete, message, expected, |train|);
            var after := Feed(max, done, rest);
            Feed(max, r, train + rest) == Fed(after.r, [message] + after.messages, after.error)
  {
    var expected := if train[0].lengthIncluded then train[0].tlsMessageLength else None;
    // An empty reassembler already in progress takes the first packet in the same way.
    var begun := Reasm(InProgress, [], expected, 0);
    assert [] + Join(Payloads(train)) == Join(Payloads(train));
    TailCompletes(max, begun, train, rest);
    PayloadsStep(train);
    assert (train + rest)[0] == train[0];
    assert Ingest(max, r, train[0]) == Ingest(max, begun, train[0]);
  }

  function Flatten(trains: seq<seq<EapTlsPacket>>): seq<EapTlsPacket> {
    if trains == [] then [] else trains[0] + Flatten(trains[1..])
  }

  function MessagesOf(trains: seq<seq<EapTlsPacket>>): seq<Bytes> {
    seq(|trains|, i requires 0 <= i < |trains| => Join(Payloads(trains[i])))
  }

  /**
   For any series of messages, however each is cut and wherever ACK packets are mixed in,
   the reassembler hands out exactly those messages in order, and at the end its fragment
   count is the number of data packets of the last message.
   */
  lemma StreamIsReassembled(max: nat, r: Reasm, stream: seq<EapTlsPacket>, trains: seq<seq<EapTlsPacket>>)
    requires !r.state.InProgress?
    requires forall t :: t in trains ==> Train(max, t)
    requires StripAcks(stream) == Flatten(trains)
    ensures Feed(max, r, stream).messages == MessagesOf(trains)
    ensures Feed(max, r, stream).error.None?
    ensures trains != [] ==> Feed(max, r, stream).r.fragmentCount == |trains[|trains| - 1]|
  {
    AcksAreInvisible(max, r, stream);
    TrainsAreReassembled(max, r, trains);
  }

  lemma {:induction false} TrainsAreReassembled(max: nat, r: Reasm, trains: seq<seq<EapTlsPacket>>)
    requires !r.state.InProgress?
    requires forall t :: t in trains ==> Train(max, t)
    ensures Feed(max, r, Flatten(trains)).messages == MessagesOf(trains)
    ensures Feed(max, r, Flatten(trains)).error.None?
    ensures trains != [] ==> Feed(max, r, Flatten(trains)).r.fragmentCount == |trains[|trains| - 1]|
    decreases |trains|
  {
    if trains != [] {
      var train := trains[0];
      TrainCompletes(max, r, train, Flatten(trains[1..]));
      var expected := if train[0].lengthIncluded then train[0].tlsMessageLength else None;
      var done := Reasm(Complete, Join(Payloads(train)), expected, |train|);
      TrainsAreReassembled(max, done, trains[1..]);
      assert MessagesOf(trains) == [MessagesOf(trains)[0]] + MessagesOf(trains[1..]);
      if |trains| == 1 {
        assert Flatten(trains[1..]) == [];
      } else {
        assert trains[1..][|trains| - 2] == trains[|trains| - 1];
      }
    }
  }

  // ---- Through the wire ---------------------------------------------------

  /**
   The packets both senders of the proxy print for one message: L with the total on the
   first, M on all but the last. Identifiers are free.
   */
  function Sent(code: byte, ids: nat -> byte, message: Bytes, size: nat): seq<Bytes>
    requires 1 <= size <= 65000 && |message| < U32_LIMIT
  {
    var chunks := Chunks(message, size);
    ChunksCutExactly(message, size);
    seq(|chunks|, i requires 0 <= i < |chunks| =>
      Encode(code, ids(i), chunks[i], i < |chunks| - 1, if i == 0 then Some(|message|) else None, false))
  }

  function ParseAll(packets: seq<Bytes>): seq<EapTlsPacket>
    requires forall p :: p in packets ==> Parse(p).Ok?
  {
    seq(|packets|, i requires 0 <= i < |packets| => assert packets[i] in packets; Parse(packets[i]).value)
  }

  /**
   Fragment, build, parse and ingest give the message back once, at the last packet, for
   every message and every configurable fragment size; no data packet is taken for an
   ACK on the way, not even that of the empty message.
   */
  lemma MessageSurvivesTheWire(code: byte, ids: nat -> byte, message: Bytes, size: nat, max: nat, r: Reasm)
    requires 1 <= size <= 65000 && |message| <= max < U32_LIMIT && !r.state.InProgress?
    ensures var wire := Sent(code, ids, message, size);
            && |wire| == ChunkCount(|message|, size)
            && (forall p :: p in wire ==> Parse(p).Ok? && !Parse(p).value.IsAck())
            && Feed(max, r, ParseAll(wire)).messages == [message]
            && Feed(max, r, ParseAll(wire)[..|wire| - 1]).messages == []
  {
    hide Parse, Sent;
    var pkts := SentTrain(code, ids, message, size, max);
    assert pkts + [] == pkts;
    TrainCompletes(max, r, pkts, []);
    NothingBeforeTheLast(max, r, pkts);
  }

  lemma SentTrain(code: byte, ids: nat -> byte, message: Bytes, size: nat, max: nat)
    returns (pkts: seq<EapTlsPacket>)
    requires 1 <= size <= 65000 && |message| <= max < U32_LIMIT
    ensures var wire := Sent(code, ids, message, size);
            && |wire| == ChunkCount(|message|, size)
            && (forall p :: p in wire ==> Parse(p).Ok? && !Parse(p).value.IsAck())
            && pkts == ParseAll(wire)
            && Train(max, pkts) && Join(Payloads(pkts)) == message
  {
    hide Encode, Parse, Chunks;
    var wire := Sent(code, ids, message, size);
    SentParses(code, ids, message, size);
    forall p | p in wire ensures Parse(p).Ok? && !Parse(p).value.IsAck() {
      var i :| 0 <= i < |wire| && wire[i] == p;
    }
    pkts := ParseAll(wire);
    assert Payloads(pkts) == Chunks(message, size);
    ChunksCutExactly(message, size);
  }

  lemma SentParses(code: byte, ids: nat -> byte, message: Bytes, size: nat)
    requires 1 <= size <= 65000 && |message| < U32_LIMIT
    ensures var wire, chunks := Sent(code, ids, message, size), Chunks(message, size);
            && |wire| == |chunks|
            && forall i :: 0 <= i < |wire| ==>
                && Parse(wire[i]) == Ok(BuiltPacket(code, ids(i), chunks[i], i < |chunks| - 1,
                                               if i == 0 then Some(|message|) else None, false))
                && !Parse(wire[i]).value.IsAck()
  {
    hide Encode, Parse;
    var wire, chunks := Sent(code, ids, message, size), Chunks(message, size);
    ChunksCutExactly(message, size);
    forall i | 0 <= i < |wire|
      ensures Parse(wire[i]) == Ok(BuiltPacket(code, ids(i), chunks[i], i < |chunks| - 1,
                                          if i == 0 then Some(|message|) else None, false))
      ensures !Parse(wire[i]).value.IsAck()
    {
      assert chunks[i] in chunks;
      ParseBuilt(code, ids(i), chunks[i], i < |chunks| - 1, if i == 0 then Some(|message|) else None, false);
    }
  }

  lemma {:induction false} NothingBeforeTheLast(max: nat, r: Reasm, pkts: seq<EapTlsPacket>)
    requires Tail(pkts)
    ensures Feed(max, r, pkts[..|pkts| - 1]).messages == []
    decreases |pkts|
  {
    if |pkts| > 1 {
      var front := pkts[..|pkts| - 1];
      NothingBeforeTheLast(max, Ingest(max, r, pkts[0]).0, pkts[1..]);
      assert front[1..] == pkts[1..][..|pkts| - 2];
    }
  }
}
