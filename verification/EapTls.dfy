/**
 EAP-TLS framing (proxy/eap_tls.py): the packet parser and printer of section 3.1 of
 RFC 5216 and the fragmenter. The TLS payload is opaque octets throughout.
 */
module EapTls {
  import opened Prelude
  import opened Octets

  const REQUEST: byte := 1
  const RESPONSE: byte := 2
  const SUCCESS: byte := 3
  const FAILURE: byte := 4
  const EAP_TYPE_TLS: byte := 13

  /** Every exception the modelled code can raise. */
  datatype EapError =
    | TooShort
    | NotEapTls
    | LengthExceedsBuffer
    | FlagsMissing              // IndexError on packet[5]
    | MessageLengthTruncated
    | DeclaredLengthExceedsMax
    | BufferExceedsMax
    | FragmentSizeNotPositive
    | NumberTooLarge            // OverflowError from int.to_bytes
    | UpstreamTimeout

  datatype EapTlsPacket = EapTlsPacket(
    code: byte,
    identifier: byte,
    lengthIncluded: bool,
    moreFragments: bool,
    start: bool,
    tlsMessageLength: Option<nat>,
    tlsData: Bytes)
  {
    /** A fragment ACK: no flag and no data. */
    predicate IsAck() {
      !lengthIncluded && !moreFragments && !start && tlsData == []
    }
  }

  predicate FlagL(flags: byte) { flags / 0x80 == 1 }
  predicate FlagM(flags: byte) { flags / 0x40 % 2 == 1 }
  predicate FlagS(flags: byte) { flags / 0x20 % 2 == 1 }

  function Flags(l: bool, m: bool, s: bool): (flags: byte)
    ensures FlagL(flags) == l && FlagM(flags) == m && FlagS(flags) == s
    ensures flags % 0x20 == 0
  {
    (if l then 0x80 else 0) + (if m then 0x40 else 0) + (if s then 0x20 else 0)
  }

  function DeclaredLength(packet: Bytes): nat
    requires |packet| >= 4
  {
    FromU16(packet[2..4])
  }

  /** Decodes raw EAP octets. The checks are the source's, in the source's order. */
  function Parse(packet: Bytes): (r: Result<EapTlsPacket, EapError>)
    ensures r.Ok? <==>
              && |packet| >= 6 && packet[4] == EAP_TYPE_TLS
              && DeclaredLength(packet) <= |packet|
              && (FlagL(packet[5]) ==> |packet| >= 10)
    ensures r.Ok? ==> r.value.lengthIncluded == r.value.tlsMessageLength.Some?
  {
    if |packet| < 5 then Err(TooShort)
    else
      var declared := DeclaredLength(packet);
      if packet[4] != EAP_TYPE_TLS then Err(NotEapTls)
      else if declared > |packet| then Err(LengthExceedsBuffer)
      else if |packet| < 6 then Err(FlagsMissing)
      else
        var flags := packet[5];
        if FlagL(flags) && |packet| < 10 then Err(MessageLengthTruncated)
        else
          var offset := if FlagL(flags) then 10 else 6;
          Ok(EapTlsPacket(
               packet[0], packet[1], FlagL(flags), FlagM(flags), FlagS(flags),
               if FlagL(flags) then Some(FromU32(packet[6..10])) else None,
               if declared != 0 then Slice(packet, offset, declared) else packet[offset..]))
  }

  /** Can the source print this packet, or does `to_bytes` raise OverflowError? */
  predicate Fits(data: Bytes, tlsMessageLength: Option<nat>) {
    match tlsMessageLength
    case None => |data| + 6 < U16_LIMIT
    case Some(n) => |data| + 10 < U16_LIMIT && n < U32_LIMIT
  }

  function Encode(code: byte, identifier: byte, data: Bytes,
                  more: bool, tlsMessageLength: Option<nat>, start: bool): (packet: Bytes)
    requires Fits(data, tlsMessageLength)
    ensures |packet| >= 6 && packet[0] == code && packet[1] == identifier && packet[4] == EAP_TYPE_TLS
  {
    var lengthField := if tlsMessageLength.Some? then U32(tlsMessageLength.value) else [];
    var body := [EAP_TYPE_TLS, Flags(tlsMessageLength.Some?, more, start)] + lengthField + data;
    [code, identifier] + U16(4 + |body|) + body
  }

  function Build(code: byte, identifier: byte, data: Bytes,
                 more: bool, tlsMessageLength: Option<nat>, start: bool): (r: Result<Bytes, EapError>)
    ensures r.Ok? <==> Fits(data, tlsMessageLength)
  {
    if Fits(data, tlsMessageLength) then Ok(Encode(code, identifier, data, more, tlsMessageLength, start))
    else Err(NumberTooLarge)
  }

  function BuildAck(code: byte, identifier: byte): Bytes {
    Encode(code, identifier, [], false, None, false)
  }

  /** The packet that Encode puts on the wire. */
  function BuiltPacket(code: byte, identifier: byte, data: Bytes,
                  more: bool, tlsMessageLength: Option<nat>, start: bool): EapTlsPacket
  {
    EapTlsPacket(code, identifier, tlsMessageLength.Some?, more, start, tlsMessageLength, data)
  }

  /** The number that octets stand for, the first of them counting most. */
  function Number(octets: Bytes): nat {
    if octets == [] then 0 else Number(octets[..|octets| - 1]) * 0x100 + octets[|octets| - 1]
  }

  lemma NumberOfTwo(octets: Bytes)
    requires |octets| == 2
    ensures Number(octets) == FromU16(octets)
  {
    assert Number(octets[..1]) == Number([]) * 0x100 + octets[0] by { assert octets[..1][..0] == []; }
  }

  lemma NumberOfFour(octets: Bytes)
    requires |octets| == 4
    ensures Number(octets) == FromU32(octets)
  {
    NumberOfTwo(octets[..2]);
    assert octets[..3][..2] == octets[..2];
    assert Number(octets) == (Number(octets[..2]) * 0x100 + octets[2]) * 0x100 + octets[3];
  }

  lemma NumberOfU16(n: nat)
    requires n < U16_LIMIT
    ensures Number(U16(n)) == n
  {
    NumberOfTwo(U16(n));
  }

  lemma NumberOfU32(n: nat)
    requires n < U32_LIMIT
    ensures Number(U32(n)) == n
  {
    NumberOfFour(U32(n));
  }

  lemma FlagsAre(l: bool, m: bool, s: bool)
    ensures Flags(l, m, s) == (if l then 0x80 else 0) + (if m then 0x40 else 0) + (if s then 0x20 else 0)
  {
  }

  /**
   Any packet at all, octet by octet: whether it is accepted and what each field is, the data running from
   behind the flags, or behind the TLS Message Length, to the end of the Length; and if not, why. It is a fragment
   ACK if and only if it has none of L, M and S and no data, whatever the reserved bits.
   */
  lemma ParseReads(packet: Bytes)
    ensures var n := |packet|;
            if n < 5 then Parse(packet) == Err(TooShort)
            else if packet[4] != 13 then Parse(packet) == Err(NotEapTls)
            else if Number(packet[2..4]) > n then Parse(packet) == Err(LengthExceedsBuffer)
            else if n == 5 then Parse(packet) == Err(FlagsMissing)
            else if packet[5] >= 0x80 && n < 10 then Parse(packet) == Err(MessageLengthTruncated)
            else
              && Parse(packet).Ok?
              && var p := Parse(packet).value;
              && p.code == packet[0] && p.identifier == packet[1]
              && (p.lengthIncluded <==> packet[5] >= 0x80)
              && (p.moreFragments <==> packet[5] % 0x80 >= 0x40)
              && (p.start <==> packet[5] % 0x40 >= 0x20)
              && p.tlsMessageLength == (if p.lengthIncluded then Some(Number(packet[6..10])) else None)
              && var from := if p.lengthIncluded then 10 else 6;
              && var end := if Number(packet[2..4]) == 0 then n else Number(packet[2..4]);
              && |p.tlsData| == (if end <= from then 0 else end - from)
              && (forall i :: 0 <= i < |p.tlsData| ==> p.tlsData[i] == packet[from + i])
              && (p.IsAck() <==> packet[5] < 0x20 && |p.tlsData| == 0)
  {
    if |packet| >= 4 {
      NumberOfTwo(packet[2..4]);
    }
    if |packet| >= 10 {
      NumberOfFour(packet[6..10]);
    }
  }

  lemma EncodeLayout(code: byte, identifier: byte, data: Bytes,
                     more: bool, tlsMessageLength: Option<nat>, start: bool)
    requires Fits(data, tlsMessageLength)
    ensures var p := Encode(code, identifier, data, more, tlsMessageLength, start);
            var offset := if tlsMessageLength.Some? then 10 else 6;
            && |p| == offset + |data|
            && p[0] == code && p[1] == identifier && Number(p[2..4]) == |p| && p[4] == 13
            && p[5] == (if tlsMessageLength.Some? then 0x80 else 0) + (if more then 0x40 else 0)
                       + (if start then 0x20 else 0)
            && (tlsMessageLength.Some? ==> Number(p[6..10]) == tlsMessageLength.value)
            && p[offset..] == data
            && DeclaredLength(p) == |p|
            && p[5] == Flags(tlsMessageLength.Some?, more, start)
            && (tlsMessageLength.Some? ==> p[6..10] == U32(tlsMessageLength.value))
  {
    hide Flags, U32, U16;
    var p := Encode(code, identifier, data, more, tlsMessageLength, start);
    assert p[2..4] == U16(|p|);
    NumberOfU16(|p|);
    FlagsAre(tlsMessageLength.Some?, more, start);
    if tlsMessageLength.Some? {
      NumberOfU32(tlsMessageLength.value);
    }
    if tlsMessageLength.Some? {
      assert p[6..10] == U32(tlsMessageLength.value);
      assert p[10..] == data;
    } else {
      assert p[6..] == data;
    }
  }

  /** Parsing what was built gives the fields back, whatever link-layer padding follows. */
  lemma ParseOfBuild(code: byte, identifier: byte, data: Bytes,
                     more: bool, tlsMessageLength: Option<nat>, start: bool, padding: Bytes)
    requires Fits(data, tlsMessageLength)
    ensures Parse(Encode(code, identifier, data, more, tlsMessageLength, start) + padding)
         == Ok(BuiltPacket(code, identifier, data, more, tlsMessageLength, start))
  {
    EncodeLayout(code, identifier, data, more, tlsMessageLength, start);
    var p := Encode(code, identifier, data, more, tlsMessageLength, start);
    var q := p + padding;
    var offset := if tlsMessageLength.Some? then 10 else 6;
    assert q[2..4] == p[2..4];
    assert tlsMessageLength.Some? ==> q[6..10] == p[6..10];
    assert q[offset..|p|] == p[offset..];
  }

  /** The unpadded case, as every call site in the proxy uses it. */
  lemma ParseBuilt(code: byte, identifier: byte, data: Bytes,
                   more: bool, tlsMessageLength: Option<nat>, start: bool)
    requires Fits(data, tlsMessageLength)
    ensures Parse(Encode(code, identifier, data, more, tlsMessageLength, start))
         == Ok(BuiltPacket(code, identifier, data, more, tlsMessageLength, start))
  {
    ParseOfBuild(code, identifier, data, more, tlsMessageLength, start, []);
    var p := Encode(code, identifier, data, more, tlsMessageLength, start);
    assert p + [] == p;
  }

  /** A packet with exact Length, zero reserved bits and an accepted layout. */
  predicate Canonical(packet: Bytes) {
    && Parse(packet).Ok?
    && DeclaredLength(packet) == |packet|
    && packet[5] % 0x20 == 0
  }

  /** Building from the parsed fields of a canonical packet gives the same octets back. */
  lemma BuildOfParse(packet: Bytes)
    requires Canonical(packet)
    ensures var p := Parse(packet).value;
            Build(p.code, p.identifier, p.tlsData, p.moreFragments, p.tlsMessageLength, p.start) == Ok(packet)
  {
    hide U16, U32;
    var p := Parse(packet).value;
    var flags := packet[5];
    assert Flags(FlagL(flags), FlagM(flags), FlagS(flags)) == flags;
    U16OfFromU16(packet[2..4]);
    var offset := if p.lengthIncluded then 10 else 6;
    assert p.tlsData == packet[offset..];
    if p.lengthIncluded {
      U32OfFromU32(packet[6..10]);
    }
    assert packet[..2] == [p.code, p.identifier] && packet[4..6] == [EAP_TYPE_TLS, flags];
    assert Fits(p.tlsData, p.tlsMessageLength);
    var lengthField := if p.lengthIncluded then U32(p.tlsMessageLength.value) else [];
    assert 4 + |[EAP_TYPE_TLS, flags] + lengthField + p.tlsData| == |packet|;
    assert Encode(p.code, p.identifier, p.tlsData, p.moreFragments, p.tlsMessageLength, p.start)
        == packet[..2] + packet[2..4] + (packet[4..6] + lengthField + p.tlsData);
    assert lengthField == packet[6..offset];
    assert packet == packet[..2] + packet[2..4] + (packet[4..6] + packet[6..offset] + packet[offset..]);
  }

  function Fragment(message: Bytes, fragmentSize: int): (r: Result<seq<Bytes>, EapError>)
    ensures r.Err? <==> fragmentSize <= 0
    ensures r.Ok? ==> r.value != []
  {
    if fragmentSize <= 0 then Err(FragmentSizeNotPositive) else Ok(Chunks(message, fragmentSize))
  }

  /**
   What building promises: a packet whose Length is its own and which parses to the fields given, whatever
   padding follows; or an exception, for a packet above 65535 octets or a total above 4 octets.
   */
  lemma BuildRoundTrip(code: byte, identifier: byte, data: Bytes,
                       more: bool, tlsMessageLength: Option<nat>, start: bool, padding: Bytes)
    ensures var octets := |data| + if tlsMessageLength.Some? then 10 else 6;
            match Build(code, identifier, data, more, tlsMessageLength, start)
            case Ok(packet) =>
              && |packet| == DeclaredLength(packet) == octets
              && Parse(packet + padding) == Ok(BuiltPacket(code, identifier, data, more, tlsMessageLength, start))
            case Err(e) =>
              && e == NumberTooLarge
              && (octets > 0xFFFF || (tlsMessageLength.Some? && tlsMessageLength.value > 0xFFFF_FFFF))
  {
    hide Parse, Encode;
    if Fits(data, tlsMessageLength) {
      EncodeLayout(code, identifier, data, more, tlsMessageLength, start);
      ParseOfBuild(code, identifier, data, more, tlsMessageLength, start, padding);
    }
  }

  /** What fragmenting promises: the message in order, in full chunks but the last, as few as can be; or an exception. */
  lemma FragmentCuts(message: Bytes, fragmentSize: int)
    ensures match Fragment(message, fragmentSize)
            case Err(e) => fragmentSize <= 0 && e == FragmentSizeNotPositive
            case Ok(chunks) =>
              && fragmentSize >= 1 && Join(chunks) == message
              && (forall i :: 0 <= i < |chunks| - 1 ==> |chunks[i]| == fragmentSize)
              && (forall c :: c in chunks ==> |c| <= fragmentSize && (message != [] ==> c != []))
              && if message == [] then chunks == [[]]
                 else (|chunks| - 1) * fragmentSize < |message| <= |chunks| * fragmentSize
  {
    if fragmentSize >= 1 {
      ChunksCutExactly(message, fragmentSize);
      ChunkCountIsCeiling(|message|, fragmentSize);
    }
  }
}
