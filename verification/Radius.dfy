/**
 RADIUS attribute handling of proxy/upstream_radius.py: the attribute decode loop, and
 the EAP-Message split and concatenation of section 3.1 of RFC 3579. The encoder belongs
 to pyrad and is written here as a specification (section 5 of RFC 2865).
 */
module Radius {
  import opened Prelude
  import opened Octets

  const EAP_MESSAGE: byte := 79
  const STATE: byte := 24
  const MESSAGE_AUTHENTICATOR: byte := 80
  const VENDOR_SPECIFIC: byte := 26
  const ACCESS_ACCEPT: byte := 2
  const ACCESS_REJECT: byte := 3
  const ACCESS_CHALLENGE: byte := 11

  /** The largest value of one attribute: 255 less the type and length octets. */
  const MAX_VALUE := 253

  datatype AttrKey = Plain(code: byte) | Vendor(vendor: nat, code: byte)

  const MPPE_SEND_KEY := Vendor(311, 16)
  const MPPE_RECV_KEY := Vendor(311, 17)

  /** A packet's dictionary: the values of each attribute in order of arrival. */
  type Attrs = map<AttrKey, seq<Bytes>>

  function Lookup(attrs: Attrs, key: AttrKey): seq<Bytes> {
    if key in attrs then attrs[key] else []
  }

  /** `self.setdefault(key, []).append(value)` */
  function Append(attrs: Attrs, key: AttrKey, value: Bytes): Attrs {
    attrs[key := Lookup(attrs, key) + [value]]
  }

  function AppendAll(attrs: Attrs, entries: seq<(AttrKey, Bytes)>): Attrs
    decreases |entries|
  {
    if entries == [] then attrs else AppendAll(Append(attrs, entries[0].0, entries[0].1), entries[1..])
  }

  /** One attribute as it stands on the wire. */
  datatype Tlv = Tlv(kind: byte, value: Bytes)

  datatype DecodeError = HeaderCorrupt | InvalidLength | AttributeHeaderCorrupt | AttributeTooSmall

  /** The attributes read before the end of the input or the first error. */
  datatype Scan = Scan(list: seq<Tlv>, error: Option<DecodeError>)

  /** Python's `raw[n:]` */
  function Drop(raw: Bytes, n: nat): Bytes {
    if n <= |raw| then raw[n..] else []
  }

  function ScanTlvs(raw: Bytes): Scan
    decreases |raw|
  {
    if raw == [] then Scan([], None)
    else if |raw| < 2 then Scan([], Some(AttributeHeaderCorrupt))
    else if raw[1] < 2 then Scan([], Some(AttributeTooSmall))
    else
      var rest := ScanTlvs(Drop(raw, raw[1]));
      Scan([Tlv(raw[0], Slice(raw, 2, raw[1]))] + rest.list, rest.error)
  }

  /** pyrad's own decoders of vendor-specific and nested attributes, and its verdict on what is nested. */
  datatype Library = Library(
    vendor: Bytes -> seq<(AttrKey, Bytes)>,
    isNested: byte -> bool,
    nested: (Attrs, byte, Bytes) -> Attrs)

  /** No attribute that holds others, vendor-specific ones aside. */
  predicate NoneNested(lib: Library, list: seq<Tlv>) {
    forall t :: t in list ==> t.kind == 26 || t.kind == 80 || !lib.isNested(t.kind)
  }

  /** The dictionary after one attribute. */
  function Taken(lib: Library, attrs: Attrs, t: Tlv): Attrs {
    if t.kind == VENDOR_SPECIFIC then AppendAll(attrs, lib.vendor(t.value))
    else if t.kind != MESSAGE_AUTHENTICATOR && lib.isNested(t.kind) then lib.nested(attrs, t.kind, t.value)
    else Append(attrs, Plain(t.kind), t.value)
  }

  function Collect(lib: Library, attrs: Attrs, list: seq<Tlv>): Attrs
    decreases |list|
  {
    if list == [] then attrs
    else
      Collect(lib, Taken(lib, attrs, list[0]), list[1..])
  }

  /** The decoded packet object. */
  class RadiusPacket {
    var code: byte
    var id: byte
    var authenticator: Bytes
    var attrs: Attrs
    var messageAuthenticator: bool

    constructor ()
      ensures attrs == map[] && !messageAuthenticator
    {
      code, id, authenticator, attrs, messageAuthenticator := 0, 0, [], map[], false;
    }

    /**
     Reads a raw packet into this object. An attribute whose length octet runs past the end
     is taken short without complaint; the loop ends on every input.
     */
    method Decode(raw: Bytes, lib: Library) returns (error: Option<DecodeError>)
      modifies this
      ensures |raw| < 20 ==> error == Some(HeaderCorrupt) && attrs == old(attrs)
      ensures |raw| >= 20 && |raw| != (raw[2] as int) * 0x100 + raw[3] ==>
                error == Some(InvalidLength) && attrs == old(attrs)
      ensures |raw| >= 20 && |raw| == (raw[2] as int) * 0x100 + raw[3] ==>
                && error == ScanTlvs(raw[20..]).error
                && attrs == Collect(lib, map[], ScanTlvs(raw[20..]).list)
                && (messageAuthenticator <==>
                      old(messageAuthenticator) || HasKind(ScanTlvs(raw[20..]).list, MESSAGE_AUTHENTICATOR))
      ensures |raw| >= 20 ==> code == raw[0] && id == raw[1] && authenticator == raw[4..20]
    {
      if |raw| < 20 {
        return Some(HeaderCorrupt);
      }
      code, id, authenticator := raw[0], raw[1], raw[4..20];
      if |raw| != FromU16(raw[2..4]) {
        return Some(InvalidLength);
      }
      attrs, error := map[], None;
      var body := raw[20..];
      ghost var scan := ScanTlvs(body);
      while body != []
        invariant error.None?
        invariant ScanTlvs(body).error == scan.error
        invariant Collect(lib, attrs, ScanTlvs(body).list) == Collect(lib, map[], scan.list)
        invariant (messageAuthenticator || HasKind(ScanTlvs(body).list, MESSAGE_AUTHENTICATOR))
             <==> (old(messageAuthenticator) || HasKind(scan.list, MESSAGE_AUTHENTICATOR))
        invariant code == raw[0] && id == raw[1] && authenticator == raw[4..20]
        decreases |body|
      {
        if |body| < 2 {
          return Some(AttributeHeaderCorrupt);
        }
        var key, attrlen := body[0], body[1];
        if attrlen < 2 {
          return Some(AttributeTooSmall);
        }
        var value := Slice(body, 2, attrlen);
        if key == VENDOR_SPECIFIC {
          attrs := AppendAll(attrs, lib.vendor(value));
        } else if key == MESSAGE_AUTHENTICATOR {
          messageAuthenticator := true;
          attrs := Append(attrs, Plain(key), value);
        } else if lib.isNested(key) {
          attrs := lib.nested(attrs, key, value);
        } else {
          attrs := Append(attrs, Plain(key), value);
        }
        assert ScanTlvs(body).list[1..] == ScanTlvs(Drop(body, attrlen)).list;
        body := Drop(body, attrlen);
      }
    }
  }

  predicate HasKind(list: seq<Tlv>, kind: byte) {
    exists t :: t in list && t.kind == kind
  }

  // ---- The encoder and its inverse ----------------------------------------

  predicate Encodable(list: seq<Tlv>) {
    forall t :: t in list ==> |t.value| <= MAX_VALUE
  }

  function EncodeTlv(t: Tlv): Bytes
    requires |t.value| <= MAX_VALUE
  {
    [t.kind, 2 + |t.value|] + t.value
  }

  function EncodeTlvs(list: seq<Tlv>): (body: Bytes)
    requires Encodable(list)
  {
    if list == [] then []
    else
      assert list[0] in list;
      EncodeTlv(list[0]) + EncodeTlvs(list[1..])
  }

  lemma ScanOfOne(t: Tlv, rest: Bytes)
    requires |t.value| <= MAX_VALUE
    ensures ScanTlvs(EncodeTlv(t) + rest) == Scan([t] + ScanTlvs(rest).list, ScanTlvs(rest).error)
  {
    var body := EncodeTlv(t) + rest;
    assert Slice(body, 2, body[1]) == t.value;
    assert Drop(body, body[1]) == rest;
  }

  lemma ScanOfEncode(list: seq<Tlv>)
    requires Encodable(list)
    ensures ScanTlvs(EncodeTlvs(list)) == Scan(list, None)
  {
    hide EncodeTlvs;
    ScanAfter(list, []);
    assert EncodeTlvs(list) + [] == EncodeTlvs(list) && list + [] == list;
  }

  lemma ScanAfterOne(list: seq<Tlv>, rest: Bytes)
    requires list != [] && Encodable(list)
    ensures Encodable(list[1..])
    ensures ScanTlvs(EncodeTlvs(list) + rest)
         == Scan([list[0]] + ScanTlvs(EncodeTlvs(list[1..]) + rest).list, ScanTlvs(EncodeTlvs(list[1..]) + rest).error)
  {
    hide EncodeTlv, ScanTlvs;
    assert list[0] in list;
    ScanOfOne(list[0], EncodeTlvs(list[1..]) + rest);
    assert EncodeTlvs(list) + rest == EncodeTlv(list[0]) + (EncodeTlvs(list[1..]) + rest);
  }

  /** Whole attributes are scanned as they are, whatever follows them. */
  lemma {:induction false} ScanAfter(list: seq<Tlv>, rest: Bytes)
    requires Encodable(list)
    ensures ScanTlvs(EncodeTlvs(list) + rest) == Scan(list + ScanTlvs(rest).list, ScanTlvs(rest).error)
    decreases |list|
  {
    hide EncodeTlv, ScanTlvs;
    if list == [] {
      assert EncodeTlvs(list) + rest == rest && list + ScanTlvs(rest).list == ScanTlvs(rest).list;
    } else {
      ScanAfterOne(list, rest);
      ScanAfter(list[1..], rest);
      assert [list[0]] + (list[1..] + ScanTlvs(rest).list) == list + ScanTlvs(rest).list;
    }
  }

  /** One whose length octet runs past the end is taken short: all that is left. */
  lemma OverrunIsTakenShort(list: seq<Tlv>, kind: byte, length: byte, rest: Bytes)
    requires Encodable(list) && length > 2 + |rest|
    ensures ScanTlvs(EncodeTlvs(list) + ([kind, length] + rest)) == Scan(list + [Tlv(kind, rest)], None)
  {
    hide EncodeTlvs;
    var raw := [kind, length] + rest;
    ScanAfter(list, raw);
    assert Slice(raw, 2, length) == rest && Drop(raw, length) == [];
  }

  /** A lone octet, or a length octet below 2, ends the scan with its error and keeps what came before. */
  lemma ScanStops(list: seq<Tlv>, kind: byte, length: byte, rest: Bytes)
    requires Encodable(list) && length < 2
    ensures ScanTlvs(EncodeTlvs(list) + [kind]) == Scan(list, Some(AttributeHeaderCorrupt))
    ensures ScanTlvs(EncodeTlvs(list) + ([kind, length] + rest)) == Scan(list, Some(AttributeTooSmall))
  {
    hide EncodeTlvs;
    ScanAfter(list, [kind]);
    ScanAfter(list, [kind, length] + rest);
    assert list + [] == list;
  }

  /** No length octet runs past the end of the input. */
  predicate Untruncated(raw: Bytes)
    decreases |raw|
  {
    |raw| < 2 || raw[1] < 2 || (raw[1] <= |raw| && Untruncated(raw[raw[1]..]))
  }

  lemma {:induction false} ScannedIsEncodable(raw: Bytes)
    ensures Encodable(ScanTlvs(raw).list)
    decreases |raw|
  {
    if |raw| >= 2 && raw[1] >= 2 {
      ScannedIsEncodable(Drop(raw, raw[1]));
    }
  }

  lemma EncodeCons(t: Tlv, list: seq<Tlv>)
    requires Encodable([t] + list)
    ensures |t.value| <= MAX_VALUE && Encodable(list)
    ensures EncodeTlvs([t] + list) == EncodeTlv(t) + EncodeTlvs(list)
  {
    assert ([t] + list)[0] == t && ([t] + list)[1..] == list;
    assert forall x :: x in list ==> x in [t] + list;
  }

  /** What was scanned is what an encoder would have written, exactly when nothing was cut short. */
  lemma {:induction false} EncodeOfScan(raw: Bytes)
    requires ScanTlvs(raw).error.None? && Encodable(ScanTlvs(raw).list)
    ensures EncodeTlvs(ScanTlvs(raw).list) == raw <==> Untruncated(raw)
    decreases |raw|
  {
    hide EncodeTlv, EncodeTlvs, Slice, Encodable;
    if raw == [] {
      EncodesNothing();
    } else {
      var rest := Drop(raw, raw[1]);
      ScannedIsEncodable(rest);
      EncodeOfScan(rest);
      var t := Tlv(raw[0], Slice(raw, 2, raw[1]));
      EncodeCons(t, ScanTlvs(rest).list);
      SameHead(raw, t, EncodeTlvs(ScanTlvs(rest).list));
    }
  }

  lemma EncodesNothing()
    ensures Encodable([]) && EncodeTlvs([]) == []
  {
  }

  lemma SameHead(raw: Bytes, t: Tlv, tail: Bytes)
    requires |raw| >= 2 && raw[1] >= 2 && t == Tlv(raw[0], Slice(raw, 2, raw[1])) && |t.value| <= MAX_VALUE
    ensures EncodeTlv(t) + tail == raw <==> raw[1] <= |raw| && tail == raw[raw[1]..]
  {
    var encoded := EncodeTlv(t) + tail;
    if raw[1] <= |raw| {
      assert raw == [raw[0], raw[1]] + raw[2..raw[1]] + raw[raw[1]..];
      assert encoded[raw[1]..] == tail;
    } else {
      assert encoded[1] != raw[1];
    }
  }

  /** The values under one key among decoded pairs, in order. */
  function Under(entries: seq<(AttrKey, Bytes)>, key: AttrKey): seq<Bytes> {
    if entries == [] then []
    else (if entries[0].0 == key then [entries[0].1] else []) + Under(entries[1..], key)
  }

  /** What an attribute carries under a key: its value if it is plain, or what it holds as a vendor's. */
  function ValuesIn(lib: Library, t: Tlv, key: AttrKey): seq<Bytes> {
    if t.kind == 26 then Under(lib.vendor(t.value), key)
    else if key == Plain(t.kind) then [t.value] else []
  }

  /** What a list of them carries, in order. */
  function ValuesOf(lib: Library, list: seq<Tlv>, key: AttrKey): seq<Bytes> {
    if list == [] then [] else ValuesIn(lib, list[0], key) + ValuesOf(lib, list[1..], key)
  }

  lemma {:induction false} ValuesOfAppend(lib: Library, a: seq<Tlv>, b: seq<Tlv>, key: AttrKey)
    ensures ValuesOf(lib, a + b, key) == ValuesOf(lib, a, key) + ValuesOf(lib, b, key)
  {
    hide ValuesIn;
    if a == [] {
      assert a + b == b;
    } else {
      ValuesOfAppend(lib, a[1..], b, key);
      assert (a + b)[1..] == a[1..] + b;
      var head := ValuesIn(lib, a[0], key);
      assert head + (ValuesOf(lib, a[1..], key) + ValuesOf(lib, b, key))
          == (head + ValuesOf(lib, a[1..], key)) + ValuesOf(lib, b, key);
    }
  }

  lemma AppendAppends(attrs: Attrs, key: AttrKey, value: Bytes, other: AttrKey)
    ensures Lookup(Append(attrs, key, value), other)
         == Lookup(attrs, other) + if key == other then [value] else []
  {
  }

  lemma {:induction false} AllAppend(attrs: Attrs, entries: seq<(AttrKey, Bytes)>, key: AttrKey)
    ensures Lookup(AppendAll(attrs, entries), key) == Lookup(attrs, key) + Under(entries, key)
    decreases |entries|
  {
    hide Append, Lookup;
    if entries != [] {
      AppendAppends(attrs, entries[0].0, entries[0].1, key);
      AllAppend(Append(attrs, entries[0].0, entries[0].1), entries[1..], key);
      var head := if entries[0].0 == key then [entries[0].1] else [];
      assert Lookup(attrs, key) + head + Under(entries[1..], key)
          == Lookup(attrs, key) + (head + Under(entries[1..], key));
    } else {
      assert Lookup(attrs, key) + [] == Lookup(attrs, key);
    }
  }

  lemma TakenAdds(lib: Library, attrs: Attrs, t: Tlv, key: AttrKey)
    requires t.kind == 26 || t.kind == 80 || !lib.isNested(t.kind)
    ensures Lookup(Taken(lib, attrs, t), key) == Lookup(attrs, key) + ValuesIn(lib, t, key)
  {
    hide Append, AppendAll, Lookup, Under;
    AllAppend(attrs, lib.vendor(t.value), key);
    AppendAppends(attrs, Plain(t.kind), t.value, key);
  }

  /** The dictionary keeps under each key, vendor keys included, its values in the order sent. */
  lemma {:induction false} CollectKeepsOrder(lib: Library, attrs: Attrs, list: seq<Tlv>, key: AttrKey)
    requires NoneNested(lib, list)
    ensures Lookup(Collect(lib, attrs, list), key) == Lookup(attrs, key) + ValuesOf(lib, list, key)
    decreases |list|
  {
    hide Taken, Lookup, ValuesIn;
    if list != [] {
      assert list[0] in list;
      TakenAdds(lib, attrs, list[0], key);
      CollectKeepsOrder(lib, Taken(lib, attrs, list[0]), list[1..], key);
      var head, rest := ValuesIn(lib, list[0], key), ValuesOf(lib, list[1..], key);
      assert (Lookup(attrs, key) + head) + rest == Lookup(attrs, key) + (head + rest);
    } else {
      assert Lookup(attrs, key) + [] == Lookup(attrs, key);
    }
  }

  /** A nested attribute among others is given to the library with the dictionary as it then stands. */
  lemma {:induction false} CollectGoesOn(lib: Library, attrs: Attrs, before: seq<Tlv>, t: Tlv, after: seq<Tlv>)
    requires t.kind != 26 && t.kind != 80 && lib.isNested(t.kind)
    ensures Collect(lib, attrs, before + [t] + after)
         == Collect(lib, lib.nested(Collect(lib, attrs, before), t.kind, t.value), after)
    decreases |before|
  {
    var list := before + [t] + after;
    if before == [] {
      assert list[1..] == after;
    } else {
      assert list[1..] == before[1..] + [t] + after;
      assert list[0] == before[0];
      CollectGoesOn(lib, Taken(lib, attrs, before[0]), before[1..], t, after);
    }
  }

  // ---- EAP-Message --------------------------------------------------------

  function SplitEap(eap: Bytes): seq<Bytes> {
    Chunks(eap, MAX_VALUE)
  }

  /** A packet is split into attributes of 253 octets and a last one, empty only for an empty packet. */
  lemma SplitIsExact(eap: Bytes)
    ensures var values := SplitEap(eap);
            && values != [] && Join(values) == eap
            && (forall i :: 0 <= i < |values| - 1 ==> |values[i]| == 253)
            && |values[|values| - 1]| <= 253 && (eap != [] ==> values[|values| - 1] != [])
            && (eap == [] ==> values == [[]])
  {
    ChunksCutExactly(eap, MAX_VALUE);
    var values := SplitEap(eap);
    assert values[|values| - 1] in values;
  }

  /** `_concat_eap_messages`: a list of at most one packet, here an Option. */
  function ConcatEap(attrs: Attrs): (eap: Option<Bytes>)
    ensures eap.Some? ==> eap.value != []
  {
    var joined := Join(Lookup(attrs, Plain(EAP_MESSAGE)));
    if joined == [] then None else Some(joined)
  }

  lemma LoneValue(attrs: Attrs, eap: Bytes)
    requires attrs == map[Plain(EAP_MESSAGE) := [eap]] && eap != []
    ensures ConcatEap(attrs) == Some(eap)
  {
    assert Lookup(attrs, Plain(EAP_MESSAGE)) == [eap];
    assert Join([eap]) == eap + Join([]) == eap;
  }

  function EapTlvs(values: seq<Bytes>): seq<Tlv> {
    seq(|values|, i requires 0 <= i < |values| => Tlv(EAP_MESSAGE, values[i]))
  }

  lemma {:induction false} EapTlvsFacts(lib: Library, values: seq<Bytes>, key: AttrKey)
    ensures ValuesOf(lib, EapTlvs(values), key) == if key == Plain(79) then values else []
  {
    if values != [] {
      EapTlvsFacts(lib, values[1..], key);
      assert EapTlvs(values)[1..] == EapTlvs(values[1..]);
    }
  }

  /**
   Splitting, encoding among any other attributes, vendor-specific ones included, decoding and concatenating
   gives the EAP packet back, and every other key keeps its values in order.
   */
  lemma EapRoundTrip(lib: Library, before: seq<Tlv>, eap: Bytes, after: seq<Tlv>)
    requires Encodable(before) && Encodable(after)
    requires NoneNested(lib, before) && NoneNested(lib, after) && !lib.isNested(79)
    requires ValuesOf(lib, before, Plain(79)) == ValuesOf(lib, after, Plain(79)) == []
    ensures Encodable(WithEap(before, eap, after))
    ensures Decoded(lib, EncodeTlvs(WithEap(before, eap, after))).Ok?
    ensures var attrs := Decoded(lib, EncodeTlvs(WithEap(before, eap, after))).value;
            && ConcatEap(attrs) == (if eap == [] then None else Some(eap))
            && forall key :: key != Plain(79) ==>
                 Lookup(attrs, key) == ValuesOf(lib, before, key) + ValuesOf(lib, after, key)
  {
    var list := WithEap(before, eap, after);
    WithEapFacts(lib, before, eap, after);
    ScanOfEncode(list);
    CollectedWithEap(lib, before, eap, after);
  }

  lemma CollectedWithEap(lib: Library, before: seq<Tlv>, eap: Bytes, after: seq<Tlv>)
    requires ValuesOf(lib, before, Plain(79)) == ValuesOf(lib, after, Plain(79)) == []
    requires NoneNested(lib, WithEap(before, eap, after))
    ensures var attrs := Collect(lib, map[], WithEap(before, eap, after));
            && ConcatEap(attrs) == (if eap == [] then None else Some(eap))
            && forall key :: key != Plain(79) ==>
                 Lookup(attrs, key) == ValuesOf(lib, before, key) + ValuesOf(lib, after, key)
  {
    hide Collect, ValuesOf, Chunks;
    var attrs := Collect(lib, map[], WithEap(before, eap, after));
    EapAmongOthers(lib, before, SplitEap(eap), after, Plain(79));
    assert Lookup(attrs, Plain(79)) == SplitEap(eap);
    ChunksCutExactly(eap, MAX_VALUE);
    forall key | key != Plain(79)
      ensures Lookup(attrs, key) == ValuesOf(lib, before, key) + ValuesOf(lib, after, key)
    {
      EapAmongOthers(lib, before, SplitEap(eap), after, key);
    }
  }

  lemma WithEapFacts(lib: Library, before: seq<Tlv>, eap: Bytes, after: seq<Tlv>)
    requires Encodable(before) && Encodable(after)
    requires NoneNested(lib, before) && NoneNested(lib, after) && !lib.isNested(79)
    ensures Encodable(WithEap(before, eap, after))
    ensures NoneNested(lib, WithEap(before, eap, after))
  {
    var values := SplitEap(eap);
    ChunksCutExactly(eap, MAX_VALUE);
  }

  function WithEap(before: seq<Tlv>, eap: Bytes, after: seq<Tlv>): seq<Tlv> {
    before + EapTlvs(SplitEap(eap)) + after
  }

  function Decoded(lib: Library, body: Bytes): Result<Attrs, DecodeError> {
    var scan := ScanTlvs(body);
    if scan.error.Some? then Err(scan.error.value) else Ok(Collect(lib, map[], scan.list))
  }

  lemma EapAmongOthers(lib: Library, before: seq<Tlv>, values: seq<Bytes>, after: seq<Tlv>, key: AttrKey)
    requires NoneNested(lib, before + EapTlvs(values) + after)
    ensures Lookup(Collect(lib, map[], before + EapTlvs(values) + after), key)
         == ValuesOf(lib, before, key) + (if key == Plain(79) then values else []) + ValuesOf(lib, after, key)
  {
    hide Collect, ValuesOf;
    CollectKeepsOrder(lib, map[], before + EapTlvs(values) + after, key);
    ValuesOfAppend(lib, before + EapTlvs(values), after, key);
    ValuesOfAppend(lib, before, EapTlvs(values), key);
    EapTlvsFacts(lib, values, key);
  }

  // ---- Lengths ------------------------------------------------------------

  /** Attribute octets taken by an EAP packet of n octets. */
  function EapAttributeOctets(n: nat): nat {
    n + 2 * ChunkCount(n, MAX_VALUE)
  }

  lemma EapAttributesGrowBy(eap: Bytes)
    ensures Encodable(EapTlvs(SplitEap(eap)))
    ensures |EncodeTlvs(EapTlvs(SplitEap(eap)))| == EapAttributeOctets(|eap|)
  {
    ChunksCutExactly(eap, MAX_VALUE);
    EncodedSize(SplitEap(eap));
  }

  lemma {:induction false} EncodedSize(values: seq<Bytes>)
    requires Encodable(EapTlvs(values))
    ensures |EncodeTlvs(EapTlvs(values))| == |Join(values)| + 2 * |values|
  {
    if values != [] {
      var tlvs := EapTlvs(values);
      assert tlvs[1..] == EapTlvs(values[1..]);
      assert Encodable(tlvs[1..]) by {
        forall t | t in tlvs[1..] ensures |t.value| <= MAX_VALUE { assert t in tlvs; }
      }
      EncodedSize(values[1..]);
    }
  }

  /** Does a RADIUS packet with `other` further attribute octets have room for an EAP packet of n octets? */
  predicate EapFits(n: nat, other: nat) {
    20 + other + EapAttributeOctets(n) < U16_LIMIT
  }

  /** The same for a data packet of `chunk` TLS octets with the L field. */
  predicate FitsRadius(chunk: nat, other: nat) {
    EapFits(chunk + 10, other)
  }

  lemma SmallerFits(n: nat, m: nat, other: nat)
    requires n <= m && EapFits(m, other)
    ensures EapFits(n, other)
  {
    ChunkCountMonotone(n, m, MAX_VALUE);
  }

  lemma {:induction false} ChunkCountMonotone(a: nat, b: nat, size: nat)
    requires size >= 1 && a <= b
    ensures ChunkCount(a, size) <= ChunkCount(b, size)
    decreases a
  {
    if a > size {
      ChunkCountMonotone(a - size, b - size, size);
    }
  }

  /** A fragment size keeps every packet inside the 16-bit RADIUS Length exactly when its largest packet fits. */
  lemma FragmentSizeKeepsRadiusLength(size: nat, other: nat)
    ensures (forall chunk: nat | chunk <= size :: FitsRadius(chunk, other)) <==> FitsRadius(size, other)
  {
    forall chunk: nat | chunk <= size && FitsRadius(size, other) ensures FitsRadius(chunk, other) {
      ChunkCountMonotone(chunk + 10, size + 10, MAX_VALUE);
    }
  }

  lemma LargestFragmentSize(size: nat)
    ensures FitsRadius(size, 0) <==> size <= 64991
  {
    ChunkCountIsCeiling(65001, MAX_VALUE);
    ChunkCountIsCeiling(65002, MAX_VALUE);
    if size <= 64991 {
      ChunkCountMonotone(size + 10, 65001, MAX_VALUE);
    } else {
      ChunkCountMonotone(65002, size + 10, MAX_VALUE);
    }
  }

  /** So the configured upper bound of 65000 does not by itself keep RADIUS lengths in range. */
  lemma ConfiguredBoundIsNotEnough()
    ensures !FitsRadius(65000, 0)
  {
    LargestFragmentSize(65000);
  }
}
