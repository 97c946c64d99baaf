/** Which session a datagram is taken to belong to: the keys of the session table. */
module KeyLaws {
  import opened Octets
  import opened DownstreamSpec

  // ---- Numbers in text ----------------------------------------------------

  /** What a hexadecimal digit counts; 16 for anything else. */
  function DigitValue(c: char): nat {
    if '0' <= c <= '9' then c as int - '0' as int
    else if 'a' <= c <= 'f' then c as int - 'a' as int + 10
    else 16
  }

  lemma HexDigitReads(n: nat)
    requires n < 16
    ensures DigitValue(HexDigit(n)) == n
  {
  }

  /** Two digits for each octet, the first counting 16. */
  lemma {:induction false} HexReads(octets: Bytes)
    ensures |Hex(octets)| == 2 * |octets|
    ensures forall i :: 0 <= i < |octets| ==>
              && DigitValue(Hex(octets)[2 * i]) < 16 && DigitValue(Hex(octets)[2 * i + 1]) < 16
              && DigitValue(Hex(octets)[2 * i]) * 16 + DigitValue(Hex(octets)[2 * i + 1]) == octets[i]
    decreases |octets|
  {
    hide HexDigit, DigitValue;
    if octets != [] {
      HexDigitReads(octets[0] / 16);
      HexDigitReads(octets[0] % 16);
      HexReads(octets[1..]);
      forall i | 0 <= i < |octets|
        ensures DigitValue(Hex(octets)[2 * i]) < 16 && DigitValue(Hex(octets)[2 * i + 1]) < 16
        ensures DigitValue(Hex(octets)[2 * i]) * 16 + DigitValue(Hex(octets)[2 * i + 1]) == octets[i]
      {
        if i > 0 {
          assert Hex(octets)[2 * i] == Hex(octets[1..])[2 * (i - 1)];
          assert Hex(octets)[2 * i + 1] == Hex(octets[1..])[2 * (i - 1) + 1];
        }
      }
    }
  }

  lemma HexIsInjective(a: Bytes, b: Bytes)
    requires Hex(a) == Hex(b)
    ensures a == b
  {
    hide Hex, DigitValue;
    HexReads(a);
    HexReads(b);
    assert forall i :: 0 <= i < |a| ==> a[i] == b[i];
  }

  /** The number that a text of decimal digits stands for. */
  function Value(text: string): nat {
    if text == "" then 0 else Value(text[..|text| - 1]) * 10 + DigitValue(text[|text| - 1])
  }

  /** The number's own digits, with no zero in front. */
  lemma {:induction false} DecimalReads(n: nat)
    ensures Decimal(n) != "" && Value(Decimal(n)) == n
    ensures forall c :: c in Decimal(n) ==> '0' <= c <= '9'
    ensures Decimal(n)[0] == '0' ==> n == 0
  {
    var d := "0123456789"[n % 10];
    assert DigitValue(d) == n % 10;
    if n < 10 {
      assert Decimal(n)[..0] == "";
    } else {
      DecimalReads(n / 10);
      assert Decimal(n)[..|Decimal(n)| - 1] == Decimal(n / 10);
    }
  }

  // ---- Keys ---------------------------------------------------------------

  /** Different States have different keys, and no State has the key of a conversation without one. */
  lemma StateKeysAreApart(state: Bytes, other: Bytes, req: Incoming)
    ensures StateKey(state) == StateKey(other) ==> state == other
    ensures StateKey(state) != FirstKey(req)
  {
    assert StateKey(state)[3..] == Hex(state) && StateKey(other)[3..] == Hex(other);
    if StateKey(state) == StateKey(other) {
      HexIsInjective(state, other);
    }
    assert StateKey(state)[0] == 's' && FirstKey(req)[0] == 'n';
  }

  /** Two texts that agree agree before and after their last colon. */
  lemma LastColonSplits(x: string, u: string, y: string, v: string)
    requires ':' !in u && ':' !in v && x + ":" + u == y + ":" + v
    ensures x == y && u == v
  {
    var t := x + ":" + u;
    assert t[|x|] == ':' && t[|y|] == ':';
    assert x == t[..|x|] && y == t[..|y|] && u == t[|x| + 1..] && v == t[|y| + 1..];
  }

  /** Does a datagram name a calling station? */
  predicate NamesStation(req: Incoming) {
    req.calling.Some? && req.calling.value != ""
  }

  /** Octet 1 of the EAP packet, 0 if it has none. */
  function OctetOne(req: Incoming): nat {
    if |req.Eap()| < 2 then 0 else req.Eap()[1]
  }

  /** What stands behind "new:" in the key of a datagram without a State. */
  function StandIn(req: Incoming): string {
    if NamesStation(req) then req.calling.value
    else req.host + ":" + Decimal(req.port) + ":" + Decimal(OctetOne(req))
  }

  lemma StandInKey(req: Incoming)
    requires req.state.None?
    ensures KeyFor(req) == "new:" + StandIn(req)
  {
    hide Decimal;
  }

  lemma AddressesAreApart(a: Incoming, b: Incoming)
    ensures a.host + ":" + Decimal(a.port) + ":" + Decimal(OctetOne(a))
         == b.host + ":" + Decimal(b.port) + ":" + Decimal(OctetOne(b))
         <==> a.host == b.host && a.port == b.port && OctetOne(a) == OctetOne(b)
  {
    hide Decimal, OctetOne;
    DecimalReads(OctetOne(a));
    DecimalReads(OctetOne(b));
    DecimalReads(a.port);
    DecimalReads(b.port);
    if a.host + ":" + Decimal(a.port) + ":" + Decimal(OctetOne(a))
       == b.host + ":" + Decimal(b.port) + ":" + Decimal(OctetOne(b)) {
      LastColonSplits(a.host + ":" + Decimal(a.port), Decimal(OctetOne(a)),
                      b.host + ":" + Decimal(b.port), Decimal(OctetOne(b)));
      LastColonSplits(a.host, Decimal(a.port), b.host, Decimal(b.port));
    }
  }

  /**
   When two datagrams are taken for the same conversation, for any two. If both quote a State, exactly when they
   quote the same; if one does, never. If neither does and both name a calling station, exactly when they name the
   same, whichever NAS they come from; if neither does that, exactly when NAS host, port and the second EAP octet
   agree; if one does, exactly when the station reads like the other's host, port and second octet.
   */
  lemma KeysMeetExactly(a: Incoming, b: Incoming)
    ensures KeyFor(a) == KeyFor(b) <==>
              if a.state.Some? || b.state.Some? then a.state == b.state
              else if NamesStation(a) && NamesStation(b) then a.calling == b.calling
              else if NamesStation(a) then
                a.calling.value == b.host + ":" + Decimal(b.port) + ":" + Decimal(OctetOne(b))
              else if NamesStation(b) then
                b.calling.value == a.host + ":" + Decimal(a.port) + ":" + Decimal(OctetOne(a))
              else a.host == b.host && a.port == b.port && OctetOne(a) == OctetOne(b)
  {
    hide KeyFor, Decimal, OctetOne;
    if a.state.Some? || b.state.Some? {
      QuotedKeysMeet(a, b);
    } else {
      StandInKey(a);
      StandInKey(b);
      AddressesAreApart(a, b);
      assert ("new:" + StandIn(a))[4..] == StandIn(a) && ("new:" + StandIn(b))[4..] == StandIn(b);
    }
  }

  lemma QuotedKeysMeet(a: Incoming, b: Incoming)
    requires a.state.Some? || b.state.Some?
    ensures KeyFor(a) == KeyFor(b) <==> a.state == b.state
  {
    hide StateKey, FirstKey;
    var x, y := if a.state.Some? then a.state.value else [], if b.state.Some? then b.state.value else [];
    StateKeysAreApart(x, y, a);
    StateKeysAreApart(x, y, b);
    StateKeysAreApart(y, x, a);
  }
}
