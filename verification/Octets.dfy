/**
 Octet strings: big-endian numbers, concatenation, and the cutting of a string
 into equal chunks. `fragment` (EAP-TLS) and `_split_eap_message` (RADIUS) are the
 same cutting loop, so it is defined here once.
 */
module Octets {
  import opened Prelude

  type byte = x: int | 0 <= x < 0x100
  type Bytes = seq<byte>

  const U16_LIMIT := 0x1_0000
  const U32_LIMIT := 0x1_0000_0000

  function U16(n: nat): (b: Bytes)
    requires n < U16_LIMIT
    ensures |b| == 2 && FromU16(b) == n
  {
    [n / 0x100, n % 0x100]
  }

  function FromU16(b: Bytes): (n: nat)
    requires |b| == 2
    ensures n < U16_LIMIT
  {
    (b[0] as int) * 0x100 + b[1]
  }

  function U32(n: nat): (b: Bytes)
    requires n < U32_LIMIT
    ensures |b| == 4 && FromU32(b) == n
  {
    U16(n / U16_LIMIT) + U16(n % U16_LIMIT)
  }

  function FromU32(b: Bytes): (n: nat)
    requires |b| == 4
    ensures n < U32_LIMIT
  {
    FromU16(b[..2]) * U16_LIMIT + FromU16(b[2..])
  }

  lemma U16OfFromU16(b: Bytes)
    requires |b| == 2
    ensures U16(FromU16(b)) == b
  {
    assert FromU16(b) / 0x100 == b[0] && FromU16(b) % 0x100 == b[1];
  }

  lemma U32OfFromU32(b: Bytes)
    requires |b| == 4
    ensures U32(FromU32(b)) == b
  {
    var hi, lo := FromU16(b[..2]), FromU16(b[2..]);
    assert FromU32(b) / U16_LIMIT == hi && FromU32(b) % U16_LIMIT == lo;
    U16OfFromU16(b[..2]);
    U16OfFromU16(b[2..]);
    assert b == b[..2] + b[2..];
  }

  /** Python's `b"".join(parts)`. */
  function Join(parts: seq<Bytes>): Bytes {
    if parts == [] then [] else parts[0] + Join(parts[1..])
  }

  lemma {:induction false} JoinAppend(a: seq<Bytes>, b: seq<Bytes>)
    ensures Join(a + b) == Join(a) + Join(b)
  {
    if a == [] {
      assert a + b == b;
    } else {
      JoinAppend(a[1..], b);
      assert (a + b)[1..] == a[1..] + b;
    }
  }

  lemma JoinSnoc(a: seq<Bytes>, x: Bytes)
    ensures Join(a + [x]) == Join(a) + x
  {
    JoinAppend(a, [x]);
    assert Join([x]) == x + Join([]);
  }

  /** Python's `data[lo:hi]` for 0 <= lo and 0 <= hi: never an error, possibly empty. */
  function Slice(data: Bytes, lo: nat, hi: nat): Bytes {
    if lo <= hi <= |data| then data[lo..hi]
    else if lo <= |data| < hi then data[lo..]
    else []
  }

  /** The chunks `data[i:i+size]` for i in range(0, len(data), size); one empty chunk if there is no data. */
  function Chunks(data: Bytes, size: nat): (chunks: seq<Bytes>)
    requires size >= 1
    ensures chunks != []
    decreases |data|
  {
    if |data| <= size then [data] else [data[..size]] + Chunks(data[size..], size)
  }

  /** max(1, ceil(n / size)): see ChunkCountIsCeiling. */
  function ChunkCount(n: nat, size: nat): (k: nat)
    requires size >= 1
    ensures k >= 1
  {
    if n <= size then 1 else 1 + ChunkCount(n - size, size)
  }

  lemma {:induction false} ChunkCountIsCeiling(n: nat, size: nat)
    requires size >= 1
    ensures n == 0 ==> ChunkCount(n, size) == 1
    ensures n > 0 ==> (ChunkCount(n, size) - 1) * size < n <= ChunkCount(n, size) * size
  {
    if n > size {
      ChunkCountIsCeiling(n - size, size);
      var k := ChunkCount(n - size, size);
      assert (k + 1) * size == k * size + size;
    }
  }

  /** What the cutting promises: nothing lost, nothing reordered, full chunks, exact count. */
  lemma {:induction false} ChunksCutExactly(data: Bytes, size: nat)
    requires size >= 1
    ensures Join(Chunks(data, size)) == data
    ensures |Chunks(data, size)| == ChunkCount(|data|, size)
    ensures forall i :: 0 <= i < |Chunks(data, size)| - 1 ==> |Chunks(data, size)[i]| == size
    ensures forall c :: c in Chunks(data, size) ==> |c| <= size && (data != [] ==> c != [])
    decreases |data|
  {
    if |data| <= size {
      assert Join([data]) == data + Join([]);
    } else {
      var rest := data[size..];
      ChunksCutExactly(rest, size);
      assert data == data[..size] + rest;
      assert Chunks(data, size)[1..] == Chunks(rest, size);
    }
  }

  /** Chunk number i, which starts at offset `at`, is the slice the source takes there. */
  lemma {:induction false} ChunkAt(data: Bytes, size: nat, i: nat, at: nat)
    requires size >= 1 && i < |Chunks(data, size)| && at == i * size
    ensures at <= |data| && Chunks(data, size)[i] == data[at..Min(at + size, |data|)]
    decreases i
  {
    if i > 0 {
      PreviousOffset(i, size);
      var rest, to := data[size..], Min(at + size, |data|);
      ChunkAt(rest, size, i - 1, at - size);
      assert Chunks(data, size)[i] == Chunks(rest, size)[i - 1];
      assert rest[at - size..to - size] == data[at..to];
    }
  }

  lemma PreviousOffset(i: nat, size: nat)
    requires i >= 1
    ensures (i - 1) * size == i * size - size >= 0
  {
  }
}
