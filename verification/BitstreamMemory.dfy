/**
 * What a bit stream looks like from outside: the bytes in memory, and a packed header as it is handed to
 * the driver, which copies the bytes and is told the number of bits.
 */
module BitstreamMemory {
  import opened Arithmetic
  import opened Guards
  import opened Bits
  import opened VaBitstreams
  import opened H264ParameterSets

  type Byte = x: nat | x < 256

  // ---------------------------------------------------------------------------------------------
  // Bytes and bits
  // ---------------------------------------------------------------------------------------------

  function BitsOfBytes(bytes: seq<Byte>): (b: seq<bool>)
    ensures |b| == 8 * |bytes|
  {
    if bytes == [] then [] else BitsOfBytes(bytes[..|bytes| - 1]) + BitsOf(bytes[|bytes| - 1], 8)
  }

  lemma ByteValue(b: seq<bool>)
    requires |b| == 8
    ensures Value(b) < 256
  {
    ValueBelow(b);
    Powers();
  }

  lemma {:induction false} ValueBelow(b: seq<bool>)
    ensures Value(b) < Pow2(|b|)
  {
    if b != [] {
      ValueBelow(b[..|b| - 1]);
    }
  }

  lemma {:induction false} BitsOfValue(b: seq<bool>)
    ensures BitsOf(Value(b), |b|) == b
  {
    if b != [] {
      BitsOfValue(b[..|b| - 1]);
      assert Value(b) / 2 == Value(b[..|b| - 1]);
    }
  }

  /** What stop leaves in memory. */
  function MemoryBytes(s: Stream): (bytes: seq<Byte>)
    requires WellFormed(s)
    ensures |bytes| == (Length(s) + 7) / 8
  {
    seq((Length(s) + 7) / 8, k requires 0 <= k < (Length(s) + 7) / 8 => ByteValueOf(s, k))
  }

  function ByteValueOf(s: Stream, k: nat): Byte
    requires WellFormed(s) && k < (Length(s) + 7) / 8
  {
    ByteValue(ByteOf(s, k / 4, k % 4));
    Value(ByteOf(s, k / 4, k % 4))
  }

  lemma {:induction false} BitsAt(bytes: seq<Byte>, b: seq<bool>)
    requires |b| == 8 * |bytes| && forall k :: 0 <= k < |bytes| ==> BitsOf(bytes[k], 8) == b[8 * k..8 * k + 8]
    ensures BitsOfBytes(bytes) == b
  {
    if bytes != [] {
      var last := |bytes| - 1;
      var front := b[..8 * last];
      forall k | 0 <= k < last ensures BitsOf(bytes[..last][k], 8) == front[8 * k..8 * k + 8] {
        assert front[8 * k..8 * k + 8] == b[8 * k..8 * k + 8];
      }
      BitsAt(bytes[..last], front);
      assert b == front + b[8 * last..8 * last + 8];
    }
  }

  lemma MemoryByteAt(s: Stream, k: nat)
    requires WellFormed(s) && k < (Length(s) + 7) / 8
    ensures 8 * k + 8 <= |Padded(Flat(s))|
    ensures BitsOf(MemoryBytes(s)[k], 8) == Padded(Flat(s))[8 * k..8 * k + 8]
  {
    var i, j := k / 4, k % 4;
    assert k == 4 * i + j;
    PaddedBytes(s, i, j);
    BitsOfValue(ByteOf(s, i, j));
    assert MemoryBytes(s)[k] == ByteValueOf(s, k);
  }

  /** The bytes in memory, taken bit by bit, are the stream and the zeros that fill the last byte. */
  lemma MemoryShowsBits(s: Stream)
    requires WellFormed(s)
    ensures BitsOfBytes(MemoryBytes(s)) == Padded(Flat(s))
  {
    forall k | 0 <= k < |MemoryBytes(s)| ensures BitsOf(MemoryBytes(s)[k], 8) == Padded(Flat(s))[8 * k..8 * k + 8] {
      MemoryByteAt(s, k);
    }
    BitsAt(MemoryBytes(s), Padded(Flat(s)));
  }

  lemma NothingToPad(b: seq<bool>, bytes: nat)
    requires |b| == 8 * bytes
    ensures Padded(b) == b
  {
  }

  /** A unit of whole bytes: its bytes in memory are its bits. */
  lemma WholeBytesShown(s: Stream, bytes: nat)
    requires WellFormed(s) && |Flat(s)| == 8 * bytes
    ensures BitsOfBytes(MemoryBytes(s)) == Flat(s)
  {
    NothingToPad(Flat(s), bytes);
    MemoryShowsBits(s);
  }

  // ---------------------------------------------------------------------------------------------
  // Objects
  // ---------------------------------------------------------------------------------------------

  /** The bytes of s are in memory. */
  ghost predicate InMemory(bs: VaBitstream, s: Stream)
    reads bs, bs.buffer
  {
    WellFormed(s) && bs.Shown() && bs.stream == s
  }

  lemma MemoryAtIs(bs: VaBitstream, s: Stream, k: nat)
    requires InMemory(bs, s) && k < |MemoryBytes(s)|
    ensures k / 4 < bs.buffer.Length && bs.MemoryAt(k) == MemoryBytes(s)[k]
  {
    assert Opened(0);
    assert k / 4 < bs.buffer.Length;
    SameByte(bs.MemoryAt(k), ByteOf(s, k / 4, k % 4));
    assert MemoryBytes(s)[k] == ByteValueOf(s, k);
  }

  lemma SameByte(v: nat, b: seq<bool>)
    requires v < 256 && BitsOf(v, 8) == b
    ensures Value(b) == v
  {
    ValueOfBits(v, 8);
    Powers();
    DivMod(v, 0, v, 256);
  }

  // ---------------------------------------------------------------------------------------------
  // Packed headers
  // ---------------------------------------------------------------------------------------------

  /** The number of bits, and the bytes copied. */
  datatype Packed = Packed(bitLength: nat, bytes: seq<Byte>)

  function PackedOf(s: Stream): Packed
    requires WellFormed(s)
  {
    Packed(Length(s), MemoryBytes(s))
  }

  /** What the receiver takes for the header's bits. */
  function BitsOfPacked(p: Packed): seq<bool> {
    var b := BitsOfBytes(p.bytes);
    if p.bitLength <= |b| then b[..p.bitLength] else b
  }

  lemma PackedShowsBits(s: Stream)
    requires WellFormed(s)
    ensures BitsOfPacked(PackedOf(s)) == Flat(s)
  {
    MemoryShowsBits(s);
    assert |Flat(s)| == Length(s);
  }

  /** The header made of these elements, byte for byte; a closed predicate. */
  ghost predicate Packs(p: Packed, es: seq<Element>) {
    forall x :: Opened(x) ==> p == PackedOf(Render(es))
  }

  /** Whoever takes it for bits gets the bits that were written. */
  lemma PackedBits(p: Packed, es: seq<Element>)
    requires Packs(p, es)
    ensures BitsOfPacked(p) == Flat(Render(es))
  {
    assert Opened(0);
    PackedShowsBits(Render(es));
  }

  method CopyBytes(bs: VaBitstream, ghost s: Stream) returns (bytes: seq<Byte>)
    requires InMemory(bs, s) && bs.bitOffset == Length(s)
    ensures bytes == MemoryBytes(s)
  {
    bytes := [];
    var k := 0;
    while k < (bs.bitOffset + 7) / 8
      invariant k <= |MemoryBytes(s)| && bytes == MemoryBytes(s)[..k]
    {
      MemoryAtIs(bs, s, k);
      bytes := bytes + [bs.MemoryAt(k)];
      k := k + 1;
    }
  }

  /** vaCreateBuffer with the length in bits, and with the bytes from getPointer on. */
  method HandOver(bs: VaBitstream, ghost es: seq<Element>) returns (p: Packed)
    requires bs.Shown() && bs.stream == Render(es)
    ensures Packs(p, es)
  {
    assert bs.bitOffset == Length(bs.stream) by { assert Opened(0); }
    var bytes := CopyBytes(bs, bs.stream);
    p := Packed(bs.bitOffset, bytes);
  }
}
