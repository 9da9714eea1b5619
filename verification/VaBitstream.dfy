/**
 * vaBitstream, the encoder's bit writer: a growing array of 32-bit words, each byte-swapped when it is
 * full. put_ui does not mask its value, so bits of the value above its size are or-ed into what was
 * written before them in the same word; `PutBits` says exactly which.
 */
module VaBitstreams {
  import opened Bits
  import opened Guards

  /** One call of the writer: put_ui(value, size), put_ue(value) or put_se(value). */
  datatype Element = U(field: Dword, size: nat) | Ue(code: nat) | Se(signed: int)

  /** The bits written so far: the full 32-bit words, and the part of the current one. */
  datatype Stream = Stream(words: seq<seq<bool>>, tail: seq<bool>)

  predicate WellFormed(s: Stream) {
    |s.tail| < 32 && forall i :: 0 <= i < |s.words| ==> |s.words[i]| == 32
  }

  function Length(s: Stream): nat {
    32 * |s.words| + |s.tail|
  }

  function Concat(words: seq<seq<bool>>): (b: seq<bool>)
    requires forall i :: 0 <= i < |words| ==> |words[i]| == 32
    ensures |b| == 32 * |words|
  {
    if words == [] then [] else Concat(words[..|words| - 1]) + words[|words| - 1]
  }

  function Flat(s: Stream): (b: seq<bool>)
    requires WellFormed(s)
    ensures |b| == Length(s)
  {
    Concat(s.words) + s.tail
  }

  /** The bits followed by the zero bits that fill the last byte. */
  function Padded(b: seq<bool>): (p: seq<bool>)
    ensures |p| % 8 == 0 && b <= p && |p| == (|b| + 7) / 8 * 8
  {
    b + Zeros((8 - |b| % 8) % 8)
  }

  /** put_ui: the value's bits above its size are or-ed into the current word. */
  function PutBits(s: Stream, v: nat, n: nat): (s': Stream)
    requires WellFormed(s) && n <= 32
    ensures WellFormed(s') && Length(s') == Length(s) + n
  {
    var mixed := OrBits(s.tail, BitsOf(Down(v, n), |s.tail|));
    if n == 0 then s
    else if |s.tail| + n < 32 then
      s.(tail := mixed + BitsOf(v, n))
    else
      var rest := |s.tail| + n - 32;
      Stream(s.words + [mixed + BitsOf(Down(v, rest), n - rest)], BitsOf(v, rest))
  }

  function BitLength(v: nat): nat {
    if v == 0 then 0 else 1 + BitLength(v / 2)
  }

  /** Section 9.1.1 of ITU-T H.264: the code number of a signed value. */
  function CodeNumber(v: int): nat {
    if v <= 0 then -2 * v else 2 * v - 1
  }

  /** put_ue works for code numbers whose successor is below 2^31. */
  const CODE_LIMIT: nat := 0x7FFF_FFFF

  function PutPair(s: Stream, a: nat, m: nat, b: nat, n: nat): (s': Stream)
    requires WellFormed(s) && m <= 32 && n <= 32
    ensures WellFormed(s')
  {
    PutBits(PutBits(s, a, m), b, n)
  }

  function PutCodeNumber(s: Stream, v: nat): (s': Stream)
    requires WellFormed(s) && v < CODE_LIMIT
    ensures WellFormed(s')
  {
    CodeLength(v);
    PutPair(s, 0, BitLength(v + 1) - 1, v + 1, BitLength(v + 1))
  }

  predicate Writable(e: Element) {
    match e
    case U(v, n) => n <= 32
    case Ue(v) => v < CODE_LIMIT
    case Se(v) => CodeNumber(v) < CODE_LIMIT
  }

  /** A call outside the writer's limits is not part of the model and changes nothing. */
  function PutElement(s: Stream, e: Element): (s': Stream)
    requires WellFormed(s)
    ensures WellFormed(s')
  {
    if !Writable(e) then s
    else
      match e
      case U(v, n) => PutBits(s, v, n)
      case Ue(v) => PutCodeNumber(s, v)
      case Se(v) => PutCodeNumber(s, CodeNumber(v))
  }

  /** What a sequence of calls leaves. */
  function Render(es: seq<Element>): (s: Stream)
    ensures WellFormed(s)
  {
    if es == [] then Stream([], []) else PutElement(Render(es[..|es| - 1]), es[|es| - 1])
  }

  lemma RenderAppend(es: seq<Element>, e: Element)
    ensures Render(es + [e]) == PutElement(Render(es), e)
  {
    assert (es + [e])[..|es + [e]| - 1] == es;
  }

  lemma {:induction false} DownDown(v: nat, a: nat, b: nat)
    ensures Down(Down(v, a), b) == Down(v, a + b)
  {
    if a > 0 {
      DownDown(v / 2, a - 1, b);
    }
  }

  lemma {:induction false} BitLengthBounds(v: nat)
    requires v > 0
    ensures BitLength(v) >= 1 && Pow2(BitLength(v) - 1) <= v < Pow2(BitLength(v))
  {
    if v > 1 {
      BitLengthBounds(v / 2);
    }
  }

  lemma BitLengthBelow(v: nat, n: nat)
    requires 0 < v < Pow2(n)
    ensures BitLength(v) <= n
  {
    BitLengthBounds(v);
    if BitLength(v) > n {
      Pow2Monotone(n, BitLength(v) - 1);
    }
  }

  lemma CodeLength(v: nat)
    requires v < CODE_LIMIT
    ensures 1 <= BitLength(v + 1) <= 31
  {
    Pow2Of32();
    BitLengthBounds(v + 1);
    BitLengthBelow(v + 1, 31);
  }

  lemma CodeNumberPair(s: Stream, v: nat, n: nat)
    requires WellFormed(s) && v < CODE_LIMIT && n == BitLength(v + 1)
    ensures 1 <= n <= 31 && PutPair(s, 0, n - 1, v + 1, n) == PutCodeNumber(s, v)
  {
    CodeLength(v);
  }

  /** The current word holds the tail in its low bits, with leftovers of earlier values above them. */
  lemma WordFillsUp(s: Stream, w: Dword, v: Dword, n: nat)
    requires WellFormed(s) && 0 < n && |s.tail| + n < 32 && BitsOf(w, |s.tail|) == s.tail
    ensures BitsOf(OrWord(ShiftLeft(w, n), v), |s.tail| + n) == PutBits(s, v, n).tail
  {
    ShiftAndOr(w, n, v, |s.tail|);
  }

  lemma WordSpillsOver(s: Stream, w: Dword, v: Dword, n: nat)
    requires WellFormed(s) && 0 < n <= 32 <= |s.tail| + n && BitsOf(w, |s.tail|) == s.tail
    ensures var left := 32 - |s.tail|;
            var full := SwapBytes(OrWord(ShiftLeft(w, left), Down(v, n - left)));
            PutBits(s, v, n) == Stream(s.words + [BitsOf(SwapBytes(full), 32)], BitsOf(v, n - left))
  {
    PutBitsSpills(s, v, n);
    FullWord(s.tail, w, v, n);
  }

  lemma PutBitsSpills(s: Stream, v: Dword, n: nat)
    requires WellFormed(s) && 0 < n <= 32 <= |s.tail| + n
    ensures var left := 32 - |s.tail|;
            PutBits(s, v, n) == Stream(s.words + [OrBits(s.tail, BitsOf(Down(v, n), |s.tail|)) + BitsOf(Down(v, n - left), left)],
                                       BitsOf(v, n - left))
  {
    assert |s.tail| + n - 32 == n - (32 - |s.tail|);
  }

  lemma FullWord(tail: seq<bool>, w: Dword, v: Dword, n: nat)
    requires n <= 32 <= |tail| + n && |tail| < 32 && BitsOf(w, |tail|) == tail
    ensures var left := 32 - |tail|;
            BitsOf(SwapBytes(SwapBytes(OrWord(ShiftLeft(w, left), Down(v, n - left)))), 32)
            == OrBits(tail, BitsOf(Down(v, n), |tail|)) + BitsOf(Down(v, n - left), left)
  {
    var left := 32 - |tail|;
    MixedWord(tail, w, v, left, n - left);
    SwapTwice(OrWord(ShiftLeft(w, left), Down(v, n - left)));
  }

  lemma MixedWord(tail: seq<bool>, w: Dword, v: Dword, left: nat, rest: nat)
    requires |tail| + left == 32 && BitsOf(w, |tail|) == tail
    ensures BitsOf(OrWord(ShiftLeft(w, left), Down(v, rest)), 32)
         == OrBits(tail, BitsOf(Down(v, rest + left), |tail|)) + BitsOf(Down(v, rest), left)
  {
    ShiftAndOr(w, left, Down(v, rest), |tail|);
    DownDown(v, rest, left);
  }

  class VaBitstream {
    var buffer: array<Dword>
    var bitOffset: nat

    ghost var stream: Stream
    ghost var trace: seq<Element>

    /** The words of the buffer hold `stream`. */
    ghost predicate Stored()
      reads this, buffer
    {
      && WellFormed(stream)
      && Length(stream) == bitOffset
      && |stream.words| < buffer.Length
      && (forall i :: 0 <= i < |stream.words| ==> BitsOf(SwapBytes(buffer[i]), 32) == stream.words[i])
      && BitsOf(buffer[|stream.words|], |stream.tail|) == stream.tail
    }

    /** Closed, so that callers carry it unopened. */
    ghost predicate Valid()
      reads this, buffer
    {
      forall x :: Opened(x) ==> Stored() && stream == Render(trace)
    }

    constructor ()
      ensures Valid() && trace == [] && fresh(buffer) && bitOffset == 0
    {
      buffer := new Dword[4096](_ => 0);
      bitOffset := 0;
      stream, trace := Stream([], []), [];
    }

    /** realloc by another 4096 words; what lies behind the old contents is arbitrary. */
    method Grow()
      modifies this`buffer
      ensures fresh(buffer) && buffer.Length == old(buffer.Length) + 4096
      ensures forall i :: 0 <= i < old(buffer.Length) ==> buffer[i] == old(buffer[i])
    {
      var current := buffer;
      var larger := new Dword[current.Length + 4096];
      var i := 0;
      while i < current.Length
        invariant i <= current.Length
        invariant forall j :: 0 <= j < i ==> larger[j] == current[j]
        invariant forall j :: 0 <= j < current.Length ==> current[j] == old(current[j])
        modifies larger
      {
        larger[i] := current[i];
        i := i + 1;
      }
      buffer := larger;
    }

    /** put_ui when the value fits in the current word with room to spare. */
    method FillWord(pos: nat, val: Dword, size: nat)
      requires Stored() && 0 < size && |stream.tail| + size < 32 && pos == |stream.words|
      modifies this`bitOffset, this`stream, buffer
      ensures Stored() && stream == PutBits(old(stream), val, size)
    {
      WordFillsUp(stream, buffer[pos], val, size);
      buffer[pos] := OrWord(ShiftLeft(buffer[pos], size), val);
      bitOffset := bitOffset + size;
      stream := PutBits(stream, val, size);
    }

    /** Makes word pos + 1 the current one, whatever was there before. */
    method OpenWord(pos: nat, val: Dword)
      requires pos < buffer.Length
      modifies this`buffer, buffer
      ensures pos + 1 < buffer.Length && buffer[pos + 1] == val
      ensures forall i :: 0 <= i <= pos ==> buffer[i] == old(buffer[i])
      ensures buffer == old(buffer) || fresh(buffer)
    {
      if pos + 1 == buffer.Length {
        Grow();
      }
      buffer[pos + 1] := val;
    }

    /** put_ui when the value fills the current word: it is swapped, and the rest opens the next one. */
    method SpillWord(pos: nat, bitLeft: nat, val: Dword, size: nat)
      requires Stored() && 0 < size <= 32 && bitLeft == 32 - |stream.tail| <= size && pos == |stream.words|
      modifies this`buffer, this`bitOffset, this`stream, buffer
      ensures Stored() && stream == PutBits(old(stream), val, size)
      ensures buffer == old(buffer) || fresh(buffer)
    {
      ghost var next := PutBits(stream, val, size);
      WordSpillsOver(stream, buffer[pos], val, size);
      CloseWord(pos, bitLeft, val, size);
      assert next.words == stream.words + [BitsOf(SwapBytes(buffer[pos]), 32)];
      OpenWord(pos, val);
      bitOffset := bitOffset + size;
      stream := next;
    }

    /** Fills the current word up and swaps it. */
    method CloseWord(pos: nat, bitLeft: nat, val: Dword, size: nat)
      requires pos < buffer.Length && bitLeft <= size
      modifies buffer
      ensures buffer[pos] == SwapBytes(OrWord(ShiftLeft(old(buffer[pos]), bitLeft), Down(val, size - bitLeft)))
      ensures forall i :: 0 <= i < buffer.Length && i != pos ==> buffer[i] == old(buffer[i])
    {
      buffer[pos] := OrWord(ShiftLeft(buffer[pos], bitLeft), Down(val, size - bitLeft));
      buffer[pos] := SwapBytes(buffer[pos]);
    }

    /**
     * put_ui. The shift by 32 that a full word at a word boundary asks for is undefined in C; it is
     * admitted on the empty stream, where nothing is there to be shifted.
     */
    method EmitBits(val: Dword, size: nat)
      requires Stored() && size <= 32
      requires size == 32 ==> bitOffset == 0 || bitOffset % 32 != 0
      modifies this`buffer, this`bitOffset, this`stream, buffer
      ensures Stored() && stream == PutBits(old(stream), val, size)
      ensures buffer == old(buffer) || fresh(buffer)
    {
      var pos := bitOffset / 32;
      var xbitOffset := bitOffset % 32;
      var bitLeft := 32 - xbitOffset;
      if size == 0 {
        return;
      }
      if bitLeft > size {
        FillWord(pos, val, size);
      } else {
        SpillWord(pos, bitLeft, val, size);
      }
    }

    method PutUi(val: Dword, size: nat)
      requires Valid() && size <= 32
      requires size == 32 ==> bitOffset == 0 || bitOffset % 32 != 0
      modifies this, buffer
      ensures Valid() && trace == old(trace) + [U(val, size)]
      ensures buffer == old(buffer) || fresh(buffer)
    {
      assert Opened(0);
      RenderAppend(trace, U(val, size));
      EmitBits(val, size);
      trace := trace + [U(val, size)];
    }

    /** put_ue's loop; with the source's int it ends because the value is below 2^31. */
    static method CountBits(val: nat) returns (sizeInBits: nat)
      ensures sizeInBits == BitLength(val)
    {
      sizeInBits := 0;
      var tmpVal := val;
      while tmpVal != 0
        invariant 0 <= tmpVal && sizeInBits + BitLength(tmpVal) == BitLength(val)
        decreases tmpVal
      {
        tmpVal := tmpVal / 2;
        sizeInBits := sizeInBits + 1;
      }
    }

    method EmitCodeNumber(val: nat)
      requires Stored() && val < CODE_LIMIT
      modifies this`buffer, this`bitOffset, this`stream, buffer
      ensures Stored() && stream == PutCodeNumber(old(stream), val)
      ensures buffer == old(buffer) || fresh(buffer)
    {
      var sizeInBits := CountBits(val + 1);
      CodeNumberPair(stream, val, sizeInBits);
      EmitPair(0, sizeInBits - 1, val + 1, sizeInBits);
    }

    /** Two short values in a row. */
    method EmitPair(first: Dword, firstSize: nat, second: Dword, secondSize: nat)
      requires Stored() && firstSize < 32 && secondSize < 32
      modifies this`buffer, this`bitOffset, this`stream, buffer
      ensures Stored() && stream == PutPair(old(stream), first, firstSize, second, secondSize)
      ensures buffer == old(buffer) || fresh(buffer)
    {
      EmitBits(first, firstSize);
      EmitBits(second, secondSize);
    }

    method PutUe(val: nat)
      requires Valid() && val < CODE_LIMIT
      modifies this, buffer
      ensures Valid() && trace == old(trace) + [Ue(val)]
      ensures buffer == old(buffer) || fresh(buffer)
    {
      assert Opened(0);
      RenderAppend(trace, Ue(val));
      EmitCodeNumber(val);
      trace := trace + [Ue(val)];
    }

    method PutSe(val: int)
      requires Valid() && CodeNumber(val) < CODE_LIMIT
      modifies this, buffer
      ensures Valid() && trace == old(trace) + [Se(val)]
      ensures buffer == old(buffer) || fresh(buffer)
    {
      assert Opened(0);
      RenderAppend(trace, Se(val));
      assert Render(trace + [Se(val)]) == PutCodeNumber(stream, CodeNumber(val));
      var newVal: nat := if val <= 0 then -2 * val else 2 * val - 1;
      EmitCodeNumber(newVal);
      trace := trace + [Se(val)];
    }

    lemma OffsetIsLength()
      requires Valid()
      ensures bitOffset == Length(Render(trace))
    {
      assert Opened(0);
    }

    method ByteAlign(bit: bool)
      requires Valid()
      modifies this, buffer
      ensures Valid()
      ensures trace == old(trace) + Alignment(Length(Render(old(trace))), bit)
      ensures buffer == old(buffer) || fresh(buffer)
    {
      OffsetIsLength();
      var xbitOffset := bitOffset % 8;
      var bitLeft := 8 - xbitOffset;
      if xbitOffset != 0 {
        var newVal := if bit then AllOnes(bitLeft) else 0;
        PutUi(newVal, bitLeft);
      }
    }

    method RbspTrailingBits()
      requires Valid()
      modifies this, buffer
      ensures Valid()
      ensures trace == old(trace) + Trailing(Length(Render(old(trace))))
      ensures buffer == old(buffer) || fresh(buffer)
    {
      RenderAppend(trace, U(1, 1));
      PutUi(1, 1);
      ByteAlign(false);
    }

    method StartCodePrefix()
      requires Valid() && (bitOffset == 0 || bitOffset % 32 != 0)
      modifies this, buffer
      ensures Valid() && trace == old(trace) + [U(1, 32)]
      ensures buffer == old(buffer) || fresh(buffer)
    {
      PutUi(1, 32);
    }

    method NalHeader(nalRefIdc: nat, nalUnitType: nat)
      requires Valid() && nalRefIdc < 4 && nalUnitType < 32
      modifies this, buffer
      ensures Valid() && trace == old(trace) + [U(0, 1), U(nalRefIdc, 2), U(nalUnitType, 5)]
      ensures buffer == old(buffer) || fresh(buffer)
    {
      PutUi(0, 1);
      PutUi(nalRefIdc, 2);
      PutUi(nalUnitType, 5);
    }

    /** The byte at address getPointer() + k, on a little-endian machine. */
    function MemoryAt(k: nat): nat
      requires k / 4 < buffer.Length
      reads this, buffer
    {
      MemoryByte(buffer[k / 4], k % 4)
    }

    /** Memory shows every bit in writing order, with zeros behind the last one; a closed predicate. */
    ghost predicate Shown()
      reads this, buffer
    {
      forall x :: Opened(x) ==> ShownNow()
    }

    ghost predicate ShownNow()
      reads this, buffer
    {
      && WellFormed(stream) && bitOffset == Length(stream)
      && forall k :: 0 <= k < (bitOffset + 7) / 8 ==>
           k / 4 <= |stream.words| < buffer.Length && BitsOf(MemoryAt(k), 8) == ByteOf(stream, k / 4, k % 4)
    }

    /**
     * Without stop memory is right only where the swap would change nothing: in the full words, and in a
     * last word that holds a single byte.
     */
    lemma OneByteNeedsNoStop()
      requires Stored() && |stream.tail| == 8
      ensures Shown()
    {
      forall k | 0 <= k < (bitOffset + 7) / 8
        ensures k / 4 <= |stream.words| < buffer.Length && BitsOf(MemoryAt(k), 8) == ByteOf(stream, k / 4, k % 4)
      {
        if k / 4 < |stream.words| {
          SwapTwice(buffer[k / 4]);
          SwappedInMemory(SwapBytes(buffer[k / 4]), k % 4);
        } else {
          assert k % 4 == 0;
          DownByte(buffer[k / 4]);
        }
      }
    }

    /** stop: shifts the last word up and swaps it, so that memory shows all bits in writing order. */
    method Stop()
      requires Stored()
      modifies buffer
      ensures Shown()
    {
      var pos := bitOffset / 32;
      var xbitOffset := bitOffset % 32;
      var bitLeft := 32 - xbitOffset;
      assert pos == |stream.words| && xbitOffset == |stream.tail|;
      ghost var last := ShiftLeft(buffer[pos], bitLeft);
      LastWord(stream, buffer[pos]);
      if xbitOffset != 0 {
        buffer[pos] := SwapBytes(ShiftLeft(buffer[pos], bitLeft));
      }
      forall k | 0 <= k < (bitOffset + 7) / 8
        ensures k / 4 <= |stream.words| < buffer.Length && BitsOf(MemoryAt(k), 8) == ByteOf(stream, k / 4, k % 4)
      {
        assert k / 4 <= pos;
        if k / 4 < pos {
          SwapTwice(buffer[k / 4]);
          SwappedInMemory(SwapBytes(buffer[k / 4]), k % 4);
        } else {
          SwappedInMemory(last, k % 4);
        }
      }
    }
  }

  function AllOnes(n: nat): Dword
    requires n <= 8
  {
    Pow2Monotone(n, 8);
    Pow2(n) - 1
  }

  /** What rbspTrailingBits writes at a bit offset. */
  function Trailing(offset: nat): seq<Element> {
    [U(1, 1)] + Alignment(offset + 1, false)
  }

  /** What byteAlign writes at a bit offset. */
  function Alignment(offset: nat, bit: bool): seq<Element> {
    if offset % 8 == 0 then []
    else [U(if bit then AllOnes(8 - offset % 8) else 0, 8 - offset % 8)]
  }

  lemma LastWord(s: Stream, w: Dword)
    requires WellFormed(s) && BitsOf(w, |s.tail|) == s.tail
    ensures BitsOf(ShiftLeft(w, 32 - |s.tail|), 32) == s.tail + Zeros(32 - |s.tail|)
  {
    var x := |s.tail|;
    Pow2Of32();
    BitsIgnoreHigh(Up(w, 32 - x), 32, 32);
    BitsOfShifted(w, 32 - x, x);
  }

  /** Byte k of word i, the current word being filled up with zeros. */
  function ByteOf(s: Stream, i: nat, k: nat): seq<bool>
    requires WellFormed(s) && i <= |s.words| && k < 4
  {
    (if i < |s.words| then s.words[i] else s.tail + Zeros(32 - |s.tail|))[8 * k..8 * k + 8]
  }

  lemma {:induction false} ConcatWords(words: seq<seq<bool>>, i: nat)
    requires i < |words| && forall j :: 0 <= j < |words| ==> |words[j]| == 32
    ensures Concat(words)[32 * i..32 * i + 32] == words[i]
  {
    var last := |words| - 1;
    if i < last {
      ConcatWords(words[..last], i);
      assert Concat(words)[32 * i..32 * i + 32] == Concat(words[..last])[32 * i..32 * i + 32];
    }
  }

  lemma {:induction false} ConcatIndex(words: seq<seq<bool>>, i: nat, j: nat)
    requires i < |words| && j < 32 && forall j :: 0 <= j < |words| ==> |words[j]| == 32
    ensures Concat(words)[32 * i + j] == words[i][j]
  {
    ConcatWords(words, i);
    assert Concat(words)[32 * i..32 * i + 32][j] == words[i][j];
  }

  /** The bytes that stop shows in memory are those of the padded bit string, in writing order. */
  lemma PaddedBytes(s: Stream, i: nat, k: nat)
    requires WellFormed(s) && k < 4 && 4 * i + k < (Length(s) + 7) / 8
    ensures var n := 32 * i + 8 * k;
            i <= |s.words| && n + 8 <= |Padded(Flat(s))| && ByteOf(s, i, k) == Padded(Flat(s))[n..n + 8]
  {
    var byte, p := ByteOf(s, i, k), Padded(Flat(s))[32 * i + 8 * k..32 * i + 8 * k + 8];
    forall m | 0 <= m < 8 ensures byte[m] == p[m] {
      PaddedBit(s, i, 8 * k + m);
    }
  }

  lemma PaddedBit(s: Stream, i: nat, j: nat)
    requires WellFormed(s) && i <= |s.words| && j < 32 && 32 * i + j < |Padded(Flat(s))|
    ensures Padded(Flat(s))[32 * i + j] ==
              if i < |s.words| then s.words[i][j] else if j < |s.tail| then s.tail[j] else false
  {
    if i < |s.words| {
      ConcatIndex(s.words, i, j);
    }
  }
}
