/** Bit strings, most significant bit first, and the 32-bit word operations vaBitstream is made of. */
module Bits {
  import opened Arithmetic

  type Dword = x: int | 0 <= x < 0x1_0000_0000

  function Pow2(n: nat): (p: nat)
    ensures p >= 1
  {
    if n == 0 then 1 else 2 * Pow2(n - 1)
  }

  /** The `n` low bits of `v`. */
  function BitsOf(v: nat, n: nat): (b: seq<bool>)
    ensures |b| == n
  {
    if n == 0 then [] else BitsOf(v / 2, n - 1) + [v % 2 == 1]
  }

  /** The number a bit string denotes. */
  function Value(b: seq<bool>): nat {
    if b == [] then 0 else 2 * Value(b[..|b| - 1]) + (if b[|b| - 1] then 1 else 0)
  }

  function Zeros(n: nat): (b: seq<bool>)
    ensures |b| == n && forall i :: 0 <= i < n ==> !b[i]
  {
    seq(n, _ => false)
  }

  function OrBits(a: seq<bool>, b: seq<bool>): (c: seq<bool>)
    requires |a| == |b|
    ensures |c| == |a| && forall i :: 0 <= i < |a| ==> c[i] == (a[i] || b[i])
  {
    seq(|a|, i requires 0 <= i < |a| => a[i] || b[i])
  }

  lemma {:induction false} ValueOfBits(v: nat, n: nat)
    ensures Value(BitsOf(v, n)) == v % Pow2(n)
  {
    if n > 0 {
      ValueOfBits(v / 2, n - 1);
      var b := BitsOf(v, n);
      assert b[..|b| - 1] == BitsOf(v / 2, n - 1);
      ModuloDoubles(v, Pow2(n - 1));
    }
  }

  lemma ModuloDoubles(v: nat, m: nat)
    requires 0 < m
    ensures v % (2 * m) == 2 * ((v / 2) % m) + v % 2
  {
    var q, r := (v / 2) / m, (v / 2) % m;
    assert v / 2 == q * m + r;
    assert v == q * (2 * m) + (2 * r + v % 2);
    DivMod(v, q, 2 * r + v % 2, 2 * m);
  }

  /** v >> k. */
  function Down(v: nat, k: nat): (r: nat)
    ensures r <= v
  {
    if k == 0 then v else Down(v / 2, k - 1)
  }

  /** v << k, unbounded. */
  function Up(v: nat, k: nat): nat {
    if k == 0 then v else 2 * Up(v, k - 1)
  }

  lemma {:induction false} DownIsZero(v: nat, k: nat)
    ensures Down(v, k) == 0 <==> v < Pow2(k)
  {
    if k > 0 {
      DownIsZero(v / 2, k - 1);
    }
  }

  /** High part and low part. */
  lemma {:induction false} BitsSplit(v: nat, n: nat, k: nat)
    ensures BitsOf(v, n + k) == BitsOf(Down(v, k), n) + BitsOf(v, k)
  {
    if k > 0 {
      BitsSplit(v / 2, n, k - 1);
    }
  }

  lemma {:induction false} BitsOfZero(n: nat)
    ensures BitsOf(0, n) == Zeros(n)
  {
    if n > 0 {
      BitsOfZero(n - 1);
    }
  }

  /** Only the low n bits matter. */
  lemma {:induction false} BitsIgnoreHigh(v: nat, n: nat, m: nat)
    requires n <= m
    ensures BitsOf(v % Pow2(m), n) == BitsOf(v, n)
  {
    if n > 0 {
      ModuloDoubles(v, Pow2(m - 1));
      BitsIgnoreHigh(v / 2, n - 1, m - 1);
    }
  }

  lemma {:induction false} BitsOfShifted(w: nat, k: nat, n: nat)
    ensures BitsOf(Up(w, k), n + k) == BitsOf(w, n) + Zeros(k)
  {
    if k > 0 {
      BitsOfShifted(w, k - 1, n);
    }
  }

  lemma Pow2Of32()
    ensures Pow2(32) == 0x1_0000_0000
  {
    assert Pow2(8) == 256;
    Pow2Add(8, 8);
    Pow2Add(16, 16);
  }

  lemma {:induction false} Pow2Add(a: nat, b: nat)
    ensures Pow2(a + b) == Pow2(a) * Pow2(b)
  {
    if a > 0 {
      Pow2Add(a - 1, b);
    }
  }

  lemma {:induction false} Pow2Monotone(a: nat, b: nat)
    requires a <= b
    ensures Pow2(a) <= Pow2(b)
  {
    if a < b {
      Pow2Monotone(a, b - 1);
    }
  }

  // ---------------------------------------------------------------------------------------------
  // Word operations
  // ---------------------------------------------------------------------------------------------

  /** Bitwise or of two unsigned numbers. */
  function Or(a: nat, b: nat): nat
    decreases a + b
  {
    if a == 0 then b
    else if b == 0 then a
    else 2 * Or(a / 2, b / 2) + (if a % 2 == 1 || b % 2 == 1 then 1 else 0)
  }

  lemma {:induction false} OrBelow(a: nat, b: nat, n: nat)
    requires a < Pow2(n) && b < Pow2(n)
    ensures Or(a, b) < Pow2(n)
  {
    if a != 0 && b != 0 {
      OrBelow(a / 2, b / 2, n - 1);
    }
  }

  lemma {:induction false} BitsOfOr(a: nat, b: nat, n: nat)
    ensures BitsOf(Or(a, b), n) == OrBits(BitsOf(a, n), BitsOf(b, n))
  {
    if a == 0 {
      BitsOfZero(n);
    } else if b == 0 {
      BitsOfZero(n);
    } else if n > 0 {
      BitsOfOr(a / 2, b / 2, n - 1);
      var c := 2 * Or(a / 2, b / 2) + (if a % 2 == 1 || b % 2 == 1 then 1 else 0);
      assert c / 2 == Or(a / 2, b / 2);
    }
  }

  /** w << k in 32 bits. */
  function ShiftLeft(w: Dword, k: nat): Dword {
    Up(w, k) % 0x1_0000_0000
  }

  function OrWord(a: Dword, b: Dword): (r: Dword) {
    Pow2Of32();
    OrBelow(a, b, 32);
    Or(a, b)
  }

  /**
   * What `w << k | v` puts into the low n + k bits: the bits of v that do not fit in k are or-ed into
   * the bits already there.
   */
  lemma ShiftAndOr(w: Dword, k: nat, v: Dword, n: nat)
    requires n + k <= 32
    ensures BitsOf(OrWord(ShiftLeft(w, k), v), n + k)
         == OrBits(BitsOf(w, n), BitsOf(Down(v, k), n)) + BitsOf(v, k)
  {
    BitsOfOr(ShiftLeft(w, k), v, n + k);
    Pow2Of32();
    BitsIgnoreHigh(Up(w, k), n + k, 32);
    BitsOfShifted(w, k, n);
    BitsSplit(v, n, k);
  }

  /** The word with bytes b3 (most significant) to b0. */
  function Word(b3: nat, b2: nat, b1: nat, b0: nat): nat {
    b3 * 0x100_0000 + b2 * 0x1_0000 + b1 * 0x100 + b0
  }

  lemma BytesOfWord(w: nat, b3: nat, b2: nat, b1: nat, b0: nat)
    requires b3 < 256 && b2 < 256 && b1 < 256 && b0 < 256
    requires w == Word(b3, b2, b1, b0)
    ensures w % 0x100 == b0 && w / 0x100 % 0x100 == b1 && w / 0x1_0000 % 0x100 == b2
    ensures w / 0x100_0000 == b3
    ensures w / 0x1_0000 == b3 * 0x100 + b2 && w / 0x100 == b3 * 0x1_0000 + b2 * 0x100 + b1
  {
    assert w / 0x100 == b3 * 0x1_0000 + b2 * 0x100 + b1;
    assert w / 0x1_0000 == b3 * 0x100 + b2;
    assert w / 0x100_0000 == b3;
  }

  lemma WordOfBytes(w: Dword)
    ensures w == Word(w / 0x100_0000, w / 0x1_0000 % 0x100, w / 0x100 % 0x100, w % 0x100)
  {
    var x := w / 0x100;
    var y := x / 0x100;
    assert y == w / 0x1_0000;
    assert y / 0x100 == w / 0x100_0000;
  }

  /** va_swap32: the four bytes in the opposite order. */
  function SwapBytes(w: Dword): Dword {
    Word(w % 0x100, w / 0x100 % 0x100, w / 0x1_0000 % 0x100, w / 0x100_0000)
  }

  lemma SwapTwice(w: Dword)
    ensures SwapBytes(SwapBytes(w)) == w
  {
    WordOfBytes(w);
    BytesOfWord(SwapBytes(w), w % 0x100, w / 0x100 % 0x100, w / 0x1_0000 % 0x100, w / 0x100_0000);
  }

  /** The byte of `w` at address offset k on a little-endian machine. */
  function MemoryByte(w: Dword, k: nat): (b: nat)
    requires k < 4
    ensures b < 256
  {
    if k == 0 then w % 0x100
    else if k == 1 then w / 0x100 % 0x100
    else if k == 2 then w / 0x1_0000 % 0x100
    else w / 0x100_0000
  }

  lemma SwapReversesMemory(w: Dword, k: nat)
    requires k < 4
    ensures MemoryByte(SwapBytes(w), k) == MemoryByte(w, 3 - k)
  {
    BytesOfWord(SwapBytes(w), w % 0x100, w / 0x100 % 0x100, w / 0x1_0000 % 0x100, w / 0x100_0000);
  }

  /** In memory a swapped word shows the bits of the original in writing order. */
  lemma SwappedInMemory(w: Dword, k: nat)
    requires k < 4
    ensures BitsOf(MemoryByte(SwapBytes(w), k), 8) == BitsOf(w, 32)[8 * k..8 * k + 8]
  {
    SwapReversesMemory(w, k);
    WordOfBytes(w);
    DownByte(w);
    DownByte(w / 0x100);
    DownByte(w / 0x1_0000);
    BitsSplit(w, 24, 8);
    BitsSplit(w / 0x100, 16, 8);
    BitsSplit(w / 0x1_0000, 8, 8);
    var x := w / 0x100;
    assert x / 0x100 == w / 0x1_0000;
    assert w / 0x1_0000 / 0x100 == w / 0x100_0000;
    assert BitsOf(w, 32) == BitsOf(w / 0x100_0000, 8) + BitsOf(w / 0x1_0000, 8) + BitsOf(x, 8) + BitsOf(w, 8);
  }

  lemma DownByte(w: nat)
    ensures Down(w, 8) == w / 0x100
    ensures BitsOf(w % 0x100, 8) == BitsOf(w, 8)
  {
    var w2 := w / 2 / 2;
    var w4 := w2 / 2 / 2;
    var w6 := w4 / 2 / 2;
    assert Down(w, 8) == Down(w / 2, 7) == Down(w2, 6);
    assert Down(w2, 6) == Down(w2 / 2, 5) == Down(w4, 4);
    assert Down(w4, 4) == Down(w4 / 2, 3) == Down(w6, 2);
    assert Down(w6, 2) == Down(w6 / 2, 1) == w6 / 2 / 2;
    assert Pow2(8) == 256;
    BitsIgnoreHigh(w, 8, 8);
  }
}
