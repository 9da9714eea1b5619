/**
 * Reading a bit string the way ITU-T H.264 says: the descriptors u(n), ue(v) and se(v) of sections 7.2
 * and 9.1, and a decoder driven by a syntax table that says, from the fields read so far, which field
 * comes next. The decoder knows nothing of the writer.
 */
module H264Syntax {
  import opened Bits
  import opened VaBitstreams

  datatype Option<+T> = None | Some(value: T)

  datatype Descriptor = DU(n: nat) | DUe | DSe

  function ReadBits(b: seq<bool>, n: nat): Option<(nat, seq<bool>)> {
    if |b| < n then None else Some((Value(b[..n]), b[n..]))
  }

  function LeadingZeros(b: seq<bool>): (n: nat)
    ensures n <= |b|
  {
    if b == [] || b[0] then 0 else 1 + LeadingZeros(b[1..])
  }

  /** Section 9.1: codeNum = 2^leadingZeroBits - 1 + read_bits(leadingZeroBits). */
  function ReadUe(b: seq<bool>): Option<(nat, seq<bool>)> {
    var zeros := LeadingZeros(b);
    if zeros == |b| then None
    else
      match ReadBits(b[zeros + 1..], zeros)
      case None => None
      case Some((v, rest)) => Some((Pow2(zeros) - 1 + v, rest))
  }

  /** Section 9.1.1: (-1)^(k+1) * Ceil(k / 2). */
  function SignedValue(k: nat): int {
    if k % 2 == 1 then (k + 1) / 2 else -(k / 2)
  }

  function Read(b: seq<bool>, d: Descriptor): Option<(int, seq<bool>)> {
    match d
    case DU(n) =>
      (match ReadBits(b, n)
       case None => None
       case Some((v, rest)) => Some((v, rest)))
    case DUe =>
      (match ReadUe(b)
       case None => None
       case Some((v, rest)) => Some((v, rest)))
    case DSe =>
      (match ReadUe(b)
       case None => None
       case Some((v, rest)) => Some((SignedValue(v), rest)))
  }

  // ---------------------------------------------------------------------------------------------
  // What a value in range looks like on the wire
  // ---------------------------------------------------------------------------------------------

  /** The value fits the size it is written with. */
  predicate InRange(e: Element) {
    Writable(e) && (e.U? ==> 0 < e.size && e.field < Pow2(e.size))
  }

  predicate AllInRange(es: seq<Element>) {
    forall i :: 0 <= i < |es| ==> InRange(es[i])
  }

  function CodeNumberBits(v: nat): (b: seq<bool>) {
    var n := BitLength(v + 1);
    Zeros(n - 1) + BitsOf(v + 1, n)
  }

  function ElementBits(e: Element): seq<bool> {
    match e
    case U(v, n) => BitsOf(v, n)
    case Ue(v) => CodeNumberBits(v)
    case Se(v) => CodeNumberBits(CodeNumber(v))
  }

  function CodeBits(es: seq<Element>): seq<bool> {
    if es == [] then [] else ElementBits(es[0]) + CodeBits(es[1..])
  }

  lemma Associative<T>(a: seq<T>, b: seq<T>, c: seq<T>)
    ensures (a + b) + c == a + (b + c)
  {
  }

  lemma OrWithZeros(b: seq<bool>)
    ensures OrBits(b, BitsOf(0, |b|)) == b
  {
    BitsOfZero(|b|);
  }

  lemma ConcatOneMore(words: seq<seq<bool>>, w: seq<bool>)
    requires |w| == 32 && forall i :: 0 <= i < |words| ==> |words[i]| == 32
    ensures Concat(words + [w]) == Concat(words) + w
  {
    assert (words + [w])[..|words|] == words;
  }

  lemma PutBitsClean(s: Stream, v: nat, n: nat)
    requires WellFormed(s) && 0 < n <= 32 && v < Pow2(n)
    ensures |s.tail| + n < 32 ==> PutBits(s, v, n) == Stream(s.words, s.tail + BitsOf(v, n))
    ensures |s.tail| + n >= 32 ==>
              var rest := |s.tail| + n - 32;
              PutBits(s, v, n) == Stream(s.words + [s.tail + BitsOf(Down(v, rest), n - rest)], BitsOf(v, rest))
  {
    DownIsZero(v, n);
    OrWithZeros(s.tail);
  }

  lemma FlatOfNewWord(s: Stream, high: seq<bool>, low: seq<bool>)
    requires WellFormed(s) && |s.tail + high| == 32 && |low| < 32
    ensures Flat(Stream(s.words + [s.tail + high], low)) == Flat(s) + (high + low)
  {
    var words := Concat(s.words);
    ConcatOneMore(s.words, s.tail + high);
    Associative(words, s.tail, high);
    Associative(words + s.tail, high, low);
  }

  lemma FlatOfSameWord(s: Stream, bits: seq<bool>)
    requires WellFormed(s) && |s.tail + bits| < 32
    ensures Flat(Stream(s.words, s.tail + bits)) == Flat(s) + bits
  {
    Associative(Concat(s.words), s.tail, bits);
  }

  lemma BitsSplitAt(v: nat, n: nat, k: nat)
    requires k <= n
    ensures BitsOf(v, n) == BitsOf(Down(v, k), n - k) + BitsOf(v, k)
  {
    BitsSplit(v, n - k, k);
  }

  lemma PutBitsInRange(s: Stream, v: nat, n: nat)
    requires WellFormed(s) && n <= 32 && v < Pow2(n)
    ensures Flat(PutBits(s, v, n)) == Flat(s) + BitsOf(v, n)
  {
    if n == 0 {
    } else if |s.tail| + n < 32 {
      PutBitsClean(s, v, n);
      FlatOfSameWord(s, BitsOf(v, n));
    } else {
      var rest := |s.tail| + n - 32;
      var high, low := BitsOf(Down(v, rest), n - rest), BitsOf(v, rest);
      var t := PutBits(s, v, n);
      assert t == Stream(s.words + [s.tail + high], low) by {
        PutBitsClean(s, v, n);
      }
      FlatOfNewWord(s, high, low);
      BitsSplitAt(v, n, rest);
    }
  }

  lemma PutCodeNumberAppends(s: Stream, v: nat)
    requires WellFormed(s) && v < CODE_LIMIT
    ensures Flat(PutCodeNumber(s, v)) == Flat(s) + CodeNumberBits(v)
  {
    var n := BitLength(v + 1);
    CodeLength(v);
    BitLengthBounds(v + 1);
    BitsOfZero(n - 1);
    var s1 := PutBits(s, 0, n - 1);
    PutBitsInRange(s, 0, n - 1);
    PutBitsInRange(s1, v + 1, n);
    Associative(Flat(s), Zeros(n - 1), BitsOf(v + 1, n));
  }

  lemma PutElementAppends(s: Stream, e: Element)
    requires WellFormed(s) && InRange(e)
    ensures Flat(PutElement(s, e)) == Flat(s) + ElementBits(e)
  {
    match e
    case U(v, n) => PutBitsInRange(s, v, n);
    case Ue(v) => PutCodeNumberAppends(s, v);
    case Se(v) => PutCodeNumberAppends(s, CodeNumber(v));
  }

  /** Calls with values in range just append their code words. */
  lemma {:induction false} RenderAppends(t: seq<Element>, es: seq<Element>)
    requires AllInRange(es)
    ensures Flat(Render(t + es)) == Flat(Render(t)) + CodeBits(es)
    decreases |es|
  {
    if es == [] {
      assert t + es == t;
    } else {
      var t1 := t + [es[0]];
      RenderAppend(t, es[0]);
      PutElementAppends(Render(t), es[0]);
      RenderAppends(t1, es[1..]);
      assert [es[0]] + es[1..] == es;
      Associative(t, [es[0]], es[1..]);
      Associative(Flat(Render(t)), ElementBits(es[0]), CodeBits(es[1..]));
    }
  }

  // ---------------------------------------------------------------------------------------------
  // Reading one field back
  // ---------------------------------------------------------------------------------------------

  function DescriptorOf(e: Element): Descriptor {
    match e
    case U(_, n) => DU(n)
    case Ue(_) => DUe
    case Se(_) => DSe
  }

  function ValueOf(e: Element): int {
    match e
    case U(v, _) => v
    case Ue(v) => v
    case Se(v) => v
  }

  lemma ReadBitsBack(v: nat, n: nat, rest: seq<bool>)
    requires v < Pow2(n)
    ensures ReadBits(BitsOf(v, n) + rest, n) == Some((v, rest))
  {
    var b := BitsOf(v, n) + rest;
    assert b[..n] == BitsOf(v, n) && b[n..] == rest;
    ValueOfBits(v, n);
    Arithmetic.DivMod(v, 0, v, Pow2(n));
  }

  lemma {:induction false} LeadingZerosOf(n: nat, b: seq<bool>)
    requires b != [] && b[0]
    ensures LeadingZeros(Zeros(n) + b) == n
  {
    if n > 0 {
      assert (Zeros(n) + b)[1..] == Zeros(n - 1) + b;
      LeadingZerosOf(n - 1, b);
    } else {
      assert Zeros(0) + b == b;
    }
  }

  /** A number of exactly n + 1 bits is a one followed by its n low bits. */
  lemma {:induction false} TopBit(v: nat, n: nat)
    requires Pow2(n) <= v < Pow2(n + 1)
    ensures BitsOf(v, n + 1) == [true] + BitsOf(v - Pow2(n), n)
  {
    if n > 0 {
      TopBit(v / 2, n - 1);
      assert (v - Pow2(n)) / 2 == v / 2 - Pow2(n - 1);
      assert (v - Pow2(n)) % 2 == v % 2;
    } else {
      assert BitsOf(1, 1) == BitsOf(0, 0) + [true];
    }
  }

  lemma ReadUeOf(n: nat, x: nat, rest: seq<bool>)
    requires x < Pow2(n)
    ensures ReadUe(Zeros(n) + ([true] + (BitsOf(x, n) + rest))) == Some((Pow2(n) - 1 + x, rest))
  {
    var behind := BitsOf(x, n) + rest;
    var b := Zeros(n) + ([true] + behind);
    LeadingZerosOf(n, [true] + behind);
    assert LeadingZeros(b) == n < |b|;
    assert b[n + 1..] == behind;
    ReadBitsBack(x, n, rest);
  }

  lemma CodeNumberTop(v: nat) returns (n: nat, x: nat)
    ensures x < Pow2(n) && Pow2(n) + x == v + 1 && BitLength(v + 1) == n + 1
    ensures BitsOf(v + 1, n + 1) == [true] + BitsOf(x, n)
  {
    BitLengthBounds(v + 1);
    n := BitLength(v + 1) - 1;
    TopBit(v + 1, n);
    x := v + 1 - Pow2(n);
  }

  lemma CodeNumberRegroups(zeros: seq<bool>, low: seq<bool>, rest: seq<bool>)
    ensures (zeros + ([true] + low)) + rest == zeros + ([true] + (low + rest))
  {
    Associative(zeros, [true] + low, rest);
    Associative([true], low, rest);
  }

  lemma CodeNumberParts(v: nat, rest: seq<bool>) returns (n: nat, x: nat)
    ensures x < Pow2(n) && Pow2(n) + x == v + 1
    ensures CodeNumberBits(v) + rest == Zeros(n) + ([true] + (BitsOf(x, n) + rest))
  {
    n, x := CodeNumberTop(v);
    CodeNumberRegroups(Zeros(n), BitsOf(x, n), rest);
  }

  lemma ReadUeBack(v: nat, rest: seq<bool>)
    ensures ReadUe(CodeNumberBits(v) + rest) == Some((v, rest))
  {
    var n, x := CodeNumberParts(v, rest);
    ReadUeOf(n, x, rest);
  }

  lemma SignedValueOfCodeNumber(v: int)
    ensures SignedValue(CodeNumber(v)) == v
  {
  }

  /** Every element in range is read back, and reading it leaves what follows. */
  lemma ReadBack(e: Element, rest: seq<bool>)
    requires InRange(e)
    ensures Read(ElementBits(e) + rest, DescriptorOf(e)) == Some((ValueOf(e), rest))
    ensures ElementBits(e) != []
  {
    match e
    case U(v, n) => ReadBitsBack(v, n, rest);
    case Ue(v) =>
      BitLengthBounds(v + 1);
      ReadUeBack(v, rest);
    case Se(v) =>
      BitLengthBounds(CodeNumber(v) + 1);
      ReadUeBack(CodeNumber(v), rest);
      SignedValueOfCodeNumber(v);
  }

  // ---------------------------------------------------------------------------------------------
  // Reading a whole syntax structure back
  // ---------------------------------------------------------------------------------------------

  /** What a syntax table asks for next. Structures outside this model are Unsupported. */
  datatype Next<+N> = Field(name: N, descriptor: Descriptor) | End | Unsupported

  type Fields<N> = seq<(N, int)>

  type Table<!N> = (Fields<N>, seq<bool>) -> Next<N>

  function Decode<N>(table: Table<N>, done: Fields<N>, b: seq<bool>): Option<(Fields<N>, seq<bool>)>
    decreases |b|
  {
    match table(done, b)
    case End => Some((done, b))
    case Unsupported => None
    case Field(name, d) =>
      match Read(b, d)
      case None => None
      case Some((v, rest)) => if |rest| < |b| then Decode(table, done + [(name, v)], rest) else None
  }

  type Named<N> = seq<(N, Element)>

  function Values<N>(es: Named<N>): (vs: Fields<N>)
    ensures |vs| == |es| && forall i :: 0 <= i < |es| ==> vs[i] == (es[i].0, ValueOf(es[i].1))
  {
    seq(|es|, i requires 0 <= i < |es| => (es[i].0, ValueOf(es[i].1)))
  }

  function Elements<N>(es: Named<N>): (us: seq<Element>)
    ensures |us| == |es| && forall i :: 0 <= i < |es| ==> us[i] == es[i].1
  {
    seq(|es|, i requires 0 <= i < |es| => es[i].1)
  }

  /** Read from `done` on, the table asks for exactly the fields of `es`, as `rest` follows them. */
  ghost predicate Follows<N(!new)>(table: Table<N>, done: Fields<N>, es: Named<N>, rest: seq<bool>) {
    forall i :: 0 <= i < |es| ==>
      table(done + Values(es[..i]), CodeBits(Elements(es[i..])) + rest) == Field(es[i].0, DescriptorOf(es[i].1))
  }

  lemma {:induction false} CodeBitsConcat(a: seq<Element>, b: seq<Element>)
    ensures CodeBits(a + b) == CodeBits(a) + CodeBits(b)
  {
    if a == [] {
      assert a + b == b;
    } else {
      assert (a + b)[1..] == a[1..] + b && (a + b)[0] == a[0];
      CodeBitsConcat(a[1..], b);
      Associative(ElementBits(a[0]), CodeBits(a[1..]), CodeBits(b));
    }
  }

  /** One field: the decoder reads it and stands before the next. */
  lemma DecodeOne<N(!new)>(table: Table<N>, done: Fields<N>, es: Named<N>, rest: seq<bool>)
    requires es != [] && AllInRange(Elements(es))
    requires table(done, CodeBits(Elements(es)) + rest) == Field(es[0].0, DescriptorOf(es[0].1))
    ensures Decode(table, done, CodeBits(Elements(es)) + rest)
         == Decode(table, done + [(es[0].0, ValueOf(es[0].1))], CodeBits(Elements(es[1..])) + rest)
  {
    var head, behind := ElementBits(es[0].1), CodeBits(Elements(es[1..])) + rest;
    assert Elements(es)[0] == es[0].1 && Elements(es)[1..] == Elements(es[1..]);
    Associative(head, CodeBits(Elements(es[1..])), rest);
    assert InRange(Elements(es)[0]);
    ReadBack(es[0].1, behind);
  }

  /** The decoder gets through `es` to the bits behind it, having read its values. */
  lemma {:induction false} DecodeThrough<N(!new)>(table: Table<N>, done: Fields<N>, es: Named<N>, rest: seq<bool>)
    requires AllInRange(Elements(es)) && Follows(table, done, es, rest)
    ensures Decode(table, done, CodeBits(Elements(es)) + rest) == Decode(table, done + Values(es), rest)
    decreases |es|
  {
    if es == [] {
      assert done + Values(es) == done;
      assert CodeBits(Elements(es)) + rest == rest;
    } else {
      var field := (es[0].0, ValueOf(es[0].1));
      assert done + Values(es[..0]) == done && es[0..] == es;
      DecodeOne(table, done, es, rest);
      assert Elements(es)[1..] == Elements(es[1..]);
      FollowsTail(table, done, es, rest);
      DecodeThrough(table, done + [field], es[1..], rest);
      assert [field] + Values(es[1..]) == Values(es);
      Associative(done, [field], Values(es[1..]));
    }
  }

  lemma FollowsTail<N(!new)>(table: Table<N>, done: Fields<N>, es: Named<N>, rest: seq<bool>)
    requires es != [] && Follows(table, done, es, rest)
    ensures Follows(table, done + [(es[0].0, ValueOf(es[0].1))], es[1..], rest)
  {
    var tail, field := es[1..], (es[0].0, ValueOf(es[0].1));
    forall i | 0 <= i < |tail|
      ensures table(done + [field] + Values(tail[..i]), CodeBits(Elements(tail[i..])) + rest)
           == Field(tail[i].0, DescriptorOf(tail[i].1))
    {
      assert [field] + Values(tail[..i]) == Values(es[..i + 1]);
      Associative(done, [field], Values(tail[..i]));
      assert tail[i..] == es[i + 1..];
    }
  }

  // ---------------------------------------------------------------------------------------------
  // Tables that look at the last field only
  // ---------------------------------------------------------------------------------------------

  /** What comes after a field with its value, once the rest of the context is fixed. */
  type After<!N> = (N, int) -> Next<N>

  function Last<N>(prev: (N, int), es: Named<N>): (N, int) {
    if es == [] then prev else (es[|es| - 1].0, ValueOf(es[|es| - 1].1))
  }

  /** Field i of `es` is the one that comes after its predecessor. */
  ghost predicate Link<N(!new)>(after: After<N>, prev: (N, int), es: Named<N>, i: nat)
    requires i < |es|
  {
    var (name, v) := Last(prev, es[..i]);
    after(name, v) == Field(es[i].0, DescriptorOf(es[i].1))
  }

  ghost predicate Chain<N(!new)>(after: After<N>, prev: (N, int), es: Named<N>) {
    forall i :: 0 <= i < |es| ==> Link(after, prev, es, i)
  }

  /** Chains compose: the second starts from the last field of the first. */
  lemma ChainConcat<N(!new)>(after: After<N>, prev: (N, int), a: Named<N>, b: Named<N>)
    requires Chain(after, prev, a) && Chain(after, Last(prev, a), b)
    ensures Chain(after, prev, a + b) && Last(prev, a + b) == Last(Last(prev, a), b)
  {
    forall i | 0 <= i < |a + b| ensures Link(after, prev, a + b, i) {
      if i < |a| {
        assert (a + b)[..i] == a[..i] && Link(after, prev, a, i);
      } else {
        assert (a + b)[..i] == a + b[..i - |a|] && Link(after, Last(prev, a), b, i - |a|);
      }
    }
  }

  lemma LinkIsAsked<N(!new)>(table: Table<N>, after: After<N>, done: Fields<N>, es: Named<N>, b: seq<bool>, i: nat)
    requires done != [] && i < |es| && Link(after, done[|done| - 1], es, i)
    requires forall d: Fields<N>, b :: done <= d ==> table(d, b) == after(d[|d| - 1].0, d[|d| - 1].1)
    ensures table(done + Values(es[..i]), b) == Field(es[i].0, DescriptorOf(es[i].1))
  {
    var d := done + Values(es[..i]);
    assert d[|d| - 1] == Last(done[|done| - 1], es[..i]);
    assert done <= d;
  }

  /** A table that agrees with `after` behind `done` asks for the fields of a chain. */
  lemma ChainFollows<N(!new)>(table: Table<N>, after: After<N>, done: Fields<N>, es: Named<N>, rest: seq<bool>)
    requires done != [] && Chain(after, done[|done| - 1], es)
    requires forall d: Fields<N>, b :: done <= d ==> table(d, b) == after(d[|d| - 1].0, d[|d| - 1].1)
    ensures Follows(table, done, es, rest)
  {
    forall i | 0 <= i < |es|
      ensures table(done + Values(es[..i]), CodeBits(Elements(es[i..])) + rest) == Field(es[i].0, DescriptorOf(es[i].1))
    {
      assert Link(after, done[|done| - 1], es, i);
      LinkIsAsked(table, after, done, es, CodeBits(Elements(es[i..])) + rest, i);
    }
  }

  /**
   * A structure whose first fields `a` the table asks for, and whose other fields `b` are a chain up to
   * the end, is read back, whatever follows it.
   */
  lemma ChainReadsBack<N(!new)>(table: Table<N>, after: After<N>, a: Named<N>, b: Named<N>, rest: seq<bool>)
    requires a != [] && AllInRange(Elements(a)) && AllInRange(Elements(b))
    requires Follows(table, [], a, CodeBits(Elements(b)) + rest)
    requires var head := Values(a);
             && Chain(after, head[|a| - 1], b)
             && (forall d: Fields<N>, bits :: head <= d ==> table(d, bits) == after(d[|d| - 1].0, d[|d| - 1].1))
             && (var (name, v) := Last(head[|a| - 1], b); after(name, v) == End)
    ensures Decode(table, [], CodeBits(Elements(a + b)) + rest) == Some((Values(a + b), rest))
  {
    var head := Values(a);
    StretchesConcat(a, b, rest);
    DecodeThrough(table, [], a, CodeBits(Elements(b)) + rest);
    assert [] + head == head;
    ChainFollows(table, after, head, b, rest);
    DecodeThrough(table, head, b, rest);
    TableEnds(table, after, head, b, rest);
    ValuesConcat(a, b);
  }

  lemma StretchesConcat<N>(a: Named<N>, b: Named<N>, rest: seq<bool>)
    ensures CodeBits(Elements(a + b)) + rest == CodeBits(Elements(a)) + (CodeBits(Elements(b)) + rest)
  {
    ElementsConcat(a, b);
    CodeBitsConcat(Elements(a), Elements(b));
    Associative(CodeBits(Elements(a)), CodeBits(Elements(b)), rest);
  }

  lemma TableEnds<N(!new)>(table: Table<N>, after: After<N>, head: Fields<N>, es: Named<N>, rest: seq<bool>)
    requires head != []
    requires forall d: Fields<N>, b :: head <= d ==> table(d, b) == after(d[|d| - 1].0, d[|d| - 1].1)
    requires var (name, v) := Last(head[|head| - 1], es); after(name, v) == End
    ensures Decode(table, head + Values(es), rest) == Some((head + Values(es), rest))
  {
    var d := head + Values(es);
    assert head <= d && d[|d| - 1] == Last(head[|head| - 1], es);
  }

  lemma ElementsConcat<N>(a: Named<N>, b: Named<N>)
    ensures Elements(a + b) == Elements(a) + Elements(b)
  {
  }

  lemma InRangeConcat<N>(a: Named<N>, b: Named<N>)
    requires AllInRange(Elements(a)) && AllInRange(Elements(b))
    ensures AllInRange(Elements(a + b))
  {
    ElementsConcat(a, b);
  }

  lemma ValuesConcat<N>(a: Named<N>, b: Named<N>)
    ensures Values(a + b) == Values(a) + Values(b)
  {
  }
}
