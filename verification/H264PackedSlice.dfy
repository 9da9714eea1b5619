/**
 * The packed slice header as a NAL unit (build_packed_slice_buffer), and what a decoder gets out of the
 * bits in memory. TopFieldOrderCnt is written with put_ui into 8 bits and not masked, so from 256 on its
 * high bits run into the frame number in front of it.
 */
module H264PackedSlice {
  import opened Bits
  import opened VaBitstreams
  import opened H264Syntax
  import opened H264ParameterSets
  import opened H264SliceHeader

  const NAL_NON_IDR := 1
  const NAL_IDR := 5

  function NalRefIdc(s: SliceParam, f: PictureFlags): (n: nat)
    ensures n < 4
  {
    match s.sliceType
    case SliceI => 3
    case SliceP => 2
    case SliceB => if f.reference then 1 else 0
  }

  function NalUnitType(s: SliceParam, f: PictureFlags): (n: nat)
    ensures n < 32
  {
    if s.sliceType.SliceI? && f.idr then NAL_IDR else NAL_NON_IDR
  }

  /** Start code and NAL unit header. */
  function UnitHead(nalRefIdc: nat, nalUnitType: nat): seq<Element>
    requires nalRefIdc < 4 && nalUnitType < 32
  {
    [U(1, 32), U(0, 1), U(nalRefIdc, 2), U(nalUnitType, 5)]
  }

  function SliceUnitFields(s: SliceParam, f: PictureFlags): seq<Element>
    requires SliceParamOk(s)
  {
    UnitHead(NalRefIdc(s, f), NalUnitType(s, f)) + Elements(SliceFields(s, f))
  }

  /** All that build_packed_slice_buffer writes: with CABAC the header is aligned with one bits. */
  function SliceUnit(s: SliceParam, f: PictureFlags): seq<Element>
    requires SliceParamOk(s)
  {
    SliceUnitFields(s, f) + SliceAlignment(s, f)
  }

  // ---------------------------------------------------------------------------------------------
  // The decoder
  // ---------------------------------------------------------------------------------------------

  /** NAL unit header, slice header, and the bits of the slice data. */
  datatype SliceRead = SliceRead(nalRefIdc: nat, nalUnitType: nat, fields: Fields<SliceName>, data: seq<bool>)

  /** Annex B start code and NAL unit header: nal_ref_idc, nal_unit_type and what follows. */
  function DecodeUnitHead(b: seq<bool>): Option<(nat, nat, seq<bool>)> {
    match ReadBits(b, 32)
    case None => None
    case Some((startCode, b1)) =>
      match ReadBits(b1, 1)
      case None => None
      case Some((forbidden, b2)) =>
        match ReadBits(b2, 2)
        case None => None
        case Some((refIdc, b3)) =>
          match ReadBits(b3, 5)
          case None => None
          case Some((unitType, b4)) => if startCode != 1 || forbidden != 0 then None else Some((refIdc, unitType, b4))
  }

  /** Section 7.3.4: with CABAC, ones up to the byte boundary stand in front of the slice data. */
  function Aligned(position: nat, b: seq<bool>): Option<seq<bool>>
    decreases |b|
  {
    if position % 8 == 0 then Some(b)
    else if b == [] || !b[0] then None
    else Aligned(position + 1, b[1..])
  }

  /** Slice header and slice data behind a NAL unit header of `before` bits. */
  function DecodeSlice(c: Context, unitType: nat, before: nat, b: seq<bool>): Option<SliceRead> {
    match Decode(SliceTable(c), [], b)
    case None => None
    case Some((fields, behind)) =>
      var position := if |behind| <= |b| then before + |b| - |behind| else 0;
      match (if c.entropyCoding then Aligned(position, behind) else Some(behind))
      case None => None
      case Some(data) => Some(SliceRead(c.nalRefIdc, unitType, fields, data))
  }

  /** With the numbers of bits that the encoder announces. Type 5 is an IDR picture. */
  function DecodeSliceBody(before: nat, refIdc: nat, unitType: nat, b: seq<bool>, entropyCoding: bool, deblockingControl: bool): Option<SliceRead> {
    DecodeSlice(Context(FRAME_NUM_BITS, POC_LSB_BITS, entropyCoding, deblockingControl, unitType == 5, refIdc), unitType, before, b)
  }

  function DecodeSliceUnit(b: seq<bool>, entropyCoding: bool, deblockingControl: bool): Option<SliceRead> {
    match DecodeUnitHead(b)
    case None => None
    case Some((refIdc, unitType, rest)) =>
      DecodeSliceBody(if |rest| <= |b| then |b| - |rest| else 0, refIdc, unitType, rest, entropyCoding, deblockingControl)
  }

  lemma CodeBitsOfOneMore(e: Element, es: seq<Element>)
    ensures CodeBits([e] + es) == ElementBits(e) + CodeBits(es)
  {
    assert ([e] + es)[0] == e && ([e] + es)[1..] == es;
  }

  lemma UnitHeadBits(refIdc: nat, unitType: nat)
    requires refIdc < 4 && unitType < 32
    ensures AllInRange(UnitHead(refIdc, unitType))
    ensures CodeBits(UnitHead(refIdc, unitType))
         == BitsOf(1, 32) + (BitsOf(0, 1) + (BitsOf(refIdc, 2) + BitsOf(unitType, 5)))
  {
    Powers();
    Pow2Of32();
    CodeBitsOfOneMore(U(unitType, 5), []);
    CodeBitsOfOneMore(U(refIdc, 2), [U(unitType, 5)]);
    CodeBitsOfOneMore(U(0, 1), [U(refIdc, 2), U(unitType, 5)]);
    CodeBitsOfOneMore(U(1, 32), [U(0, 1), U(refIdc, 2), U(unitType, 5)]);
    assert [U(refIdc, 2)] + [U(unitType, 5)] == [U(refIdc, 2), U(unitType, 5)];
    assert [U(0, 1)] + [U(refIdc, 2), U(unitType, 5)] == [U(0, 1), U(refIdc, 2), U(unitType, 5)];
    assert [U(1, 32)] + [U(0, 1), U(refIdc, 2), U(unitType, 5)] == UnitHead(refIdc, unitType);
    assert [U(unitType, 5)] + [] == [U(unitType, 5)];
    assert BitsOf(unitType, 5) + [] == BitsOf(unitType, 5);
  }

  lemma UnitHeadReadsBack(refIdc: nat, unitType: nat, rest: seq<bool>)
    requires refIdc < 4 && unitType < 32
    ensures DecodeUnitHead(CodeBits(UnitHead(refIdc, unitType)) + rest) == Some((refIdc, unitType, rest))
  {
    Powers();
    Pow2Of32();
    UnitHeadBits(refIdc, unitType);
    var b3 := BitsOf(unitType, 5) + rest;
    var b2 := BitsOf(refIdc, 2) + b3;
    var b1 := BitsOf(0, 1) + b2;
    var b := CodeBits(UnitHead(refIdc, unitType)) + rest;
    Associative(BitsOf(1, 32), BitsOf(0, 1) + (BitsOf(refIdc, 2) + BitsOf(unitType, 5)), rest);
    Associative(BitsOf(0, 1), BitsOf(refIdc, 2) + BitsOf(unitType, 5), rest);
    Associative(BitsOf(refIdc, 2), BitsOf(unitType, 5), rest);
    assert b == BitsOf(1, 32) + b1;
    ReadBitsBack(1, 32, b1);
    assert ReadBits(b, 32) == Some((1, b1));
    ReadBitsBack(0, 1, b2);
    assert ReadBits(b1, 1) == Some((0, b2));
    ReadBitsBack(refIdc, 2, b3);
    assert ReadBits(b2, 2) == Some((refIdc, b3));
    ReadBitsBack(unitType, 5, rest);
    assert ReadBits(b3, 5) == Some((unitType, rest));
  }

  /** What the encoder's fillPPS keeps: only I slices are IDR, and only B slices may be non-reference. */
  predicate FlagsFit(s: SliceParam, f: PictureFlags) {
    (f.idr ==> s.sliceType.SliceI?) && (!f.reference ==> s.sliceType.SliceB?)
  }

  lemma AlignmentInRange(offset: nat, bit: bool)
    ensures AllInRange(Alignment(offset, bit))
  {
    if offset % 8 != 0 {
      Pow2Monotone(0, 8 - offset % 8);
    }
  }

  function SliceAlignment(s: SliceParam, f: PictureFlags): seq<Element>
    requires SliceParamOk(s)
  {
    if f.entropyCoding then Alignment(Length(Render(SliceUnitFields(s, f))), true) else []
  }

  lemma SliceUnitBits(s: SliceParam, f: PictureFlags)
    requires AllFit(s)
    ensures Flat(Render(SliceUnit(s, f)))
         == CodeBits(UnitHead(NalRefIdc(s, f), NalUnitType(s, f)))
            + (CodeBits(Elements(SliceFields(s, f))) + CodeBits(SliceAlignment(s, f)))
  {
    var head, fields, align := UnitHead(NalRefIdc(s, f), NalUnitType(s, f)), Elements(SliceFields(s, f)), SliceAlignment(s, f);
    UnitHeadBits(NalRefIdc(s, f), NalUnitType(s, f));
    SliceInRange(s, f);
    AlignmentInRange(Length(Render(SliceUnitFields(s, f))), true);
    var all := head + fields + align;
    AppendToNothing(all);
    CodeBitsConcat(head + fields, align);
    CodeBitsConcat(head, fields);
    Associative(CodeBits(head), CodeBits(fields), CodeBits(align));
  }

  lemma AppendToNothing(es: seq<Element>)
    requires AllInRange(es)
    ensures Flat(Render(es)) == CodeBits(es)
  {
    NothingWritten();
    RenderAppends([], es);
    assert [] + es == es;
  }

  lemma NothingWritten()
    ensures Flat(Render([])) == []
  {
  }

  function Ones(n: nat): seq<bool> {
    seq(n, _ => true)
  }

  lemma {:induction false} AllOnesBits(n: nat)
    ensures BitsOf(Pow2(n) - 1, n) == Ones(n)
  {
    if n > 0 {
      AllOnesBits(n - 1);
      assert (Pow2(n) - 1) / 2 == Pow2(n - 1) - 1 && (Pow2(n) - 1) % 2 == 1;
      assert Ones(n) == Ones(n - 1) + [true];
    }
  }

  lemma {:induction false} OnesAreSkipped(position: nat, n: nat, rest: seq<bool>)
    requires n < 8 && (position + n) % 8 == 0
    ensures Aligned(position, Ones(n) + rest) == Some(rest)
    decreases n
  {
    if n == 0 {
      assert Ones(0) + rest == rest;
    } else {
      assert (Ones(n) + rest)[0] && (Ones(n) + rest)[1..] == Ones(n - 1) + rest;
      OnesAreSkipped(position + 1, n - 1, rest);
    }
  }

  lemma OneElementBits(e: Element)
    ensures CodeBits([e]) == ElementBits(e)
  {
    CodeBitsOfOneMore(e, []);
    assert [e] + [] == [e] && ElementBits(e) + [] == ElementBits(e);
  }

  lemma AlignmentIsSkipped(position: nat, rest: seq<bool>)
    ensures Aligned(position, CodeBits(Alignment(position, true)) + rest) == Some(rest)
  {
    if position % 8 == 0 {
      assert CodeBits(Alignment(position, true)) + rest == rest;
    } else {
      var n := 8 - position % 8;
      AllOnesBits(n);
      OneElementBits(U(AllOnes(n), n));
      OnesAreSkipped(position, n, rest);
    }
  }

  lemma FieldsLength(s: SliceParam, f: PictureFlags)
    requires AllFit(s)
    ensures Length(Render(SliceUnitFields(s, f))) == 40 + |CodeBits(Elements(SliceFields(s, f)))|
  {
    var head, fields := UnitHead(NalRefIdc(s, f), NalUnitType(s, f)), Elements(SliceFields(s, f));
    UnitHeadBits(NalRefIdc(s, f), NalUnitType(s, f));
    SliceInRange(s, f);
    AppendToNothing(head + fields);
    CodeBitsConcat(head, fields);
  }

  lemma SliceAlignmentIsSkipped(s: SliceParam, f: PictureFlags, rest: seq<bool>)
    requires AllFit(s)
    ensures var behind := CodeBits(SliceAlignment(s, f)) + rest;
            if f.entropyCoding then Aligned(40 + |CodeBits(Elements(SliceFields(s, f)))|, behind) == Some(rest) else behind == rest
  {
    FieldsLength(s, f);
    if f.entropyCoding {
      AlignmentIsSkipped(Length(Render(SliceUnitFields(s, f))), rest);
    } else {
      assert CodeBits(SliceAlignment(s, f)) + rest == rest;
    }
  }

  lemma BodyOf(c: Context, unitType: nat, fields: Fields<SliceName>, bits: seq<bool>, behind: seq<bool>, data: seq<bool>)
    requires c == Context(FRAME_NUM_BITS, POC_LSB_BITS, c.entropyCoding, c.deblockingControl, unitType == 5, c.nalRefIdc)
    requires Decode(SliceTable(c), [], bits + behind) == Some((fields, behind))
    requires if c.entropyCoding then Aligned(40 + |bits|, behind) == Some(data) else behind == data
    ensures DecodeSliceBody(40, c.nalRefIdc, unitType, bits + behind, c.entropyCoding, c.deblockingControl)
         == Some(SliceRead(c.nalRefIdc, unitType, fields, data))
  {
  }

  lemma SliceBodyReadsBack(s: SliceParam, f: PictureFlags, rest: seq<bool>)
    requires AllFit(s) && FlagsFit(s, f)
    ensures DecodeSliceBody(40, NalRefIdc(s, f), NalUnitType(s, f),
                            CodeBits(Elements(SliceFields(s, f))) + (CodeBits(SliceAlignment(s, f)) + rest), f.entropyCoding, f.deblockingControl)
         == Some(SliceRead(NalRefIdc(s, f), NalUnitType(s, f), Values(SliceFields(s, f)), rest))
  {
    var ref, unitType := NalRefIdc(s, f), NalUnitType(s, f);
    var c := Context(FRAME_NUM_BITS, POC_LSB_BITS, f.entropyCoding, f.deblockingControl, unitType == 5, ref);
    var behind := CodeBits(SliceAlignment(s, f)) + rest;
    SliceReadsBack(c, s, f, behind);
    SliceAlignmentIsSkipped(s, f, rest);
    BodyOf(c, unitType, Values(SliceFields(s, f)), CodeBits(Elements(SliceFields(s, f))), behind, rest);
  }

  lemma Regroup(a: seq<bool>, b: seq<bool>, c: seq<bool>, d: seq<bool>)
    ensures (a + (b + c)) + d == a + (b + (c + d))
  {
    Associative(a, b + c, d);
    Associative(b, c, d);
  }

  /**
   * When all values fit, the decoder reads every field back, the NAL unit header agrees with them, and the
   * slice data start where the unit ends.
   */
  lemma SliceUnitReadsBack(s: SliceParam, f: PictureFlags, rest: seq<bool>)
    requires AllFit(s) && FlagsFit(s, f)
    ensures DecodeSliceUnit(Flat(Render(SliceUnit(s, f))) + rest, f.entropyCoding, f.deblockingControl)
         == Some(SliceRead(match s.sliceType case SliceI => 3 case SliceP => 2 case SliceB => if f.reference then 1 else 0,
                           if f.idr then 5 else 1, Values(SliceFields(s, f)), rest))
  {
    var ref, unitType := NalRefIdc(s, f), NalUnitType(s, f);
    var fields, align := CodeBits(Elements(SliceFields(s, f))), CodeBits(SliceAlignment(s, f));
    SliceUnitBits(s, f);
    Regroup(CodeBits(UnitHead(ref, unitType)), fields, align, rest);
    UnitHeadReadsBack(ref, unitType, fields + (align + rest));
    UnitHeadBits(ref, unitType);
    SliceBodyReadsBack(s, f, rest);
  }

  // ---------------------------------------------------------------------------------------------
  // A picture order count above 255
  // ---------------------------------------------------------------------------------------------

  /** The low part of what is written does not see the bits above it. */
  lemma LowBitsOnly(p: nat, rest: nat)
    requires rest <= 8
    ensures BitsOf(p % 0x100, rest) == BitsOf(p, rest)
    ensures BitsOf(Down(p % 0x100, rest), 8 - rest) == BitsOf(Down(p, rest), 8 - rest)
  {
    Powers();
    BitsIgnoreHigh(p, 8, 8);
    BitsSplitAt(p, 8, rest);
    BitsSplitAt(p % 0x100, 8, rest);
    var a, b := BitsOf(Down(p, rest), 8 - rest), BitsOf(p, rest);
    assert a + b == BitsOf(p % 0x100, 8);
    assert (a + b)[..8 - rest] == a && (a + b)[8 - rest..] == b;
    var c, d := BitsOf(Down(p % 0x100, rest), 8 - rest), BitsOf(p % 0x100, rest);
    assert (c + d)[..8 - rest] == c && (c + d)[8 - rest..] == d;
  }

  /** The bits or-ed in front of the 8 bits of p hit the 16 bits of n only. */
  lemma MixedFrameNum(tail: seq<bool>, n: nat, p: nat)
    requires p < 0x100_0000
    ensures OrBits(tail + BitsOf(n, 16), BitsOf(Down(p, 8), |tail| + 16)) == tail + BitsOf(Or(n, Down(p, 8)), 16)
  {
    var high := Down(p, 8);
    HighByteIsZero(p);
    BitsSplit(high, |tail|, 16);
    OrConcat(tail, BitsOf(n, 16), BitsOf(0, |tail|), BitsOf(high, 16));
    OrWithZeros(tail);
    BitsOfOr(n, high, 16);
  }

  lemma OrConcat(a: seq<bool>, b: seq<bool>, c: seq<bool>, d: seq<bool>)
    requires |a| == |c| && |b| == |d|
    ensures OrBits(a + b, c + d) == OrBits(a, c) + OrBits(b, d)
  {
  }

  lemma HighByteIsZero(p: nat)
    requires p < 0x100_0000
    ensures Down(Down(p, 8), 16) == 0
  {
    Powers();
    Pow2Add(8, 8);
    Pow2Add(16, 8);
    DownDown(p, 8, 16);
    DownIsZero(p, 24);
  }

  /** Writing an order count that is too large is writing another frame number and its low 8 bits. */
  lemma OverflowIsOr(s: Stream, n: nat, p: nat)
    requires WellFormed(s) && |s.tail| + 16 < 32 && n < 0x1_0000 && p < 0x100_0000
    ensures Or(n, Down(p, 8)) < 0x1_0000
    ensures PutBits(PutBits(s, n, 16), p, 8) == PutBits(PutBits(s, Or(n, Down(p, 8)), 16), p % 0x100, 8)
  {
    var m := Or(n, Down(p, 8));
    OrStaysSmall(n, p);
    PutFrameNum(s, n);
    PutFrameNum(s, m);
    var rest := if |s.tail| + 24 < 32 then 8 else |s.tail| + 24 - 32;
    LowBitsOnly(p, rest);
    MixedFrameNum(s.tail, n, p);
    Powers();
    DownIsZero(p % 0x100, 8);
    OrWithZeros(s.tail + BitsOf(m, 16));
  }

  lemma PutFrameNum(s: Stream, n: nat)
    requires WellFormed(s) && |s.tail| + 16 < 32 && n < 0x1_0000
    ensures PutBits(s, n, 16) == s.(tail := s.tail + BitsOf(n, 16))
  {
    Pow2Add(8, 8);
    Powers();
    PutBitsClean(s, n, 16);
  }

  lemma OrStaysSmall(n: nat, p: nat)
    requires n < 0x1_0000 && p < 0x100_0000
    ensures Or(n, Down(p, 8)) < 0x1_0000
  {
    Powers();
    Pow2Add(8, 8);
    HighByteIsZero(p);
    DownIsZero(Down(p, 8), 16);
    OrBelow(n, Down(p, 8), 16);
  }

  /** What is written later depends on the bits so far only, not on how they got there. */
  lemma {:induction false} RenderSame(a: seq<Element>, b: seq<Element>, es: seq<Element>)
    requires Render(a) == Render(b)
    ensures Render(a + es) == Render(b + es)
    decreases |es|
  {
    if es == [] {
      assert a + es == a && b + es == b;
    } else {
      var e, rest := es[0], es[1..];
      RenderAppend(a, e);
      RenderAppend(b, e);
      RenderSame(a + [e], b + [e], rest);
      assert [e] + rest == es;
      Associative(a, [e], rest);
      Associative(b, [e], rest);
    }
  }

  /** Everything in front of frame_num. */
  function UnitStart(s: SliceParam, f: PictureFlags): seq<Element>
    requires SliceParamOk(s)
  {
    UnitHead(NalRefIdc(s, f), NalUnitType(s, f)) + Elements(SliceStart(s))
  }

  lemma UnitStartLength(s: SliceParam, f: PictureFlags)
    requires SliceParamOk(s) && s.firstMb == 0 && s.ppsId == 0
    ensures |Render(UnitStart(s, f)).tail| == 10 + (if s.sliceType.SliceP? then 1 else 3)
  {
    var head, start := UnitHead(NalRefIdc(s, f), NalUnitType(s, f)), Elements(SliceStart(s));
    UnitHeadBits(NalRefIdc(s, f), NalUnitType(s, f));
    StartLength(s);
    CodeBitsConcat(head, start);
    AppendToNothing(head + start);
    assert Length(Render(head + start)) == |CodeBits(head)| + |CodeBits(start)|;
  }

  lemma StartLength(s: SliceParam)
    requires SliceParamOk(s) && s.firstMb == 0 && s.ppsId == 0
    ensures AllInRange(Elements(SliceStart(s)))
    ensures |CodeBits(Elements(SliceStart(s)))| == 2 + (if s.sliceType.SliceP? then 1 else 3)
  {
    var start, t := Elements(SliceStart(s)), SliceNumber(s.sliceType);
    assert start[0] == Ue(0) && start[1..] == [Ue(t), Ue(0)] && start[1..][1..] == [Ue(0)];
    assert CodeBits([Ue(0)]) == CodeNumberBits(0) + CodeBits([]);
    assert BitLength(1) == 1 && BitLength(2) == 2 && BitLength(3) == 2;
  }

  /** The header that the bits on the wire say: frame number or-ed with the order count's high bits. */
  function Written(s: SliceParam): SliceParam {
    s.(frameNum := Or(s.frameNum, Down(s.poc, 8)), poc := s.poc % 0x100)
  }

  lemma SliceUnitParts(s: SliceParam, f: PictureFlags)
    requires SliceParamOk(s) && !f.idr
    ensures SliceUnitFields(s, f)
         == UnitStart(s, f) + [U(s.frameNum, 16), U(s.poc, 8)] + Elements(SliceLists(s) + (SliceMarking(f) + SliceEnd(s, f)))
  {
    var tail := SliceLists(s) + (SliceMarking(f) + SliceEnd(s, f));
    var head, start := UnitHead(NalRefIdc(s, f), NalUnitType(s, f)), Elements(SliceStart(s));
    ElementsConcat(SliceStart(s), SliceNumbers(s, f) + tail);
    ElementsConcat(SliceNumbers(s, f), tail);
    assert Elements(SliceNumbers(s, f)) == [U(s.frameNum, 16), U(s.poc, 8)];
    Associative(head, start, [U(s.frameNum, 16), U(s.poc, 8)] + Elements(tail));
    Associative(head + start, [U(s.frameNum, 16), U(s.poc, 8)], Elements(tail));
  }

  /** The bits of a slice header with any order count are those of the header it turns into. */
  lemma SliceUnitIsWritten(s: SliceParam, f: PictureFlags)
    requires SliceParamOk(s) && !f.idr && s.firstMb == 0 && s.ppsId == 0
    requires s.frameNum < 0x1_0000 && s.poc < 0x100_0000
    ensures AllFit(Written(s)) && Render(SliceUnit(s, f)) == Render(SliceUnit(Written(s), f))
  {
    OrStaysSmall(s.frameNum, s.poc);
    var w, start, tail := Written(s), UnitStart(s, f), Elements(SliceLists(s) + (SliceMarking(f) + SliceEnd(s, f)));
    SliceUnitParts(s, f);
    SliceUnitParts(w, f);
    assert UnitStart(w, f) == start && SliceLists(w) == SliceLists(s) && SliceEnd(w, f) == SliceEnd(s, f);
    UnitStartLength(s, f);
    OverflowIsOr(Render(start), s.frameNum, s.poc);
    RenderTwo(start, U(s.frameNum, 16), U(s.poc, 8));
    RenderTwo(start, U(w.frameNum, 16), U(w.poc, 8));
    RenderSame(start + [U(s.frameNum, 16), U(s.poc, 8)], start + [U(w.frameNum, 16), U(w.poc, 8)], tail);
    AlignmentInRange(Length(Render(SliceUnitFields(s, f))), true);
    RenderSame(SliceUnitFields(s, f), SliceUnitFields(w, f), SliceAlignment(s, f));
  }

  lemma RenderTwo(t: seq<Element>, a: Element, b: Element)
    ensures Render(t + [a, b]) == PutElement(PutElement(Render(t), a), b)
  {
    RenderAppend(t, a);
    RenderAppend(t + [a], b);
    assert t + [a] + [b] == t + [a, b];
  }

  /**
   * What a decoder reads from the slice header of a picture that is not IDR, whatever its order count:
   * every field as set, the low 8 bits of the order count, and the frame number or-ed with the rest.
   */
  lemma SliceUnitReadsWritten(s: SliceParam, f: PictureFlags, rest: seq<bool>)
    requires SliceParamOk(s) && FlagsFit(s, f) && !f.idr && s.firstMb == 0 && s.ppsId == 0
    requires s.frameNum < 0x1_0000 && s.poc < 0x100_0000
    ensures AllFit(Written(s))
    ensures DecodeSliceUnit(Flat(Render(SliceUnit(s, f))) + rest, f.entropyCoding, f.deblockingControl)
         == Some(SliceRead(match s.sliceType case SliceI => 3 case SliceP => 2 case SliceB => if f.reference then 1 else 0,
                           1, Values(SliceFields(Written(s), f)), rest))
  {
    SliceUnitIsWritten(s, f);
    SliceUnitReadsBack(Written(s), f, rest);
  }

  /** With frame number and order count both n, as on every P picture, n survives iff it absorbs n >> 8. */
  predicate FrameNumSurvives(n: nat) {
    Or(n, Down(n, 8)) == n
  }

  lemma SmallFrameNumSurvives(n: nat)
    requires n < 0x100
    ensures FrameNumSurvives(n)
  {
    Powers();
    DownIsZero(n, 8);
  }

  lemma FrameNum256IsLost()
    ensures !FrameNumSurvives(0x100)
  {
    assert Down(256, 8) == 1 by {
      assert Down(256, 8) == Down(128, 7) == Down(64, 6) == Down(32, 5);
      assert Down(32, 5) == Down(16, 4) == Down(8, 3) == Down(4, 2) == Down(2, 1) == 1;
    }
    assert Or(256, 1) == 2 * Or(128, 0) + 1;
  }

  /** All frame numbers of a group of pictures of length `period` are read back iff period <= 256. */
  lemma FrameNumsSurviveIff(period: nat)
    ensures (forall n :: 0 <= n < period ==> FrameNumSurvives(n)) <==> period <= 0x100
  {
    if period <= 0x100 {
      forall n | 0 <= n < period ensures FrameNumSurvives(n) {
        SmallFrameNumSurvives(n);
      }
    } else {
      FrameNum256IsLost();
    }
  }
}
