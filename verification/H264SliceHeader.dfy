/**
 * The slice header: the field sequence the encoder prints, the syntax table of ITU-T H.264 section
 * 7.3.3, and what a decoder reads back, also where the picture order count does not fit its field.
 */
module H264SliceHeader {
  import opened Bits
  import opened VaBitstreams
  import opened H264Syntax
  import opened H264ParameterSets

  datatype SliceName =
    | FirstMbInSlice | SliceTypeField | SlicePpsId | FrameNum | IdrPicId | PicOrderCntLsb
    | DirectSpatialMvPredFlag | NumRefIdxActiveOverrideFlag | NumRefIdxL0ActiveMinus1 | NumRefIdxL1ActiveMinus1
    | RefPicListModificationFlagL0 | RefPicListModificationFlagL1
    | NoOutputOfPriorPicsFlag | LongTermReferenceFlag | AdaptiveRefPicMarkingModeFlag
    | CabacInitIdc | SliceQpDelta | DisableDeblockingFilterIdc | SliceAlphaC0OffsetDiv2 | SliceBetaOffsetDiv2

  datatype SliceType = SliceP | SliceB | SliceI

  function SliceNumber(t: SliceType): nat {
    match t
    case SliceP => 0
    case SliceB => 1
    case SliceI => 2
  }

  /** What the decoder knows before it reads the header: active parameter sets and NAL unit header. */
  datatype Context = Context(
    frameNumBits: nat, pocLsbBits: nat, entropyCoding: bool, deblockingControl: bool,
    idr: bool, nalRefIdc: nat)

  /** slice_type is the second field; its values from 5 on repeat those below. */
  function KindOf(sliceType: int): int {
    sliceType % 5
  }

  /** dec_ref_pic_marking, present when nal_ref_idc is not 0. */
  function Marking(c: Context, sliceType: int): Next<SliceName> {
    if c.nalRefIdc != 0 then
      Field(if c.idr then NoOutputOfPriorPicsFlag else AdaptiveRefPicMarkingModeFlag, DU(1))
    else BehindMarking(c, sliceType)
  }

  function BehindMarking(c: Context, sliceType: int): Next<SliceName> {
    if c.entropyCoding && KindOf(sliceType) != 2 then Field(CabacInitIdc, DUe) else Field(SliceQpDelta, DSe)
  }

  /**
   * Section 7.3.3 for progressive frames, one colour plane, pic_order_cnt_type 0 and no weighted
   * prediction. SP and SI slices, list modification and adaptive marking are Unsupported.
   */
  function SliceAfter(c: Context, sliceType: int, name: SliceName, v: int): Next<SliceName> {
    match name
    case FirstMbInSlice => Field(SliceTypeField, DUe)
    case SliceTypeField => Field(SlicePpsId, DUe)
    case SlicePpsId => Field(FrameNum, DU(c.frameNumBits))
    case FrameNum => if c.idr then Field(IdrPicId, DUe) else Field(PicOrderCntLsb, DU(c.pocLsbBits))
    case IdrPicId => Field(PicOrderCntLsb, DU(c.pocLsbBits))
    case PicOrderCntLsb =>
      if KindOf(sliceType) == 1 then Field(DirectSpatialMvPredFlag, DU(1))
      else if KindOf(sliceType) == 0 then Field(NumRefIdxActiveOverrideFlag, DU(1))
      else if KindOf(sliceType) == 2 then Marking(c, sliceType)
      else Unsupported
    case DirectSpatialMvPredFlag => Field(NumRefIdxActiveOverrideFlag, DU(1))
    case NumRefIdxActiveOverrideFlag =>
      if v == 1 then Field(NumRefIdxL0ActiveMinus1, DUe) else Field(RefPicListModificationFlagL0, DU(1))
    case NumRefIdxL0ActiveMinus1 =>
      if KindOf(sliceType) == 1 then Field(NumRefIdxL1ActiveMinus1, DUe) else Field(RefPicListModificationFlagL0, DU(1))
    case NumRefIdxL1ActiveMinus1 => Field(RefPicListModificationFlagL0, DU(1))
    case RefPicListModificationFlagL0 =>
      if v == 1 then Unsupported
      else if KindOf(sliceType) == 1 then Field(RefPicListModificationFlagL1, DU(1))
      else Marking(c, sliceType)
    case RefPicListModificationFlagL1 => if v == 1 then Unsupported else Marking(c, sliceType)
    case NoOutputOfPriorPicsFlag => Field(LongTermReferenceFlag, DU(1))
    case LongTermReferenceFlag => BehindMarking(c, sliceType)
    case AdaptiveRefPicMarkingModeFlag => if v == 1 then Unsupported else BehindMarking(c, sliceType)
    case CabacInitIdc => Field(SliceQpDelta, DSe)
    case SliceQpDelta => if c.deblockingControl then Field(DisableDeblockingFilterIdc, DUe) else End
    case DisableDeblockingFilterIdc => if v != 1 then Field(SliceAlphaC0OffsetDiv2, DSe) else End
    case SliceAlphaC0OffsetDiv2 => Field(SliceBetaOffsetDiv2, DSe)
    case SliceBetaOffsetDiv2 => End
  }

  function SliceNext(c: Context, done: Fields<SliceName>): Next<SliceName> {
    if done == [] then Field(FirstMbInSlice, DUe)
    else SliceAfter(c, if |done| >= 2 then done[1].1 else 0, done[|done| - 1].0, done[|done| - 1].1)
  }

  function SliceTable(c: Context): Table<SliceName> {
    (done, b) => SliceNext(c, done)
  }

  function SliceAfterFor(c: Context, sliceType: int): After<SliceName> {
    (name, v) => SliceAfter(c, sliceType, name, v)
  }

  // ---------------------------------------------------------------------------------------------
  // The printer's fields
  // ---------------------------------------------------------------------------------------------

  datatype SliceParam = SliceParam(
    firstMb: nat, sliceType: SliceType, ppsId: nat, frameNum: nat, idrPicId: nat, poc: nat,
    directSpatial: bool, refOverride: bool, numRefIdxL0: nat, numRefIdxL1: nat,
    cabacInitIdc: nat, qpDelta: int, disableDeblocking: nat, alphaOffset: int, betaOffset: int)

  /** The bits of pic_param that steer the printer. */
  datatype PictureFlags = PictureFlags(idr: bool, reference: bool, entropyCoding: bool, deblockingControl: bool)

  /** What the C types and put_ue allow; the picture order count may be larger than its field. */
  predicate SliceParamOk(s: SliceParam) {
    && s.firstMb < CODE_LIMIT && s.ppsId < CODE_LIMIT && s.idrPicId < CODE_LIMIT
    && s.frameNum < 0x1_0000_0000 && s.poc < 0x1_0000_0000
    && s.numRefIdxL0 < CODE_LIMIT && s.numRefIdxL1 < CODE_LIMIT && s.cabacInitIdc < CODE_LIMIT
    && s.disableDeblocking < CODE_LIMIT
    && -128 <= s.qpDelta < 128 && -128 <= s.alphaOffset < 128 && -128 <= s.betaOffset < 128
  }

  const FRAME_NUM_BITS := 16
  const POC_LSB_BITS := 8

  function SliceStart(s: SliceParam): Named<SliceName>
    requires SliceParamOk(s)
  {
    [(FirstMbInSlice, Ue(s.firstMb)), (SliceTypeField, Ue(SliceNumber(s.sliceType))), (SlicePpsId, Ue(s.ppsId))]
  }

  function SliceNumbers(s: SliceParam, f: PictureFlags): Named<SliceName>
    requires SliceParamOk(s)
  {
    [(FrameNum, U(s.frameNum, FRAME_NUM_BITS))] + (if f.idr then [(IdrPicId, Ue(s.idrPicId))] else [])
    + [(PicOrderCntLsb, U(s.poc, POC_LSB_BITS))]
  }

  function SliceLists(s: SliceParam): Named<SliceName>
    requires SliceParamOk(s)
  {
    if s.sliceType.SliceI? then []
    else
      (if s.sliceType.SliceB? then [(DirectSpatialMvPredFlag, U(Flag(s.directSpatial), 1))] else [])
      + [(NumRefIdxActiveOverrideFlag, U(Flag(s.refOverride), 1))]
      + (if !s.refOverride then []
         else if s.sliceType.SliceP? then [(NumRefIdxL0ActiveMinus1, Ue(s.numRefIdxL0))]
         else [(NumRefIdxL0ActiveMinus1, Ue(s.numRefIdxL0)), (NumRefIdxL1ActiveMinus1, Ue(s.numRefIdxL1))])
      + (if s.sliceType.SliceP? then [(RefPicListModificationFlagL0, U(0, 1))]
         else [(RefPicListModificationFlagL0, U(0, 1)), (RefPicListModificationFlagL1, U(0, 1))])
  }

  function SliceMarking(f: PictureFlags): Named<SliceName> {
    if !f.reference then []
    else if f.idr then [(NoOutputOfPriorPicsFlag, U(0, 1)), (LongTermReferenceFlag, U(0, 1))]
    else [(AdaptiveRefPicMarkingModeFlag, U(0, 1))]
  }

  function SliceEnd(s: SliceParam, f: PictureFlags): Named<SliceName>
    requires SliceParamOk(s)
  {
    (if f.entropyCoding && !s.sliceType.SliceI? then [(CabacInitIdc, Ue(s.cabacInitIdc))] else [])
    + [(SliceQpDelta, Se(s.qpDelta))] + SliceDeblocking(s, f)
  }

  function SliceDeblocking(s: SliceParam, f: PictureFlags): Named<SliceName>
    requires SliceParamOk(s)
  {
    if !f.deblockingControl then []
    else if s.disableDeblocking == 1 then [(DisableDeblockingFilterIdc, Ue(1))]
    else [(DisableDeblockingFilterIdc, Ue(s.disableDeblocking)),
          (SliceAlphaC0OffsetDiv2, Se(s.alphaOffset)), (SliceBetaOffsetDiv2, Se(s.betaOffset))]
  }

  function SliceFields(s: SliceParam, f: PictureFlags): Named<SliceName>
    requires SliceParamOk(s)
  {
    SliceStart(s) + (SliceNumbers(s, f) + (SliceLists(s) + (SliceMarking(f) + SliceEnd(s, f))))
  }

  // ---------------------------------------------------------------------------------------------
  // Reading it back, when every value fits
  // ---------------------------------------------------------------------------------------------

  /** The decoder's context agrees with what the printer was given. */
  predicate Agrees(c: Context, f: PictureFlags) {
    && c.frameNumBits == FRAME_NUM_BITS && c.pocLsbBits == POC_LSB_BITS
    && c.entropyCoding == f.entropyCoding && c.deblockingControl == f.deblockingControl
    && c.idr == f.idr && (c.nalRefIdc != 0 <==> f.reference)
  }

  lemma StartChains(c: Context, s: SliceParam)
    requires SliceParamOk(s)
    ensures Chain(SliceAfterFor(c, SliceNumber(s.sliceType)), (FirstMbInSlice, s.firstMb), SliceStart(s)[1..])
    ensures Last((FirstMbInSlice, s.firstMb), SliceStart(s)[1..]) == (SlicePpsId, s.ppsId)
  {
    var after := SliceAfterFor(c, SliceNumber(s.sliceType));
    forall i | 0 <= i < 2 ensures Link(after, (FirstMbInSlice, s.firstMb), SliceStart(s)[1..], i) {
      assert i == 0 || i == 1;
    }
  }

  lemma NumbersChain(c: Context, s: SliceParam, f: PictureFlags)
    requires SliceParamOk(s) && Agrees(c, f)
    ensures Chain(SliceAfterFor(c, SliceNumber(s.sliceType)), (SlicePpsId, s.ppsId), SliceNumbers(s, f))
    ensures Last((SlicePpsId, s.ppsId), SliceNumbers(s, f)) == (PicOrderCntLsb, s.poc)
  {
    var after, es := SliceAfterFor(c, SliceNumber(s.sliceType)), SliceNumbers(s, f);
    forall i | 0 <= i < |es| ensures Link(after, (SlicePpsId, s.ppsId), es, i) {
      assert i == 0 || i == 1 || i == 2;
    }
  }

  lemma ListsChain(c: Context, s: SliceParam)
    requires SliceParamOk(s)
    ensures Chain(SliceAfterFor(c, SliceNumber(s.sliceType)), (PicOrderCntLsb, s.poc), SliceLists(s))
    ensures Last((PicOrderCntLsb, s.poc), SliceLists(s)) ==
              match s.sliceType
              case SliceP => (RefPicListModificationFlagL0, 0)
              case SliceB => (RefPicListModificationFlagL1, 0)
              case SliceI => (PicOrderCntLsb, s.poc)
  {
    var after, es := SliceAfterFor(c, SliceNumber(s.sliceType)), SliceLists(s);
    forall i | 0 <= i < |es| ensures Link(after, (PicOrderCntLsb, s.poc), es, i) {
      assert i == 0 || i == 1 || i == 2 || i == 3 || i == 4 || i == 5;
    }
  }

  lemma MarkingChains(c: Context, sliceType: int, f: PictureFlags, prev: (SliceName, int))
    requires Agrees(c, f) && SliceAfter(c, sliceType, prev.0, prev.1) == Marking(c, sliceType)
    ensures Chain(SliceAfterFor(c, sliceType), prev, SliceMarking(f))
    ensures var (name, v) := Last(prev, SliceMarking(f)); SliceAfter(c, sliceType, name, v) == BehindMarking(c, sliceType)
  {
    forall i | 0 <= i < |SliceMarking(f)| ensures Link(SliceAfterFor(c, sliceType), prev, SliceMarking(f), i) {
      assert i == 0 || i == 1;
    }
  }

  lemma EndChains(c: Context, s: SliceParam, f: PictureFlags, prev: (SliceName, int))
    requires SliceParamOk(s) && Agrees(c, f)
    requires SliceAfter(c, SliceNumber(s.sliceType), prev.0, prev.1) == BehindMarking(c, SliceNumber(s.sliceType))
    ensures Chain(SliceAfterFor(c, SliceNumber(s.sliceType)), prev, SliceEnd(s, f))
    ensures var (name, v) := Last(prev, SliceEnd(s, f)); SliceAfter(c, SliceNumber(s.sliceType), name, v) == End
  {
    var after, es := SliceAfterFor(c, SliceNumber(s.sliceType)), SliceEnd(s, f);
    forall i | 0 <= i < |es| ensures Link(after, prev, es, i) {
      assert i == 0 || i == 1 || i == 2 || i == 3 || i == 4;
    }
  }

  /** From the picture order count to the end. */
  lemma SliceTailChains(c: Context, s: SliceParam, f: PictureFlags)
    requires SliceParamOk(s) && Agrees(c, f)
    ensures var after, poc := SliceAfterFor(c, SliceNumber(s.sliceType)), (PicOrderCntLsb, s.poc as int);
            var tail := SliceLists(s) + (SliceMarking(f) + SliceEnd(s, f));
            && Chain(after, poc, tail)
            && (var (name, v) := Last(poc, tail); after(name, v) == End)
  {
    var t, poc := SliceNumber(s.sliceType), (PicOrderCntLsb, s.poc as int);
    var lists, marking, end := SliceLists(s), SliceMarking(f), SliceEnd(s, f);
    ListsChain(c, s);
    var p2 := Last(poc, lists);
    MarkingChains(c, t, f, p2);
    EndChains(c, s, f, Last(p2, marking));
    ChainConcat(SliceAfterFor(c, t), p2, marking, end);
    ChainConcat(SliceAfterFor(c, t), poc, lists, marking + end);
  }

  lemma SliceFieldsChain(c: Context, s: SliceParam, f: PictureFlags)
    requires SliceParamOk(s) && Agrees(c, f)
    ensures var after, first := SliceAfterFor(c, SliceNumber(s.sliceType)), (FirstMbInSlice, s.firstMb as int);
            && Chain(after, first, SliceFields(s, f)[1..])
            && (var (name, v) := Last(first, SliceFields(s, f)[1..]); after(name, v) == End)
  {
    var after, first := SliceAfterFor(c, SliceNumber(s.sliceType)), (FirstMbInSlice, s.firstMb as int);
    var start, numbers, tail := SliceStart(s)[1..], SliceNumbers(s, f), SliceLists(s) + (SliceMarking(f) + SliceEnd(s, f));
    StartChains(c, s);
    NumbersChain(c, s, f);
    SliceTailChains(c, s, f);
    ChainConcat(after, (SlicePpsId, s.ppsId as int), numbers, tail);
    ChainConcat(after, first, start, numbers + tail);
    assert SliceFields(s, f)[1..] == start + (numbers + tail);
  }

  /** Do all values fit the fields they are written to? */
  predicate AllFit(s: SliceParam) {
    SliceParamOk(s) && s.frameNum < 0x1_0000 && s.poc < 0x100
  }

  lemma NumbersInRange(s: SliceParam, f: PictureFlags)
    requires AllFit(s)
    ensures AllInRange(Elements(SliceNumbers(s, f)))
  {
    Powers();
    Pow2Add(8, 8);
  }

  lemma ListsInRange(s: SliceParam)
    requires SliceParamOk(s)
    ensures AllInRange(Elements(SliceLists(s)))
  {
  }

  lemma EndInRange(s: SliceParam, f: PictureFlags)
    requires SliceParamOk(s)
    ensures AllInRange(Elements(SliceEnd(s, f))) && AllInRange(Elements(SliceMarking(f)))
  {
  }

  lemma SliceInRange(s: SliceParam, f: PictureFlags)
    requires AllFit(s)
    ensures AllInRange(Elements(SliceFields(s, f)))
  {
    NumbersInRange(s, f);
    ListsInRange(s);
    EndInRange(s, f);
    var end := SliceMarking(f) + SliceEnd(s, f);
    InRangeConcat(SliceMarking(f), SliceEnd(s, f));
    InRangeConcat(SliceLists(s), end);
    InRangeConcat(SliceNumbers(s, f), SliceLists(s) + end);
    InRangeConcat(SliceStart(s), SliceNumbers(s, f) + (SliceLists(s) + end));
  }

  lemma SliceTableAgrees(c: Context, firstMb: int, t: int)
    ensures forall d: Fields<SliceName>, b :: [(FirstMbInSlice, firstMb), (SliceTypeField, t)] <= d ==>
              SliceTable(c)(d, b) == SliceAfterFor(c, t)(d[|d| - 1].0, d[|d| - 1].1)
  {
    forall d: Fields<SliceName>, b | [(FirstMbInSlice, firstMb), (SliceTypeField, t)] <= d
      ensures SliceTable(c)(d, b) == SliceAfterFor(c, t)(d[|d| - 1].0, d[|d| - 1].1)
    {
      assert d[1] == (SliceTypeField, t);
      assert SliceTable(c)(d, b) == SliceNext(c, d);
    }
  }

  lemma SliceTableStarts(c: Context, es: Named<SliceName>, rest: seq<bool>)
    requires |es| >= 2 && es[0].0 == FirstMbInSlice && es[0].1.Ue? && es[1].0 == SliceTypeField && es[1].1.Ue?
    ensures Follows(SliceTable(c), [], es[..2], rest)
  {
    var head := es[..2];
    forall i | 0 <= i < 2
      ensures SliceTable(c)([] + Values(head[..i]), CodeBits(Elements(head[i..])) + rest) == Field(head[i].0, DescriptorOf(head[i].1))
    {
      assert i == 0 || i == 1;
      var d := [] + Values(head[..i]);
      assert SliceTable(c)(d, CodeBits(Elements(head[i..])) + rest) == SliceNext(c, d);
    }
  }

  /** A decoder of section 7.3.3 reads every field of a printed slice header back, if all values fit. */
  lemma SliceReadsBack(c: Context, s: SliceParam, f: PictureFlags, rest: seq<bool>)
    requires AllFit(s) && Agrees(c, f)
    ensures Decode(SliceTable(c), [], CodeBits(Elements(SliceFields(s, f))) + rest)
         == Some((Values(SliceFields(s, f)), rest))
  {
    var es, t := SliceFields(s, f), SliceNumber(s.sliceType);
    var a, b := es[..2], es[2..];
    SplitInRange(s, f);
    SliceFieldsChain(c, s, f);
    SliceTableAgrees(c, s.firstMb, t);
    FirstTwo(s, f);
    SliceTableStarts(c, es, CodeBits(Elements(b)) + rest);
    ChainTail(SliceAfterFor(c, t), (FirstMbInSlice, s.firstMb as int), es[1..]);
    assert es[1..][1..] == b;
    ChainReadsBack(SliceTable(c), SliceAfterFor(c, t), a, b, rest);
  }

  lemma SplitInRange(s: SliceParam, f: PictureFlags)
    requires AllFit(s)
    ensures var es := SliceFields(s, f);
            |es| >= 2 && es == es[..2] + es[2..] && AllInRange(Elements(es[..2])) && AllInRange(Elements(es[2..]))
  {
    var es := SliceFields(s, f);
    SliceInRange(s, f);
    assert Elements(es[..2]) == Elements(es)[..2] && Elements(es[2..]) == Elements(es)[2..];
  }

  lemma FirstTwo(s: SliceParam, f: PictureFlags)
    requires SliceParamOk(s)
    ensures var es := SliceFields(s, f);
            && |es| >= 2 && es[0] == (FirstMbInSlice, Ue(s.firstMb)) && es[1] == (SliceTypeField, Ue(SliceNumber(s.sliceType)))
            && Values(es[..2]) == [(FirstMbInSlice, s.firstMb as int), (SliceTypeField, SliceNumber(s.sliceType) as int)]
  {
    assert SliceFields(s, f)[0] == SliceStart(s)[0] && SliceFields(s, f)[1] == SliceStart(s)[1];
  }

  lemma ChainTail(after: After<SliceName>, prev: (SliceName, int), es: Named<SliceName>)
    requires es != [] && Chain(after, prev, es)
    ensures Chain(after, (es[0].0, ValueOf(es[0].1)), es[1..])
    ensures Last((es[0].0, ValueOf(es[0].1)), es[1..]) == Last(prev, es)
  {
    forall i | 0 <= i < |es[1..]| ensures Link(after, (es[0].0, ValueOf(es[0].1)), es[1..], i) {
      assert Link(after, prev, es, i + 1);
      assert Last((es[0].0, ValueOf(es[0].1)), es[1..][..i]) == Last(prev, es[..i + 1]);
    }
  }
}
