/**
 * The sequence and picture parameter sets: the field sequence the encoder prints, the syntax tables of
 * ITU-T H.264 sections 7.3.2.1.1 and 7.3.2.2, and the proof that the second reads back the first.
 */
module H264ParameterSets {
  import opened Bits
  import opened VaBitstreams
  import opened H264Syntax

  // ---------------------------------------------------------------------------------------------
  // Sequence parameter set
  // ---------------------------------------------------------------------------------------------

  datatype SpsName =
    | ProfileIdc | ConstraintSet0Flag | ConstraintSet1Flag | ConstraintSet2Flag | ConstraintSet3Flag
    | ReservedZero4Bits | LevelIdc | SeqParameterSetId
    | ChromaFormatIdc | SeparateColourPlaneFlag | BitDepthLumaMinus8 | BitDepthChromaMinus8
    | QpprimeYZeroTransformBypassFlag | SeqScalingMatrixPresentFlag
    | Log2MaxFrameNumMinus4 | PicOrderCntType | Log2MaxPicOrderCntLsbMinus4 | MaxNumRefFrames
    | GapsInFrameNumValueAllowedFlag | PicWidthInMbsMinus1 | PicHeightInMapUnitsMinus1
    | FrameMbsOnlyFlag | MbAdaptiveFrameFieldFlag | Direct8x8InferenceFlag | FrameCroppingFlag
    | FrameCropLeftOffset | FrameCropRightOffset | FrameCropTopOffset | FrameCropBottomOffset
    | VuiParametersPresentFlag

  /** Profiles for which the chroma and scaling fields are present. */
  predicate IsHighFamily(idc: int) {
    idc == 100 || idc == 110 || idc == 122 || idc == 244 || idc == 44 || idc == 83 || idc == 86
    || idc == 118 || idc == 128 || idc == 138 || idc == 139 || idc == 134 || idc == 135
  }

  /**
   * Section 7.3.2.1.1: what comes after a field with the value v. Scaling lists, pic_order_cnt_type 1
   * and VUI parameters are Unsupported.
   */
  function SpsAfter(profileIdc: int, name: SpsName, v: int): Next<SpsName> {
    match name
    case ProfileIdc => Field(ConstraintSet0Flag, DU(1))
    case ConstraintSet0Flag => Field(ConstraintSet1Flag, DU(1))
    case ConstraintSet1Flag => Field(ConstraintSet2Flag, DU(1))
    case ConstraintSet2Flag => Field(ConstraintSet3Flag, DU(1))
    case ConstraintSet3Flag => Field(ReservedZero4Bits, DU(4))
    case ReservedZero4Bits => Field(LevelIdc, DU(8))
    case LevelIdc => Field(SeqParameterSetId, DUe)
    case SeqParameterSetId =>
      if IsHighFamily(profileIdc) then Field(ChromaFormatIdc, DUe) else Field(Log2MaxFrameNumMinus4, DUe)
    case ChromaFormatIdc =>
      if v == 3 then Field(SeparateColourPlaneFlag, DU(1)) else Field(BitDepthLumaMinus8, DUe)
    case SeparateColourPlaneFlag => Field(BitDepthLumaMinus8, DUe)
    case BitDepthLumaMinus8 => Field(BitDepthChromaMinus8, DUe)
    case BitDepthChromaMinus8 => Field(QpprimeYZeroTransformBypassFlag, DU(1))
    case QpprimeYZeroTransformBypassFlag => Field(SeqScalingMatrixPresentFlag, DU(1))
    case SeqScalingMatrixPresentFlag => if v == 1 then Unsupported else Field(Log2MaxFrameNumMinus4, DUe)
    case Log2MaxFrameNumMinus4 => Field(PicOrderCntType, DUe)
    case PicOrderCntType =>
      if v == 0 then Field(Log2MaxPicOrderCntLsbMinus4, DUe)
      else if v == 1 then Unsupported
      else Field(MaxNumRefFrames, DUe)
    case Log2MaxPicOrderCntLsbMinus4 => Field(MaxNumRefFrames, DUe)
    case MaxNumRefFrames => Field(GapsInFrameNumValueAllowedFlag, DU(1))
    case GapsInFrameNumValueAllowedFlag => Field(PicWidthInMbsMinus1, DUe)
    case PicWidthInMbsMinus1 => Field(PicHeightInMapUnitsMinus1, DUe)
    case PicHeightInMapUnitsMinus1 => Field(FrameMbsOnlyFlag, DU(1))
    case FrameMbsOnlyFlag =>
      if v == 0 then Field(MbAdaptiveFrameFieldFlag, DU(1)) else Field(Direct8x8InferenceFlag, DU(1))
    case MbAdaptiveFrameFieldFlag => Field(Direct8x8InferenceFlag, DU(1))
    case Direct8x8InferenceFlag => Field(FrameCroppingFlag, DU(1))
    case FrameCroppingFlag =>
      if v == 1 then Field(FrameCropLeftOffset, DUe) else Field(VuiParametersPresentFlag, DU(1))
    case FrameCropLeftOffset => Field(FrameCropRightOffset, DUe)
    case FrameCropRightOffset => Field(FrameCropTopOffset, DUe)
    case FrameCropTopOffset => Field(FrameCropBottomOffset, DUe)
    case FrameCropBottomOffset => Field(VuiParametersPresentFlag, DU(1))
    case VuiParametersPresentFlag => if v == 1 then Unsupported else End
  }

  function SpsNext(done: Fields<SpsName>): Next<SpsName> {
    if done == [] then Field(ProfileIdc, DU(8))
    else SpsAfter(done[0].1, done[|done| - 1].0, done[|done| - 1].1)
  }

  function SpsTable(): Table<SpsName> {
    (done, b) => SpsNext(done)
  }

  datatype Profile = Main | High

  datatype SeqParam = SeqParam(
    levelIdc: nat, seqParameterSetId: nat, log2MaxFrameNumMinus4: nat, log2MaxPocLsbMinus4: nat,
    maxNumRefFrames: nat, widthInMbs: nat, heightInMbs: nat, direct8x8: bool,
    cropping: bool, cropLeft: nat, cropRight: nat, cropTop: nat, cropBottom: nat)

  /** What the fields' C types and put_ue allow. */
  predicate SeqParamOk(p: SeqParam) {
    && p.levelIdc < 256
    && p.seqParameterSetId < CODE_LIMIT && p.log2MaxFrameNumMinus4 < CODE_LIMIT && p.log2MaxPocLsbMinus4 < CODE_LIMIT
    && p.maxNumRefFrames < CODE_LIMIT
    && 1 <= p.widthInMbs <= CODE_LIMIT && 1 <= p.heightInMbs <= CODE_LIMIT
    && p.cropLeft < CODE_LIMIT && p.cropRight < CODE_LIMIT && p.cropTop < CODE_LIMIT && p.cropBottom < CODE_LIMIT
  }

  function Flag(b: bool): Dword {
    if b then 1 else 0
  }

  function ProfileNumber(profile: Profile): Dword {
    if profile.High? then 100 else 77
  }

  function SpsStart(profile: Profile, p: SeqParam): Named<SpsName>
    requires SeqParamOk(p)
  {
    [(ConstraintSet0Flag, U(0, 1)), (ConstraintSet1Flag, U(Flag(profile.Main?), 1)),
     (ConstraintSet2Flag, U(0, 1)), (ConstraintSet3Flag, U(Flag(profile.High?), 1)),
     (ReservedZero4Bits, U(0, 4)), (LevelIdc, U(p.levelIdc, 8)), (SeqParameterSetId, Ue(p.seqParameterSetId))]
  }

  function SpsChroma(): Named<SpsName> {
    [(ChromaFormatIdc, Ue(1)), (BitDepthLumaMinus8, Ue(0)), (BitDepthChromaMinus8, Ue(0)),
     (QpprimeYZeroTransformBypassFlag, U(0, 1)), (SeqScalingMatrixPresentFlag, U(0, 1))]
  }

  function SpsPicture(p: SeqParam): Named<SpsName>
    requires SeqParamOk(p)
  {
    [(Log2MaxFrameNumMinus4, Ue(p.log2MaxFrameNumMinus4)), (PicOrderCntType, Ue(0)),
     (Log2MaxPicOrderCntLsbMinus4, Ue(p.log2MaxPocLsbMinus4)), (MaxNumRefFrames, Ue(p.maxNumRefFrames)),
     (GapsInFrameNumValueAllowedFlag, U(0, 1)), (PicWidthInMbsMinus1, Ue(p.widthInMbs - 1)),
     (PicHeightInMapUnitsMinus1, Ue(p.heightInMbs - 1)), (FrameMbsOnlyFlag, U(1, 1)),
     (Direct8x8InferenceFlag, U(Flag(p.direct8x8), 1)), (FrameCroppingFlag, U(Flag(p.cropping), 1))]
  }

  function SpsCropping(p: SeqParam): Named<SpsName>
    requires SeqParamOk(p)
  {
    if p.cropping then
      [(FrameCropLeftOffset, Ue(p.cropLeft)), (FrameCropRightOffset, Ue(p.cropRight)),
       (FrameCropTopOffset, Ue(p.cropTop)), (FrameCropBottomOffset, Ue(p.cropBottom))]
    else []
  }

  function SpsEnd(): Named<SpsName> {
    [(VuiParametersPresentFlag, U(0, 1))]
  }

  function SpsFields(profile: Profile, p: SeqParam): Named<SpsName>
    requires SeqParamOk(p)
  {
    [(ProfileIdc, U(ProfileNumber(profile), 8))]
    + (SpsStart(profile, p) + ((if profile.High? then SpsChroma() else []) + (SpsPicture(p) + (SpsCropping(p) + SpsEnd()))))
  }

  // ---------------------------------------------------------------------------------------------
  // Composition
  // ---------------------------------------------------------------------------------------------

  lemma Powers()
    ensures Pow2(1) == 2 && Pow2(2) == 4 && Pow2(4) == 16 && Pow2(5) == 32 && Pow2(8) == 256
  {
  }

  function SpsAfterFor(profileIdc: int): After<SpsName> {
    (name, v) => SpsAfter(profileIdc, name, v)
  }

  lemma SpsStartChains(profile: Profile, p: SeqParam)
    requires SeqParamOk(p)
    ensures var after := SpsAfterFor(ProfileNumber(profile));
            Chain(after, (ProfileIdc, ProfileNumber(profile)), SpsStart(profile, p))
  {
    forall i | 0 <= i < 7
      ensures Link(SpsAfterFor(ProfileNumber(profile)), (ProfileIdc, ProfileNumber(profile)), SpsStart(profile, p), i)
    {
      assert i == 0 || i == 1 || i == 2 || i == 3 || i == 4 || i == 5 || i == 6;
    }
  }

  lemma SpsChromaChains(id: int)
    ensures Chain(SpsAfterFor(100), (SeqParameterSetId, id), SpsChroma())
  {
    forall i | 0 <= i < 5 ensures Link(SpsAfterFor(100), (SeqParameterSetId, id), SpsChroma(), i) {
      assert i == 0 || i == 1 || i == 2 || i == 3 || i == 4;
    }
  }

  lemma SpsPictureChains(profileIdc: int, prev: (SpsName, int), p: SeqParam)
    requires SeqParamOk(p) && SpsAfter(profileIdc, prev.0, prev.1) == Field(Log2MaxFrameNumMinus4, DUe)
    ensures Chain(SpsAfterFor(profileIdc), prev, SpsPicture(p))
  {
    forall i | 0 <= i < 10 ensures Link(SpsAfterFor(profileIdc), prev, SpsPicture(p), i) {
      assert i == 0 || i == 1 || i == 2 || i == 3 || i == 4 || i == 5 || i == 6 || i == 7 || i == 8 || i == 9;
    }
  }

  lemma SpsCroppingChains(profileIdc: int, p: SeqParam)
    requires SeqParamOk(p)
    ensures Chain(SpsAfterFor(profileIdc), (FrameCroppingFlag, Flag(p.cropping)), SpsCropping(p))
  {
    forall i | 0 <= i < |SpsCropping(p)|
      ensures Link(SpsAfterFor(profileIdc), (FrameCroppingFlag, Flag(p.cropping)), SpsCropping(p), i)
    {
      assert i == 0 || i == 1 || i == 2 || i == 3;
    }
  }

  lemma SpsStartInRange(profile: Profile, p: SeqParam)
    requires SeqParamOk(p)
    ensures AllInRange(Elements([(ProfileIdc, U(ProfileNumber(profile), 8))])) && AllInRange(Elements(SpsStart(profile, p)))
  {
    Powers();
  }

  lemma SpsMiddleInRange(p: SeqParam)
    requires SeqParamOk(p)
    ensures AllInRange(Elements(SpsChroma())) && AllInRange(Elements(SpsPicture(p)))
  {
    Powers();
  }

  lemma SpsTailInRange(p: SeqParam)
    requires SeqParamOk(p)
    ensures AllInRange(Elements(SpsCropping(p))) && AllInRange(Elements(SpsEnd()))
  {
    Powers();
  }

  lemma SpsInRange(profile: Profile, p: SeqParam)
    requires SeqParamOk(p)
    ensures AllInRange(Elements(SpsFields(profile, p)))
  {
    var chroma, tail := if profile.High? then SpsChroma() else [], SpsCropping(p) + SpsEnd();
    SpsStartInRange(profile, p);
    SpsMiddleInRange(p);
    SpsTailInRange(p);
    InRangeConcat(SpsCropping(p), SpsEnd());
    InRangeConcat(SpsPicture(p), tail);
    InRangeConcat(chroma, SpsPicture(p) + tail);
    InRangeConcat(SpsStart(profile, p), chroma + (SpsPicture(p) + tail));
    InRangeConcat([(ProfileIdc, U(ProfileNumber(profile), 8))], SpsStart(profile, p) + (chroma + (SpsPicture(p) + tail)));
  }

  lemma SpsTailChains(profile: Profile, p: SeqParam)
    requires SeqParamOk(p)
    ensures var after, tail := SpsAfterFor(ProfileNumber(profile)), SpsCropping(p) + SpsEnd();
            Chain(after, (FrameCroppingFlag, Flag(p.cropping)), tail)
  {
    var after := SpsAfterFor(ProfileNumber(profile));
    SpsCroppingChains(ProfileNumber(profile), p);
    var last := Last((FrameCroppingFlag, Flag(p.cropping)), SpsCropping(p));
    assert Link(after, last, SpsEnd(), 0);
    ChainConcat(after, (FrameCroppingFlag, Flag(p.cropping)), SpsCropping(p), SpsEnd());
  }

  lemma SpsFieldsChain(profile: Profile, p: SeqParam)
    requires SeqParamOk(p)
    ensures var after, es := SpsAfterFor(ProfileNumber(profile)), SpsFields(profile, p)[1..];
            Chain(after, (ProfileIdc, ProfileNumber(profile)), es)
  {
    var idc := ProfileNumber(profile);
    var after := SpsAfterFor(idc);
    var chroma := if profile.High? then SpsChroma() else [];
    var id, scaling := (SeqParameterSetId, p.seqParameterSetId), (SeqScalingMatrixPresentFlag, 0);
    var tail := SpsCropping(p) + SpsEnd();
    SpsTailChains(profile, p);
    SpsPictureChains(idc, if profile.High? then scaling else id, p);
    ChainConcat(after, if profile.High? then scaling else id, SpsPicture(p), tail);
    if profile.High? {
      SpsChromaChains(p.seqParameterSetId);
    }
    ChainConcat(after, id, chroma, SpsPicture(p) + tail);
    SpsStartChains(profile, p);
    ChainConcat(after, (ProfileIdc, idc), SpsStart(profile, p), chroma + (SpsPicture(p) + tail));
    assert SpsFields(profile, p)[1..] == SpsStart(profile, p) + (chroma + (SpsPicture(p) + tail));
  }

  /**
   * Whatever follows it, a decoder of section 7.3.2.1.1 reads every field of the printed sequence
   * parameter set back, in both profiles and with or without cropping.
   */
  lemma SpsReadsBack(profile: Profile, p: SeqParam, rest: seq<bool>)
    requires SeqParamOk(p)
    ensures Decode(SpsTable(), [], CodeBits(Elements(SpsFields(profile, p))) + rest)
         == Some((Values(SpsFields(profile, p)), rest))
  {
    var idc, es := ProfileNumber(profile), SpsFields(profile, p);
    SpsSplits(profile, p);
    SpsFieldsChain(profile, p);
    SpsTableStarts(es, CodeBits(Elements(es[1..])) + rest);
    SpsTableAgrees(idc);
    ChainReadsBack(SpsTable(), SpsAfterFor(idc), es[..1], es[1..], rest);
  }

  /** The first field, which the table depends on, and the others. */
  lemma SpsSplits(profile: Profile, p: SeqParam)
    requires SeqParamOk(p)
    ensures var es := SpsFields(profile, p);
            && |es| >= 2 && es == es[..1] + es[1..]
            && AllInRange(Elements(es[..1])) && AllInRange(Elements(es[1..]))
            && Values(es[..1]) == [(ProfileIdc, ProfileNumber(profile) as int)]
            && Last((ProfileIdc, ProfileNumber(profile) as int), es[1..]) == (VuiParametersPresentFlag, 0)
  {
    var es := SpsFields(profile, p);
    SpsInRange(profile, p);
    assert Elements(es[..1]) == Elements(es)[..1] && Elements(es[1..]) == Elements(es)[1..];
    assert es[|es| - 1] == SpsEnd()[0];
  }

  lemma SpsTableStarts(es: Named<SpsName>, rest: seq<bool>)
    requires es != [] && es[0].0 == ProfileIdc && DescriptorOf(es[0].1) == DU(8)
    ensures Follows(SpsTable(), [], es[..1], rest)
  {
    assert [] + Values(es[..1][..0]) == [];
    assert forall b :: SpsTable()([], b) == SpsNext([]);
  }

  lemma SpsTableAgrees(idc: int)
    ensures forall d: Fields<SpsName>, b :: [(ProfileIdc, idc)] <= d ==>
              SpsTable()(d, b) == SpsAfterFor(idc)(d[|d| - 1].0, d[|d| - 1].1)
  {
    forall d: Fields<SpsName>, b | [(ProfileIdc, idc)] <= d
      ensures SpsTable()(d, b) == SpsAfterFor(idc)(d[|d| - 1].0, d[|d| - 1].1)
    {
      assert d[0] == (ProfileIdc, idc);
      assert SpsTable()(d, b) == SpsNext(d);
    }
  }

  // ---------------------------------------------------------------------------------------------
  // What fillSeqParam announces, and the picture size a decoder derives from it
  // ---------------------------------------------------------------------------------------------

  /** The dimension rounded up to whole macroblocks. */
  function MbAligned(x: nat): nat {
    (x + 15) / 16 * 16
  }

  /** fillSeqParam, with the constructor's Log2MaxFrameNum and Log2MaxPicOrderCntLsb. */
  function FillSeqParam(width: nat, height: nat): (p: SeqParam) {
    var w, h := MbAligned(width), MbAligned(height);
    var cropping := width != w || height != h;
    SeqParam(41, 0, 16 - 4, 8 - 4, 16, w / 16, h / 16, true,
             cropping, 0, if cropping then (w - width) / 2 else 0, 0, if cropping then (h - height) / 2 else 0)
  }

  function Lookup<N(==)>(fs: Fields<N>, name: N, absent: int): int {
    if fs == [] then absent
    else if fs[0].0 == name then fs[0].1
    else Lookup(fs[1..], name, absent)
  }

  lemma {:induction false} LookupAt<N>(fs: Fields<N>, name: N, absent: int, i: nat)
    requires i < |fs| && fs[i].0 == name && forall j :: 0 <= j < i ==> fs[j].0 != name
    ensures Lookup(fs, name, absent) == fs[i].1
  {
    if i > 0 {
      LookupAt(fs[1..], name, absent, i - 1);
    }
  }

  lemma {:induction false} LookupAbsent<N>(fs: Fields<N>, name: N, absent: int)
    requires forall j :: 0 <= j < |fs| ==> fs[j].0 != name
    ensures Lookup(fs, name, absent) == absent
  {
    if fs != [] {
      LookupAbsent(fs[1..], name, absent);
    }
  }

  /** A field of a block that is reached behind blocks without that name. */
  lemma {:induction false} LookupBehind<N>(before: Fields<N>, block: Fields<N>, name: N, absent: int)
    requires forall j :: 0 <= j < |before| ==> before[j].0 != name
    ensures Lookup(before + block, name, absent) == Lookup(block, name, absent)
  {
    if before == [] {
      assert before + block == block;
    } else {
      assert (before + block)[1..] == before[1..] + block;
      LookupBehind(before[1..], block, name, absent);
    }
  }

  // ---------------------------------------------------------------------------------------------
  // Picture parameter set
  // ---------------------------------------------------------------------------------------------

  datatype PpsName =
    | PpsId | PpsSeqParameterSetId | EntropyCodingModeFlag | BottomFieldPicOrderInFramePresentFlag
    | NumSliceGroupsMinus1 | NumRefIdxL0DefaultActiveMinus1 | NumRefIdxL1DefaultActiveMinus1
    | WeightedPredFlag | WeightedBipredIdc | PicInitQpMinus26 | PicInitQsMinus26 | ChromaQpIndexOffset
    | DeblockingFilterControlPresentFlag | ConstrainedIntraPredFlag | RedundantPicCntPresentFlag
    | Transform8x8ModeFlag | PicScalingMatrixPresentFlag | SecondChromaQpIndexOffset

  /** Section 7.2: is there anything in front of the last one bit, which is the RBSP stop bit? */
  predicate MoreRbspData(b: seq<bool>) {
    exists i :: 1 <= i < |b| && b[i]
  }

  /** Section 7.3.2.2, except slice groups and scaling lists. */
  function PpsAfter(name: PpsName, v: int, more: bool): Next<PpsName> {
    match name
    case PpsId => Field(PpsSeqParameterSetId, DUe)
    case PpsSeqParameterSetId => Field(EntropyCodingModeFlag, DU(1))
    case EntropyCodingModeFlag => Field(BottomFieldPicOrderInFramePresentFlag, DU(1))
    case BottomFieldPicOrderInFramePresentFlag => Field(NumSliceGroupsMinus1, DUe)
    case NumSliceGroupsMinus1 => if v > 0 then Unsupported else Field(NumRefIdxL0DefaultActiveMinus1, DUe)
    case NumRefIdxL0DefaultActiveMinus1 => Field(NumRefIdxL1DefaultActiveMinus1, DUe)
    case NumRefIdxL1DefaultActiveMinus1 => Field(WeightedPredFlag, DU(1))
    case WeightedPredFlag => Field(WeightedBipredIdc, DU(2))
    case WeightedBipredIdc => Field(PicInitQpMinus26, DSe)
    case PicInitQpMinus26 => Field(PicInitQsMinus26, DSe)
    case PicInitQsMinus26 => Field(ChromaQpIndexOffset, DSe)
    case ChromaQpIndexOffset => Field(DeblockingFilterControlPresentFlag, DU(1))
    case DeblockingFilterControlPresentFlag => Field(ConstrainedIntraPredFlag, DU(1))
    case ConstrainedIntraPredFlag => Field(RedundantPicCntPresentFlag, DU(1))
    case RedundantPicCntPresentFlag => if more then Field(Transform8x8ModeFlag, DU(1)) else End
    case Transform8x8ModeFlag => Field(PicScalingMatrixPresentFlag, DU(1))
    case PicScalingMatrixPresentFlag => if v == 1 then Unsupported else Field(SecondChromaQpIndexOffset, DSe)
    case SecondChromaQpIndexOffset => End
  }

  function PpsNext(done: Fields<PpsName>, b: seq<bool>): Next<PpsName> {
    if done == [] then Field(PpsId, DUe)
    else PpsAfter(done[|done| - 1].0, done[|done| - 1].1, MoreRbspData(b))
  }

  function PpsTable(): Table<PpsName> {
    (done, b) => PpsNext(done, b)
  }

  datatype PicParam = PicParam(
    ppsId: nat, spsId: nat, entropyCoding: bool, numRefIdxL0: nat, numRefIdxL1: nat,
    weightedPred: bool, weightedBipredIdc: nat, picInitQp: int, deblockingControl: bool,
    transform8x8: bool, secondChromaQpIndexOffset: int)

  predicate PicParamOk(p: PicParam) {
    && p.ppsId < CODE_LIMIT && p.spsId < CODE_LIMIT && p.numRefIdxL0 < CODE_LIMIT && p.numRefIdxL1 < CODE_LIMIT
    && p.weightedBipredIdc < 4
    && 0 <= p.picInitQp < 256 && -128 <= p.secondChromaQpIndexOffset < 128
  }

  /** The constructor's zeroes, and what fillPPS sets. */
  const FILLED_PPS: PicParam := PicParam(0, 0, true, 0, 0, false, 0, 15, true, false, 0)

  function PpsFields(p: PicParam): Named<PpsName>
    requires PicParamOk(p)
  {
    [(PpsId, Ue(p.ppsId)), (PpsSeqParameterSetId, Ue(p.spsId)), (EntropyCodingModeFlag, U(Flag(p.entropyCoding), 1)),
     (BottomFieldPicOrderInFramePresentFlag, U(0, 1)), (NumSliceGroupsMinus1, Ue(0)),
     (NumRefIdxL0DefaultActiveMinus1, Ue(p.numRefIdxL0)), (NumRefIdxL1DefaultActiveMinus1, Ue(p.numRefIdxL1)),
     (WeightedPredFlag, U(Flag(p.weightedPred), 1)), (WeightedBipredIdc, U(p.weightedBipredIdc, 2))]
    + PpsQuantizer(p)
  }

  function PpsQuantizer(p: PicParam): Named<PpsName>
    requires PicParamOk(p)
  {
    [(PicInitQpMinus26, Se(p.picInitQp - 26)), (PicInitQsMinus26, Se(0)), (ChromaQpIndexOffset, Se(0)),
     (DeblockingFilterControlPresentFlag, U(Flag(p.deblockingControl), 1)), (ConstrainedIntraPredFlag, U(0, 1)),
     (RedundantPicCntPresentFlag, U(0, 1)), (Transform8x8ModeFlag, U(Flag(p.transform8x8), 1)),
     (PicScalingMatrixPresentFlag, U(0, 1)), (SecondChromaQpIndexOffset, Se(p.secondChromaQpIndexOffset))]
  }

  predicate PpsLink(es: Named<PpsName>, i: nat)
    requires 0 < i < |es|
  {
    PpsAfter(es[i - 1].0, ValueOf(es[i - 1].1), true) == Field(es[i].0, DescriptorOf(es[i].1))
  }

  lemma PpsHeadLinks(p: PicParam, i: nat)
    requires PicParamOk(p) && 0 < i < 10
    ensures PpsLink(PpsFields(p), i)
    ensures PpsFields(p)[i - 1].0 != RedundantPicCntPresentFlag
  {
    assert i == 1 || i == 2 || i == 3 || i == 4 || i == 5 || i == 6 || i == 7 || i == 8 || i == 9;
    assert PpsFields(p)[9] == PpsQuantizer(p)[0];
  }

  lemma PpsQuantizerLinks(p: PicParam, i: nat)
    requires PicParamOk(p) && 0 < i < 9
    ensures PpsLink(PpsFields(p), 9 + i)
    ensures PpsFields(p)[9 + i - 1].0 == RedundantPicCntPresentFlag ==> i == 6
  {
    assert PpsFields(p)[9 + i - 1] == PpsQuantizer(p)[i - 1] && PpsFields(p)[9 + i] == PpsQuantizer(p)[i];
    assert i == 1 || i == 2 || i == 3 || i == 4 || i == 5 || i == 6 || i == 7 || i == 8;
  }

  lemma CodeNumberHasOne(k: nat)
    ensures exists i :: 0 <= i < |CodeNumberBits(k)| && CodeNumberBits(k)[i]
  {
    var n := BitLength(k + 1) - 1;
    BitLengthBounds(k + 1);
    TopBit(k + 1, n);
    assert CodeNumberBits(k)[n];
  }

  /** The last three fields hold a one bit behind their first bit, so the decoder knows they are there. */
  lemma PpsTailIsSeen(p: PicParam, rest: seq<bool>)
    requires PicParamOk(p)
    ensures MoreRbspData(CodeBits(Elements(PpsFields(p)[15..])) + rest)
  {
    var es, b := Elements(PpsFields(p)[15..]), CodeBits(Elements(PpsFields(p)[15..])) + rest;
    assert es[0] == U(Flag(p.transform8x8), 1) && es[1] == U(0, 1) && es[2] == Se(p.secondChromaQpIndexOffset);
    var code := CodeNumberBits(CodeNumber(p.secondChromaQpIndexOffset));
    var head := ElementBits(es[0]) + ElementBits(es[1]);
    assert CodeBits(es) == head + (code + CodeBits(es[1..][1..][1..])) by {
      assert es[1..][0] == es[1] && es[1..][1..][0] == es[2];
      Associative(ElementBits(es[0]), ElementBits(es[1]), CodeBits(es[1..][1..]));
    }
    CodeNumberHasOne(CodeNumber(p.secondChromaQpIndexOffset));
    var i :| 0 <= i < |code| && code[i];
    assert b[2 + i];
  }

  /** A decoder of section 7.3.2.2 reads every field of the printed picture parameter set back. */
  lemma PpsReadsBack(p: PicParam, rest: seq<bool>)
    requires PicParamOk(p)
    ensures Decode(PpsTable(), [], CodeBits(Elements(PpsFields(p))) + rest) == Some((Values(PpsFields(p)), rest))
  {
    var es := PpsFields(p);
    forall i | 0 <= i < |es|
      ensures PpsTable()([] + Values(es[..i]), CodeBits(Elements(es[i..])) + rest) == Field(es[i].0, DescriptorOf(es[i].1))
    {
      if i == 0 {
        assert PpsTable()([] + Values(es[..0]), CodeBits(Elements(es[0..])) + rest) == PpsNext([], CodeBits(Elements(es[0..])) + rest);
      } else {
        PpsLinkAt(p, i);
        PpsTailIsSeen(p, rest);
        PpsTableAt(es, i, rest);
      }
    }
    PpsInRange(p);
    DecodeThrough(PpsTable(), [], es, rest);
    PpsEnds([] + Values(es), rest);
    assert [] + Values(es) == Values(es);
  }

  lemma PpsTableAt(es: Named<PpsName>, i: nat, rest: seq<bool>)
    requires 0 < i < |es| && PpsLink(es, i)
    requires es[i - 1].0 == RedundantPicCntPresentFlag ==> MoreRbspData(CodeBits(Elements(es[i..])) + rest)
    ensures PpsTable()([] + Values(es[..i]), CodeBits(Elements(es[i..])) + rest) == Field(es[i].0, DescriptorOf(es[i].1))
  {
    var d, b := [] + Values(es[..i]), CodeBits(Elements(es[i..])) + rest;
    assert PpsTable()(d, b) == PpsNext(d, b);
    assert d[|d| - 1] == (es[i - 1].0, ValueOf(es[i - 1].1));
  }

  lemma PpsLinkAt(p: PicParam, i: nat)
    requires PicParamOk(p) && 0 < i < |PpsFields(p)|
    ensures PpsLink(PpsFields(p), i)
    ensures PpsFields(p)[i - 1].0 == RedundantPicCntPresentFlag ==> i == 15
  {
    if i < 10 {
      PpsHeadLinks(p, i);
    } else {
      PpsQuantizerLinks(p, i - 9);
    }
  }

  lemma PpsInRange(p: PicParam)
    requires PicParamOk(p)
    ensures AllInRange(Elements(PpsFields(p)))
  {
    Powers();
    assert AllInRange(Elements(PpsQuantizer(p)));
  }

  lemma PpsEnds(vs: Fields<PpsName>, rest: seq<bool>)
    requires vs != [] && vs[|vs| - 1].0 == SecondChromaQpIndexOffset
    ensures Decode(PpsTable(), vs, rest) == Some((vs, rest))
  {
    assert PpsTable()(vs, rest) == PpsNext(vs, rest);
  }
}
