/**
 * What the fields of a decoded parameter set or slice header say, with the values that section 7.4 of
 * ITU-T H.264 infers for absent ones; and what the printed ones say, value by value.
 */
module H264Meaning {
  import opened Bits
  import opened VaBitstreams
  import opened H264Syntax
  import opened H264ParameterSets
  import opened H264SliceHeader

  /** A field of a block that follows blocks without its name, and is the first of that name in it. */
  lemma FieldAt<N>(before: Named<N>, block: Named<N>, behind: Named<N>, i: nat, absent: int)
    requires i < |block| && forall j :: 0 <= j < i ==> block[j].0 != block[i].0
    requires forall j :: 0 <= j < |before| ==> before[j].0 != block[i].0
    ensures Lookup(Values(before + (block + behind)), block[i].0, absent) == ValueOf(block[i].1)
  {
    ValuesConcat(before, block + behind);
    LookupBehind(Values(before), Values(block + behind), block[i].0, absent);
    assert forall j :: 0 <= j <= i ==> (block + behind)[j] == block[j];
    LookupAt(Values(block + behind), block[i].0, absent, i);
  }

  lemma FieldAbsent<N>(es: Named<N>, name: N, absent: int)
    requires forall j :: 0 <= j < |es| ==> es[j].0 != name
    ensures Lookup(Values(es), name, absent) == absent
  {
    LookupAbsent(Values(es), name, absent);
  }

  /** A name is looked up in the first part, and in the second if it is not there. */
  lemma {:induction false} LookupConcat<N>(a: Fields<N>, b: Fields<N>, name: N, absent: int)
    ensures Lookup(a + b, name, absent) == Lookup(a, name, Lookup(b, name, absent))
  {
    if a == [] {
      assert a + b == b;
    } else {
      assert (a + b)[1..] == a[1..] + b && (a + b)[0] == a[0];
      LookupConcat(a[1..], b, name, absent);
    }
  }

  lemma NamedConcat<N>(a: Named<N>, b: Named<N>, name: N, absent: int)
    ensures Lookup(Values(a + b), name, absent) == Lookup(Values(a), name, Lookup(Values(b), name, absent))
  {
    ValuesConcat(a, b);
    LookupConcat(Values(a), Values(b), name, absent);
  }

  lemma NamedOne<N>(field: (N, Element), name: N, absent: int)
    ensures Lookup(Values([field]), name, absent) == if field.0 == name then ValueOf(field.1) else absent
  {
    assert Values([field])[1..] == [];
  }

  lemma NamedNone<N>(name: N, absent: int)
    ensures Lookup(Values<N>([]), name, absent) == absent
  {
  }

  // ---------------------------------------------------------------------------------------------
  // Sequence parameter set
  // ---------------------------------------------------------------------------------------------

  datatype SpsMeaning = SpsMeaning(
    profileIdc: int, constraints: seq<int>, levelIdc: int, id: int,
    chromaFormat: int, separatePlanes: int, lumaBits: int, chromaBits: int, lossless: int, scalingMatrix: int,
    frameNumBits: int, pocType: int, pocLsbBits: int, references: int, gaps: int,
    widthInMbs: int, heightInMapUnits: int, frameMbsOnly: int, mbAdaptive: int, direct8x8: int,
    cropLeft: int, cropRight: int, cropTop: int, cropBottom: int, vui: int)

  /** Section 7.4.2.1.1. */
  function SpsSays(fs: Fields<SpsName>): SpsMeaning {
    SpsMeaning(
      Lookup(fs, ProfileIdc, 0),
      [Lookup(fs, ConstraintSet0Flag, 0), Lookup(fs, ConstraintSet1Flag, 0),
       Lookup(fs, ConstraintSet2Flag, 0), Lookup(fs, ConstraintSet3Flag, 0), Lookup(fs, ReservedZero4Bits, 0)],
      Lookup(fs, LevelIdc, 0), Lookup(fs, SeqParameterSetId, 0),
      Lookup(fs, ChromaFormatIdc, 1), Lookup(fs, SeparateColourPlaneFlag, 0),
      8 + Lookup(fs, BitDepthLumaMinus8, 0), 8 + Lookup(fs, BitDepthChromaMinus8, 0),
      Lookup(fs, QpprimeYZeroTransformBypassFlag, 0), Lookup(fs, SeqScalingMatrixPresentFlag, 0),
      4 + Lookup(fs, Log2MaxFrameNumMinus4, -5), Lookup(fs, PicOrderCntType, -1),
      4 + Lookup(fs, Log2MaxPicOrderCntLsbMinus4, -5), Lookup(fs, MaxNumRefFrames, -1),
      Lookup(fs, GapsInFrameNumValueAllowedFlag, -1),
      1 + Lookup(fs, PicWidthInMbsMinus1, -1), 1 + Lookup(fs, PicHeightInMapUnitsMinus1, -1),
      Lookup(fs, FrameMbsOnlyFlag, -1), Lookup(fs, MbAdaptiveFrameFieldFlag, 0), Lookup(fs, Direct8x8InferenceFlag, -1),
      Lookup(fs, FrameCropLeftOffset, 0), Lookup(fs, FrameCropRightOffset, 0),
      Lookup(fs, FrameCropTopOffset, 0), Lookup(fs, FrameCropBottomOffset, 0), Lookup(fs, VuiParametersPresentFlag, -1))
  }

  /** Table 6-1 and equations 7-19 to 7-22: the units in which cropping is counted. */
  function CropUnitX(m: SpsMeaning): int {
    if m.separatePlanes == 0 && (m.chromaFormat == 1 || m.chromaFormat == 2) then 2 else 1
  }

  function CropUnitY(m: SpsMeaning): int {
    (if m.separatePlanes == 0 && m.chromaFormat == 1 then 2 else 1) * (2 - m.frameMbsOnly)
  }

  function DecodedWidth(m: SpsMeaning): int {
    16 * m.widthInMbs - CropUnitX(m) * (m.cropLeft + m.cropRight)
  }

  function DecodedHeight(m: SpsMeaning): int {
    16 * m.heightInMapUnits * (2 - m.frameMbsOnly) - CropUnitY(m) * (m.cropTop + m.cropBottom)
  }

  function SpsHead(profile: Profile, p: SeqParam): Named<SpsName>
    requires SeqParamOk(p)
  {
    [(ProfileIdc, U(ProfileNumber(profile), 8))] + SpsStart(profile, p)
  }

  function SpsFormat(profile: Profile): Named<SpsName> {
    if profile.High? then SpsChroma() else []
  }

  lemma Regroupings<T>(h: seq<T>, f: seq<T>, p: seq<T>, c: seq<T>, e: seq<T>)
    ensures h + (f + (p + (c + e))) == (h + f) + (p + (c + e))
    ensures (h + f) + (p + (c + e)) == ((h + f) + p) + (c + e)
    ensures ((h + f) + p) + (c + e) == (((h + f) + p) + c) + (e + [])
  {
    Associative(h, f, p + (c + e));
    Associative(h + f, p, c + e);
    Associative((h + f) + p, c, e);
  }

  lemma SpsBlocks(profile: Profile, p: SeqParam)
    requires SeqParamOk(p)
    ensures var es, tail := SpsFields(profile, p), SpsCropping(p) + SpsEnd();
            && es == [] + (SpsHead(profile, p) + (SpsFormat(profile) + (SpsPicture(p) + tail)))
            && es == SpsHead(profile, p) + (SpsFormat(profile) + (SpsPicture(p) + tail))
            && es == (SpsHead(profile, p) + SpsFormat(profile)) + (SpsPicture(p) + tail)
            && es == (SpsHead(profile, p) + SpsFormat(profile) + SpsPicture(p)) + tail
            && es == (SpsHead(profile, p) + SpsFormat(profile) + SpsPicture(p) + SpsCropping(p)) + (SpsEnd() + [])
  {
    var first, rest := [(ProfileIdc, U(ProfileNumber(profile), 8))], SpsFormat(profile) + (SpsPicture(p) + (SpsCropping(p) + SpsEnd()));
    assert SpsFields(profile, p) == first + (SpsStart(profile, p) + rest);
    Associative(first, SpsStart(profile, p), rest);
    Regroupings(SpsHead(profile, p), SpsFormat(profile), SpsPicture(p), SpsCropping(p), SpsEnd());
  }

  lemma HeadField(profile: Profile, p: SeqParam, i: nat, absent: int)
    requires SeqParamOk(p) && i < 8
    ensures Lookup(Values(SpsFields(profile, p)), SpsHead(profile, p)[i].0, absent) == ValueOf(SpsHead(profile, p)[i].1)
  {
    var head := SpsHead(profile, p);
    assert i == 0 || i == 1 || i == 2 || i == 3 || i == 4 || i == 5 || i == 6 || i == 7;
    assert forall j :: 0 <= j < i ==> head[j].0 != head[i].0;
    SpsBlocks(profile, p);
    FieldAt([], head, SpsFormat(profile) + (SpsPicture(p) + (SpsCropping(p) + SpsEnd())), i, absent);
  }

  lemma FormatField(p: SeqParam, i: nat, absent: int)
    requires SeqParamOk(p) && i < 5
    ensures Lookup(Values(SpsFields(High, p)), SpsChroma()[i].0, absent) == ValueOf(SpsChroma()[i].1)
  {
    assert i == 0 || i == 1 || i == 2 || i == 3 || i == 4;
    assert forall j :: 0 <= j < i ==> SpsChroma()[j].0 != SpsChroma()[i].0;
    SpsBlocks(High, p);
    FieldAt(SpsHead(High, p), SpsChroma(), SpsPicture(p) + (SpsCropping(p) + SpsEnd()), i, absent);
  }

  lemma AbsentFromFour<N>(a: Named<N>, b: Named<N>, c: Named<N>, d: Named<N>, name: N, absent: int)
    requires forall j :: 0 <= j < |a| ==> a[j].0 != name
    requires forall j :: 0 <= j < |b| ==> b[j].0 != name
    requires forall j :: 0 <= j < |c| ==> c[j].0 != name
    requires forall j :: 0 <= j < |d| ==> d[j].0 != name
    ensures Lookup(Values(a + (b + (c + d))), name, absent) == absent
  {
    NamedConcat(a, b + (c + d), name, absent);
    NamedConcat(b, c + d, name, absent);
    NamedConcat(c, d, name, absent);
    FieldAbsent(d, name, absent);
    FieldAbsent(c, name, absent);
    FieldAbsent(b, name, absent);
    FieldAbsent(a, name, absent);
  }

  predicate IsFormatName(name: SpsName) {
    name == ChromaFormatIdc || name == BitDepthLumaMinus8 || name == BitDepthChromaMinus8
    || name == QpprimeYZeroTransformBypassFlag || name == SeqScalingMatrixPresentFlag
  }

  /** Names that stand in no other block than that of the format. */
  lemma OutsideFormat(profile: Profile, p: SeqParam, name: SpsName)
    requires SeqParamOk(p) && (IsFormatName(name) || name == SeparateColourPlaneFlag || name == MbAdaptiveFrameFieldFlag)
    ensures forall j :: 0 <= j < 8 ==> SpsHead(profile, p)[j].0 != name
    ensures forall j :: 0 <= j < 10 ==> SpsPicture(p)[j].0 != name
    ensures var tail := SpsCropping(p) + SpsEnd(); forall j :: 0 <= j < |tail| ==> tail[j].0 != name
  {
  }

  lemma FormatAbsent(p: SeqParam, name: SpsName, absent: int)
    requires SeqParamOk(p) && IsFormatName(name)
    ensures Lookup(Values(SpsFields(Main, p)), name, absent) == absent
  {
    OutsideFormat(Main, p, name);
    SpsBlocks(Main, p);
    AbsentFromFour(SpsHead(Main, p), SpsFormat(Main), SpsPicture(p), SpsCropping(p) + SpsEnd(), name, absent);
  }

  lemma NeverPrinted(profile: Profile, p: SeqParam, name: SpsName, absent: int)
    requires SeqParamOk(p) && (name == SeparateColourPlaneFlag || name == MbAdaptiveFrameFieldFlag)
    ensures Lookup(Values(SpsFields(profile, p)), name, absent) == absent
  {
    OutsideFormat(profile, p, name);
    assert forall j :: 0 <= j < |SpsFormat(profile)| ==> SpsFormat(profile)[j].0 != name;
    SpsBlocks(profile, p);
    AbsentFromFour(SpsHead(profile, p), SpsFormat(profile), SpsPicture(p), SpsCropping(p) + SpsEnd(), name, absent);
  }

  lemma PictureNamesDiffer(profile: Profile, p: SeqParam, i: nat)
    requires SeqParamOk(p) && i < |SpsPicture(p)|
    ensures forall j :: 0 <= j < i ==> SpsPicture(p)[j].0 != SpsPicture(p)[i].0
    ensures var before := SpsHead(profile, p) + SpsFormat(profile);
            forall j :: 0 <= j < |before| ==> before[j].0 != SpsPicture(p)[i].0
  {
    assert i == 0 || i == 1 || i == 2 || i == 3 || i == 4 || i == 5 || i == 6 || i == 7 || i == 8 || i == 9;
  }

  lemma PictureField(profile: Profile, p: SeqParam, i: nat, absent: int)
    requires SeqParamOk(p) && i < |SpsPicture(p)|
    ensures Lookup(Values(SpsFields(profile, p)), SpsPicture(p)[i].0, absent) == ValueOf(SpsPicture(p)[i].1)
  {
    PictureNamesDiffer(profile, p, i);
    SpsBlocks(profile, p);
    FieldAt(SpsHead(profile, p) + SpsFormat(profile), SpsPicture(p), SpsCropping(p) + SpsEnd(), i, absent);
  }

  lemma NotBeforeCropping(profile: Profile, p: SeqParam, name: SpsName)
    requires SeqParamOk(p)
    requires name == FrameCropLeftOffset || name == FrameCropRightOffset || name == FrameCropTopOffset || name == FrameCropBottomOffset
    ensures var before := SpsHead(profile, p) + SpsFormat(profile) + SpsPicture(p);
            forall j :: 0 <= j < |before| ==> before[j].0 != name
  {
  }

  lemma CropField(profile: Profile, p: SeqParam, name: SpsName, i: nat)
    requires SeqParamOk(p) && i < 4
    requires name == [FrameCropLeftOffset, FrameCropRightOffset, FrameCropTopOffset, FrameCropBottomOffset][i]
    ensures Lookup(Values(SpsFields(profile, p)), name, 0) == if p.cropping then [p.cropLeft, p.cropRight, p.cropTop, p.cropBottom][i] else 0
  {
    NotBeforeCropping(profile, p, name);
    if p.cropping {
      CropPrinted(profile, p, name, i);
    } else {
      CropAbsent(profile, p, name);
    }
  }

  lemma CropPrinted(profile: Profile, p: SeqParam, name: SpsName, i: nat)
    requires SeqParamOk(p) && i < 4 && p.cropping
    requires name == [FrameCropLeftOffset, FrameCropRightOffset, FrameCropTopOffset, FrameCropBottomOffset][i]
    requires var before := SpsHead(profile, p) + SpsFormat(profile) + SpsPicture(p);
             forall j :: 0 <= j < |before| ==> before[j].0 != name
    ensures Lookup(Values(SpsFields(profile, p)), name, 0) == [p.cropLeft, p.cropRight, p.cropTop, p.cropBottom][i]
  {
    var before := SpsHead(profile, p) + SpsFormat(profile) + SpsPicture(p);
    SpsBlocks(profile, p);
    assert before + (SpsCropping(p) + SpsEnd()) == SpsFields(profile, p);
    assert i == 0 || i == 1 || i == 2 || i == 3;
    FieldAt(before, SpsCropping(p), SpsEnd(), i, 0);
  }

  lemma CropAbsent(profile: Profile, p: SeqParam, name: SpsName)
    requires SeqParamOk(p) && !p.cropping && name != VuiParametersPresentFlag
    requires var before := SpsHead(profile, p) + SpsFormat(profile) + SpsPicture(p);
             forall j :: 0 <= j < |before| ==> before[j].0 != name
    ensures Lookup(Values(SpsFields(profile, p)), name, 0) == 0
  {
    var before := SpsHead(profile, p) + SpsFormat(profile) + SpsPicture(p);
    SpsBlocks(profile, p);
    NamedConcat(before, SpsCropping(p) + SpsEnd(), name, 0);
    FieldAbsent(SpsCropping(p) + SpsEnd(), name, 0);
    FieldAbsent(before, name, 0);
  }

  lemma EndField(profile: Profile, p: SeqParam, absent: int)
    requires SeqParamOk(p)
    ensures Lookup(Values(SpsFields(profile, p)), VuiParametersPresentFlag, absent) == 0
  {
    var before := SpsHead(profile, p) + SpsFormat(profile) + SpsPicture(p) + SpsCropping(p);
    assert forall j :: 0 <= j < |before| ==> before[j].0 != VuiParametersPresentFlag;
    SpsBlocks(profile, p);
    FieldAt(before, SpsEnd(), [], 0, absent);
  }

  /** Profile, constraint flags, level and identity. */
  lemma HeadSays(profile: Profile, p: SeqParam)
    requires SeqParamOk(p)
    ensures var m := SpsSays(Values(SpsFields(profile, p)));
            && m.profileIdc == (if profile.High? then 100 else 77)
            && m.constraints == [0, if profile.High? then 0 else 1, 0, if profile.High? then 1 else 0, 0]
            && m.levelIdc == p.levelIdc && m.id == p.seqParameterSetId
  {
    HeadField(profile, p, 0, 0);
    HeadField(profile, p, 1, 0);
    HeadField(profile, p, 2, 0);
    HeadField(profile, p, 3, 0);
    HeadField(profile, p, 4, 0);
    HeadField(profile, p, 5, 0);
    HeadField(profile, p, 6, 0);
    HeadField(profile, p, 7, 0);
  }

  lemma MainFormatSays(p: SeqParam)
    requires SeqParamOk(p)
    ensures var m := SpsSays(Values(SpsFields(Main, p)));
            m.chromaFormat == 1 && m.lumaBits == 8 && m.chromaBits == 8 && m.lossless == 0 && m.scalingMatrix == 0
  {
    FormatAbsent(p, ChromaFormatIdc, 1);
    FormatAbsent(p, BitDepthLumaMinus8, 0);
    FormatAbsent(p, BitDepthChromaMinus8, 0);
    FormatAbsent(p, QpprimeYZeroTransformBypassFlag, 0);
    FormatAbsent(p, SeqScalingMatrixPresentFlag, 0);
  }

  lemma HighFormatSays(p: SeqParam)
    requires SeqParamOk(p)
    ensures var m := SpsSays(Values(SpsFields(High, p)));
            m.chromaFormat == 1 && m.lumaBits == 8 && m.chromaBits == 8 && m.lossless == 0 && m.scalingMatrix == 0
  {
    FormatField(p, 0, 1);
    FormatField(p, 1, 0);
    FormatField(p, 2, 0);
    FormatField(p, 3, 0);
    FormatField(p, 4, 0);
  }

  /** Both profiles: 4:2:0 with 8 bits, no lossless mode and flat scaling. */
  lemma FormatSays(profile: Profile, p: SeqParam)
    requires SeqParamOk(p)
    ensures var m := SpsSays(Values(SpsFields(profile, p)));
            && m.chromaFormat == 1 && m.separatePlanes == 0 && m.lumaBits == 8 && m.chromaBits == 8
            && m.lossless == 0 && m.scalingMatrix == 0
  {
    NeverPrinted(profile, p, SeparateColourPlaneFlag, 0);
    match profile
    case Main => MainFormatSays(p);
    case High => HighFormatSays(p);
  }

  lemma PictureSays(profile: Profile, p: SeqParam)
    requires SeqParamOk(p)
    ensures var m := SpsSays(Values(SpsFields(profile, p)));
            && m.frameNumBits == 4 + p.log2MaxFrameNumMinus4 && m.pocType == 0 && m.pocLsbBits == 4 + p.log2MaxPocLsbMinus4
            && m.references == p.maxNumRefFrames && m.gaps == 0
            && m.widthInMbs == p.widthInMbs && m.heightInMapUnits == p.heightInMbs
            && m.frameMbsOnly == 1 && m.mbAdaptive == 0 && m.direct8x8 == (if p.direct8x8 then 1 else 0)
  {
    NeverPrinted(profile, p, MbAdaptiveFrameFieldFlag, 0);
    PictureField(profile, p, 0, -5);
    PictureField(profile, p, 1, -1);
    PictureField(profile, p, 2, -5);
    PictureField(profile, p, 3, -1);
    PictureField(profile, p, 4, -1);
    PictureField(profile, p, 5, -1);
    PictureField(profile, p, 6, -1);
    PictureField(profile, p, 7, -1);
    PictureField(profile, p, 8, -1);
  }

  lemma CroppingSays(profile: Profile, p: SeqParam)
    requires SeqParamOk(p)
    ensures var m := SpsSays(Values(SpsFields(profile, p)));
            && m.cropLeft == (if p.cropping then p.cropLeft else 0) && m.cropRight == (if p.cropping then p.cropRight else 0)
            && m.cropTop == (if p.cropping then p.cropTop else 0) && m.cropBottom == (if p.cropping then p.cropBottom else 0)
            && m.vui == 0
  {
    CropField(profile, p, FrameCropLeftOffset, 0);
    CropField(profile, p, FrameCropRightOffset, 1);
    CropField(profile, p, FrameCropTopOffset, 2);
    CropField(profile, p, FrameCropBottomOffset, 3);
    EndField(profile, p, -1);
  }

  /** What a decoder takes from the set the encoder prints, for any frame size. */
  lemma FilledSpsSays(profile: Profile, width: nat, height: nat)
    requires SeqParamOk(FillSeqParam(width, height))
    ensures var m := SpsSays(Values(SpsFields(profile, FillSeqParam(width, height))));
            && m.profileIdc == (if profile.High? then 100 else 77) && m.levelIdc == 41 && m.id == 0
            && m.chromaFormat == 1 && m.lumaBits == 8 && m.chromaBits == 8
            && m.frameNumBits == 16 && m.pocType == 0 && m.pocLsbBits == 8 && m.references == 16 && m.gaps == 0
            && m.frameMbsOnly == 1 && m.direct8x8 == 1 && m.vui == 0
  {
    var p := FillSeqParam(width, height);
    HeadSays(profile, p);
    FormatSays(profile, p);
    PictureSays(profile, p);
    CroppingSays(profile, p);
  }

  /**
   * The picture a decoder shows is frame_width x frame_height rounded up to even numbers, from the upper left
   * corner on: the announced cropping is exact if and only if both are even.
   */
  lemma DecodedSize(profile: Profile, width: nat, height: nat)
    requires 1 <= width < 0x4000_0000 && 1 <= height < 0x4000_0000
    ensures SeqParamOk(FillSeqParam(width, height))
    ensures var m := SpsSays(Values(SpsFields(profile, FillSeqParam(width, height))));
            && DecodedWidth(m) == width + width % 2 && m.cropLeft == 0
            && DecodedHeight(m) == height + height % 2 && m.cropTop == 0
  {
    CroppedSize(width);
    CroppedSize(height);
    SizeFromFields(profile, FillSeqParam(width, height));
    CroppingSays(profile, FillSeqParam(width, height));
  }

  lemma SizeFromFields(profile: Profile, p: SeqParam)
    requires SeqParamOk(p)
    ensures var m, crop := SpsSays(Values(SpsFields(profile, p))), if p.cropping then 2 else 0;
            && DecodedWidth(m) == 16 * p.widthInMbs - crop * (p.cropLeft + p.cropRight)
            && DecodedHeight(m) == 16 * p.heightInMbs - crop * (p.cropTop + p.cropBottom)
  {
    FormatSays(profile, p);
    PictureSays(profile, p);
    CroppingSays(profile, p);
    SizeOf(SpsSays(Values(SpsFields(profile, p))), p);
  }

  lemma SizeOf(m: SpsMeaning, p: SeqParam)
    requires m.chromaFormat == 1 && m.separatePlanes == 0 && m.frameMbsOnly == 1
    requires m.widthInMbs == p.widthInMbs && m.heightInMapUnits == p.heightInMbs
    requires m.cropLeft == (if p.cropping then p.cropLeft else 0) && m.cropRight == (if p.cropping then p.cropRight else 0)
    requires m.cropTop == (if p.cropping then p.cropTop else 0) && m.cropBottom == (if p.cropping then p.cropBottom else 0)
    ensures var crop := if p.cropping then 2 else 0;
            && DecodedWidth(m) == 16 * p.widthInMbs - crop * (p.cropLeft + p.cropRight)
            && DecodedHeight(m) == 16 * p.heightInMbs - crop * (p.cropTop + p.cropBottom)
  {
  }

  lemma CroppedSize(x: nat)
    ensures MbAligned(x) % 16 == 0 && x <= MbAligned(x) < x + 16
    ensures MbAligned(x) - 2 * ((MbAligned(x) - x) / 2) == x + x % 2
  {
    var m := (x + 15) / 16;
    var half, odd := x / 2, x % 2;
    assert MbAligned(x) - x == 2 * (8 * m - half - odd) + odd;
    Arithmetic.DivMod(MbAligned(x) - x, 8 * m - half - odd, odd, 2);
    Arithmetic.DivMod(MbAligned(x), m, 0, 16);
  }

  // ---------------------------------------------------------------------------------------------
  // Picture parameter set
  // ---------------------------------------------------------------------------------------------

  datatype PpsMeaning = PpsMeaning(
    id: int, spsId: int, cabac: int, bottomFieldOrder: int, sliceGroups: int,
    activeL0: int, activeL1: int, weightedPred: int, weightedBipred: int,
    initQp: int, initQs: int, chromaQpOffset: int, deblockingControl: int, constrainedIntra: int, redundantPicCnt: int,
    transform8x8: int, scalingMatrix: int, secondChromaQpOffset: int)

  /** Section 7.4.2.2. */
  function PpsSays(fs: Fields<PpsName>): PpsMeaning {
    PpsMeaning(
      Lookup(fs, PpsId, -1), Lookup(fs, PpsSeqParameterSetId, -1), Lookup(fs, EntropyCodingModeFlag, -1),
      Lookup(fs, BottomFieldPicOrderInFramePresentFlag, -1), 1 + Lookup(fs, NumSliceGroupsMinus1, -1),
      1 + Lookup(fs, NumRefIdxL0DefaultActiveMinus1, -1), 1 + Lookup(fs, NumRefIdxL1DefaultActiveMinus1, -1),
      Lookup(fs, WeightedPredFlag, -1), Lookup(fs, WeightedBipredIdc, -1),
      26 + Lookup(fs, PicInitQpMinus26, -100), 26 + Lookup(fs, PicInitQsMinus26, -100), Lookup(fs, ChromaQpIndexOffset, -100),
      Lookup(fs, DeblockingFilterControlPresentFlag, -1), Lookup(fs, ConstrainedIntraPredFlag, -1),
      Lookup(fs, RedundantPicCntPresentFlag, -1), Lookup(fs, Transform8x8ModeFlag, 0),
      Lookup(fs, PicScalingMatrixPresentFlag, 0),
      Lookup(fs, SecondChromaQpIndexOffset, Lookup(fs, ChromaQpIndexOffset, -100)))
  }

  lemma PpsFront(p: PicParam, i: nat, absent: int)
    requires PicParamOk(p) && i < 9
    ensures Lookup(Values(PpsFields(p)), PpsFields(p)[i].0, absent) == ValueOf(PpsFields(p)[i].1)
  {
    var es := PpsFields(p);
    assert i == 0 || i == 1 || i == 2 || i == 3 || i == 4 || i == 5 || i == 6 || i == 7 || i == 8;
    LookupAt(Values(es), es[i].0, absent, i);
  }

  lemma PpsBlocks(p: PicParam)
    requires PicParamOk(p)
    ensures PpsFields(p) == PpsFields(p)[..9] + (PpsQuantizer(p) + [])
  {
  }

  lemma PpsNamesDiffer(p: PicParam, i: nat)
    requires PicParamOk(p) && i < 9
    ensures forall j :: 0 <= j < i ==> PpsQuantizer(p)[j].0 != PpsQuantizer(p)[i].0
    ensures forall j :: 0 <= j < 9 ==> PpsFields(p)[..9][j].0 != PpsQuantizer(p)[i].0
  {
    assert i == 0 || i == 1 || i == 2 || i == 3 || i == 4 || i == 5 || i == 6 || i == 7 || i == 8;
  }

  lemma PpsBack(p: PicParam, i: nat, absent: int)
    requires PicParamOk(p) && i < 9
    ensures Lookup(Values(PpsFields(p)), PpsQuantizer(p)[i].0, absent) == ValueOf(PpsQuantizer(p)[i].1)
  {
    PpsNamesDiffer(p, i);
    PpsBlocks(p);
    FieldAt(PpsFields(p)[..9], PpsQuantizer(p), [], i, absent);
  }

  lemma PpsFrontSays(p: PicParam)
    requires PicParamOk(p)
    ensures var m := PpsSays(Values(PpsFields(p)));
            && m.id == p.ppsId && m.spsId == p.spsId && m.cabac == (if p.entropyCoding then 1 else 0)
            && m.bottomFieldOrder == 0 && m.sliceGroups == 1
            && m.activeL0 == p.numRefIdxL0 + 1 && m.activeL1 == p.numRefIdxL1 + 1
            && m.weightedPred == (if p.weightedPred then 1 else 0) && m.weightedBipred == p.weightedBipredIdc
  {
    PpsFront(p, 0, -1);
    PpsFront(p, 1, -1);
    PpsFront(p, 2, -1);
    PpsFront(p, 3, -1);
    PpsFront(p, 4, -1);
    PpsFront(p, 5, -1);
    PpsFront(p, 6, -1);
    PpsFront(p, 7, -1);
    PpsFront(p, 8, -1);
  }

  lemma PpsBackSays(p: PicParam)
    requires PicParamOk(p)
    ensures var m := PpsSays(Values(PpsFields(p)));
            && m.initQp == p.picInitQp && m.initQs == 26 && m.chromaQpOffset == 0
            && m.deblockingControl == (if p.deblockingControl then 1 else 0) && m.constrainedIntra == 0 && m.redundantPicCnt == 0
            && m.transform8x8 == (if p.transform8x8 then 1 else 0) && m.scalingMatrix == 0
            && m.secondChromaQpOffset == p.secondChromaQpIndexOffset
  {
    PpsBack(p, 0, -100);
    PpsBack(p, 1, -100);
    PpsBack(p, 2, -100);
    PpsBack(p, 3, -1);
    PpsBack(p, 4, -1);
    PpsBack(p, 5, -1);
    PpsBack(p, 6, 0);
    PpsBack(p, 7, 0);
    PpsBack(p, 8, Lookup(Values(PpsFields(p)), ChromaQpIndexOffset, -100));
  }

  /** What a decoder takes from the picture parameter set the encoder prints; it refers to the sequence set's id. */
  lemma FilledPpsSays(profile: Profile, width: nat, height: nat)
    requires SeqParamOk(FillSeqParam(width, height))
    ensures PpsSays(Values(PpsFields(FILLED_PPS)))
         == PpsMeaning(0, SpsSays(Values(SpsFields(profile, FillSeqParam(width, height)))).id, 1, 0, 1, 1, 1, 0, 0, 15, 26, 0, 1, 0, 0, 0, 0, 0)
  {
    PpsFrontSays(FILLED_PPS);
    PpsBackSays(FILLED_PPS);
    HeadSays(profile, FillSeqParam(width, height));
  }

  // ---------------------------------------------------------------------------------------------
  // Slice header
  // ---------------------------------------------------------------------------------------------

  datatype SliceMeaning = SliceMeaning(
    firstMb: int, sliceType: int, ppsId: int, frameNum: int, idrPicId: int, pocLsb: int,
    directSpatial: int, activeOverride: int, activeL0Minus1: int, activeL1Minus1: int, modifiesL0: int, modifiesL1: int,
    noOutput: int, longTerm: int, adaptive: int,
    cabacInitIdc: int, qpDelta: int, deblockingIdc: int, alphaOffset: int, betaOffset: int)

  /** Section 7.4.3; what is neither present nor inferred is -1. */
  function SliceSays(fs: Fields<SliceName>): SliceMeaning {
    SliceMeaning(
      Lookup(fs, FirstMbInSlice, -1), Lookup(fs, SliceTypeField, -1), Lookup(fs, SlicePpsId, -1), Lookup(fs, FrameNum, -1),
      Lookup(fs, IdrPicId, -1), Lookup(fs, PicOrderCntLsb, -1),
      Lookup(fs, DirectSpatialMvPredFlag, -1), Lookup(fs, NumRefIdxActiveOverrideFlag, -1),
      Lookup(fs, NumRefIdxL0ActiveMinus1, -1), Lookup(fs, NumRefIdxL1ActiveMinus1, -1),
      Lookup(fs, RefPicListModificationFlagL0, -1), Lookup(fs, RefPicListModificationFlagL1, -1),
      Lookup(fs, NoOutputOfPriorPicsFlag, -1), Lookup(fs, LongTermReferenceFlag, -1), Lookup(fs, AdaptiveRefPicMarkingModeFlag, -1),
      Lookup(fs, CabacInitIdc, -1), Lookup(fs, SliceQpDelta, -100), Lookup(fs, DisableDeblockingFilterIdc, 0),
      Lookup(fs, SliceAlphaC0OffsetDiv2, 0), Lookup(fs, SliceBetaOffsetDiv2, 0))
  }

  lemma StartSays(s: SliceParam, name: SliceName, absent: int)
    requires SliceParamOk(s)
    ensures Lookup(Values(SliceStart(s)), name, absent) ==
              match name
              case FirstMbInSlice => s.firstMb
              case SliceTypeField => (match s.sliceType case SliceP => 0 case SliceB => 1 case SliceI => 2)
              case SlicePpsId => s.ppsId
              case _ => absent
  {
    var es := SliceStart(s);
    assert es == [es[0]] + ([es[1]] + [es[2]]);
    NamedConcat([es[0]], [es[1]] + [es[2]], name, absent);
    NamedConcat([es[1]], [es[2]], name, absent);
    NamedOne(es[2], name, absent);
    NamedOne(es[1], name, Lookup(Values([es[2]]), name, absent));
    NamedOne(es[0], name, Lookup(Values([es[1]] + [es[2]]), name, absent));
  }

  lemma NumbersSay(s: SliceParam, f: PictureFlags, name: SliceName, absent: int)
    requires SliceParamOk(s)
    ensures Lookup(Values(SliceNumbers(s, f)), name, absent) ==
              match name
              case FrameNum => s.frameNum
              case IdrPicId => if f.idr then s.idrPicId else absent
              case PicOrderCntLsb => s.poc
              case _ => absent
  {
    var first, last := (FrameNum, U(s.frameNum, FRAME_NUM_BITS)), (PicOrderCntLsb, U(s.poc, POC_LSB_BITS));
    var middle: Named<SliceName> := if f.idr then [(IdrPicId, Ue(s.idrPicId))] else [];
    assert SliceNumbers(s, f) == [first] + (middle + [last]);
    NamedConcat([first], middle + [last], name, absent);
    NamedConcat(middle, [last], name, absent);
    NamedOne(last, name, absent);
    NamedOptional(f.idr, (IdrPicId, Ue(s.idrPicId)), name, Lookup(Values([last]), name, absent));
    NamedOne(first, name, Lookup(Values(middle + [last]), name, absent));
  }

  lemma NamedOptional<N>(present: bool, field: (N, Element), name: N, absent: int)
    ensures Lookup(Values(if present then [field] else []), name, absent)
         == if present && field.0 == name then ValueOf(field.1) else absent
  {
    if present {
      NamedOne(field, name, absent);
    }
  }

  lemma NamedPair<N>(a: (N, Element), b: (N, Element), name: N, absent: int)
    ensures Lookup(Values([a, b]), name, absent)
         == if a.0 == name then ValueOf(a.1) else if b.0 == name then ValueOf(b.1) else absent
  {
    assert [a, b] == [a] + [b];
    NamedConcat([a], [b], name, absent);
    NamedOne(b, name, absent);
    NamedOne(a, name, Lookup(Values([b]), name, absent));
  }

  function ListsOverride(s: SliceParam): Named<SliceName>
    requires SliceParamOk(s)
  {
    if !s.refOverride then []
    else if s.sliceType.SliceP? then [(NumRefIdxL0ActiveMinus1, Ue(s.numRefIdxL0))]
    else [(NumRefIdxL0ActiveMinus1, Ue(s.numRefIdxL0)), (NumRefIdxL1ActiveMinus1, Ue(s.numRefIdxL1))]
  }

  function ListsModification(s: SliceParam): Named<SliceName> {
    if s.sliceType.SliceP? then [(RefPicListModificationFlagL0, U(0, 1))]
    else [(RefPicListModificationFlagL0, U(0, 1)), (RefPicListModificationFlagL1, U(0, 1))]
  }

  lemma OverrideSays(s: SliceParam, name: SliceName, absent: int)
    requires SliceParamOk(s)
    ensures Lookup(Values(ListsOverride(s)), name, absent) ==
              match name
              case NumRefIdxL0ActiveMinus1 => if s.refOverride then s.numRefIdxL0 else absent
              case NumRefIdxL1ActiveMinus1 => if s.refOverride && !s.sliceType.SliceP? then s.numRefIdxL1 else absent
              case _ => absent
  {
    var l0, l1 := (NumRefIdxL0ActiveMinus1, Ue(s.numRefIdxL0)), (NumRefIdxL1ActiveMinus1, Ue(s.numRefIdxL1));
    NamedNone(name, absent);
    NamedOne(l0, name, absent);
    NamedPair(l0, l1, name, absent);
  }

  lemma ModificationSays(s: SliceParam, name: SliceName, absent: int)
    ensures Lookup(Values(ListsModification(s)), name, absent) ==
              match name
              case RefPicListModificationFlagL0 => 0
              case RefPicListModificationFlagL1 => if s.sliceType.SliceP? then absent else 0
              case _ => absent
  {
    NamedOne((RefPicListModificationFlagL0, U(0, 1)), name, absent);
    NamedPair((RefPicListModificationFlagL0, U(0, 1)), (RefPicListModificationFlagL1, U(0, 1)), name, absent);
  }

  lemma ListsSay(s: SliceParam, name: SliceName, absent: int)
    requires SliceParamOk(s)
    ensures Lookup(Values(SliceLists(s)), name, absent) ==
              match name
              case DirectSpatialMvPredFlag => if s.sliceType.SliceB? then Flag(s.directSpatial) else absent
              case NumRefIdxActiveOverrideFlag => if s.sliceType.SliceI? then absent else Flag(s.refOverride)
              case NumRefIdxL0ActiveMinus1 => if !s.sliceType.SliceI? && s.refOverride then s.numRefIdxL0 else absent
              case NumRefIdxL1ActiveMinus1 => if s.sliceType.SliceB? && s.refOverride then s.numRefIdxL1 else absent
              case RefPicListModificationFlagL0 => if s.sliceType.SliceI? then absent else 0
              case RefPicListModificationFlagL1 => if s.sliceType.SliceB? then 0 else absent
              case _ => absent
  {
    if s.sliceType.SliceI? {
      NamedNone(name, absent);
    } else {
      InterListsSay(s, name, absent);
      ModificationSays(s, name, absent);
      OverrideSays(s, name, Lookup(Values(ListsModification(s)), name, absent));
    }
  }

  lemma ListsParts(s: SliceParam)
    requires SliceParamOk(s) && !s.sliceType.SliceI?
    ensures var direct, over := (DirectSpatialMvPredFlag, U(Flag(s.directSpatial), 1)), (NumRefIdxActiveOverrideFlag, U(Flag(s.refOverride), 1));
            SliceLists(s) == (if s.sliceType.SliceB? then [direct] else []) + ([over] + (ListsOverride(s) + ListsModification(s)))
  {
  }

  /** The lists of a P or B slice: direct prediction and override flag, counts, modification flags. */
  lemma InterListsSay(s: SliceParam, name: SliceName, absent: int)
    requires SliceParamOk(s) && !s.sliceType.SliceI?
    ensures var counts := Lookup(Values(ListsOverride(s)), name, Lookup(Values(ListsModification(s)), name, absent));
            Lookup(Values(SliceLists(s)), name, absent) ==
              if s.sliceType.SliceB? && name == DirectSpatialMvPredFlag then Flag(s.directSpatial)
              else if name == NumRefIdxActiveOverrideFlag then Flag(s.refOverride)
              else counts
  {
    var direct, over := (DirectSpatialMvPredFlag, U(Flag(s.directSpatial), 1)), (NumRefIdxActiveOverrideFlag, U(Flag(s.refOverride), 1));
    var front: Named<SliceName> := if s.sliceType.SliceB? then [direct] else [];
    var counts, flags := ListsOverride(s), ListsModification(s);
    ListsParts(s);
    NamedConcat(front, [over] + (counts + flags), name, absent);
    NamedConcat([over], counts + flags, name, absent);
    NamedConcat(counts, flags, name, absent);
    NamedOne(over, name, Lookup(Values(counts + flags), name, absent));
    NamedOptional(s.sliceType.SliceB?, direct, name, Lookup(Values([over] + (counts + flags)), name, absent));
  }

  /** An IDR picture: no output is dropped, and it becomes a short-term reference; others use the sliding window. */
  lemma MarkingSays(f: PictureFlags, name: SliceName, absent: int)
    ensures Lookup(Values(SliceMarking(f)), name, absent) ==
              match name
              case NoOutputOfPriorPicsFlag => if f.reference && f.idr then 0 else absent
              case LongTermReferenceFlag => if f.reference && f.idr then 0 else absent
              case AdaptiveRefPicMarkingModeFlag => if f.reference && !f.idr then 0 else absent
              case _ => absent
  {
    NamedNone(name, absent);
    NamedPair((NoOutputOfPriorPicsFlag, U(0, 1)), (LongTermReferenceFlag, U(0, 1)), name, absent);
    NamedOne((AdaptiveRefPicMarkingModeFlag, U(0, 1)), name, absent);
  }

  lemma DeblockingSays(s: SliceParam, f: PictureFlags, name: SliceName, absent: int)
    requires SliceParamOk(s)
    ensures Lookup(Values(SliceDeblocking(s, f)), name, absent) ==
              match name
              case DisableDeblockingFilterIdc => if f.deblockingControl then s.disableDeblocking else absent
              case SliceAlphaC0OffsetDiv2 => if f.deblockingControl && s.disableDeblocking != 1 then s.alphaOffset else absent
              case SliceBetaOffsetDiv2 => if f.deblockingControl && s.disableDeblocking != 1 then s.betaOffset else absent
              case _ => absent
  {
    var idc, alpha, beta := (DisableDeblockingFilterIdc, Ue(s.disableDeblocking)), (SliceAlphaC0OffsetDiv2, Se(s.alphaOffset)), (SliceBetaOffsetDiv2, Se(s.betaOffset));
    NamedNone(name, absent);
    NamedOne((DisableDeblockingFilterIdc, Ue(1)), name, absent);
    assert [idc, alpha, beta] == [idc] + [alpha, beta];
    NamedConcat([idc], [alpha, beta], name, absent);
    NamedPair(alpha, beta, name, absent);
    NamedOne(idc, name, Lookup(Values([alpha, beta]), name, absent));
  }

  lemma EndSays(s: SliceParam, f: PictureFlags, name: SliceName, absent: int)
    requires SliceParamOk(s)
    ensures Lookup(Values(SliceEnd(s, f)), name, absent) ==
              match name
              case CabacInitIdc => if f.entropyCoding && !s.sliceType.SliceI? then s.cabacInitIdc else absent
              case SliceQpDelta => s.qpDelta
              case DisableDeblockingFilterIdc => if f.deblockingControl then s.disableDeblocking else absent
              case SliceAlphaC0OffsetDiv2 => if f.deblockingControl && s.disableDeblocking != 1 then s.alphaOffset else absent
              case SliceBetaOffsetDiv2 => if f.deblockingControl && s.disableDeblocking != 1 then s.betaOffset else absent
              case _ => absent
  {
    var cabac, qp := (CabacInitIdc, Ue(s.cabacInitIdc)), (SliceQpDelta, Se(s.qpDelta));
    var present := f.entropyCoding && !s.sliceType.SliceI?;
    var front: Named<SliceName> := if present then [cabac] else [];
    var filter := SliceDeblocking(s, f);
    assert SliceEnd(s, f) == front + ([qp] + filter);
    NamedConcat(front, [qp] + filter, name, absent);
    NamedConcat([qp], filter, name, absent);
    DeblockingSays(s, f, name, absent);
    NamedOne(qp, name, Lookup(Values(filter), name, absent));
    NamedOptional(present, cabac, name, Lookup(Values([qp] + filter), name, absent));
  }

  /** The five parts of a header, one behind the other. */
  lemma PartsSay(s: SliceParam, f: PictureFlags, name: SliceName, absent: int)
    requires SliceParamOk(s)
    ensures var end := Lookup(Values(SliceEnd(s, f)), name, absent);
            var marking := Lookup(Values(SliceMarking(f)), name, end);
            var lists := Lookup(Values(SliceLists(s)), name, marking);
            var numbers := Lookup(Values(SliceNumbers(s, f)), name, lists);
            Lookup(Values(SliceFields(s, f)), name, absent) == Lookup(Values(SliceStart(s)), name, numbers)
  {
    var last := SliceMarking(f) + SliceEnd(s, f);
    NamedConcat(SliceStart(s), SliceNumbers(s, f) + (SliceLists(s) + last), name, absent);
    NamedConcat(SliceNumbers(s, f), SliceLists(s) + last, name, absent);
    NamedConcat(SliceLists(s), last, name, absent);
    NamedConcat(SliceMarking(f), SliceEnd(s, f), name, absent);
  }

  /** Where a name occurs, it says this; no name occurs twice. */
  lemma FieldSays(s: SliceParam, f: PictureFlags, name: SliceName, absent: int)
    requires SliceParamOk(s)
    ensures Lookup(Values(SliceFields(s, f)), name, absent) ==
              match name
              case FirstMbInSlice => s.firstMb
              case SliceTypeField => (match s.sliceType case SliceP => 0 case SliceB => 1 case SliceI => 2)
              case SlicePpsId => s.ppsId
              case FrameNum => s.frameNum
              case IdrPicId => if f.idr then s.idrPicId else absent
              case PicOrderCntLsb => s.poc
              case DirectSpatialMvPredFlag => if s.sliceType.SliceB? then Flag(s.directSpatial) else absent
              case NumRefIdxActiveOverrideFlag => if s.sliceType.SliceI? then absent else Flag(s.refOverride)
              case NumRefIdxL0ActiveMinus1 => if !s.sliceType.SliceI? && s.refOverride then s.numRefIdxL0 else absent
              case NumRefIdxL1ActiveMinus1 => if s.sliceType.SliceB? && s.refOverride then s.numRefIdxL1 else absent
              case RefPicListModificationFlagL0 => if s.sliceType.SliceI? then absent else 0
              case RefPicListModificationFlagL1 => if s.sliceType.SliceB? then 0 else absent
              case NoOutputOfPriorPicsFlag => if f.reference && f.idr then 0 else absent
              case LongTermReferenceFlag => if f.reference && f.idr then 0 else absent
              case AdaptiveRefPicMarkingModeFlag => if f.reference && !f.idr then 0 else absent
              case CabacInitIdc => if f.entropyCoding && !s.sliceType.SliceI? then s.cabacInitIdc else absent
              case SliceQpDelta => s.qpDelta
              case DisableDeblockingFilterIdc => if f.deblockingControl then s.disableDeblocking else absent
              case SliceAlphaC0OffsetDiv2 => if f.deblockingControl && s.disableDeblocking != 1 then s.alphaOffset else absent
              case SliceBetaOffsetDiv2 => if f.deblockingControl && s.disableDeblocking != 1 then s.betaOffset else absent
  {
    PartsSay(s, f, name, absent);
    EndSays(s, f, name, absent);
    var end := Lookup(Values(SliceEnd(s, f)), name, absent);
    MarkingSays(f, name, end);
    var marking := Lookup(Values(SliceMarking(f)), name, end);
    ListsSay(s, name, marking);
    var lists := Lookup(Values(SliceLists(s)), name, marking);
    NumbersSay(s, f, name, lists);
    StartSays(s, name, Lookup(Values(SliceNumbers(s, f)), name, lists));
  }

  lemma NumbersOfSlice(s: SliceParam, f: PictureFlags)
    requires SliceParamOk(s)
    ensures var m := SliceSays(Values(SliceFields(s, f)));
            && m.firstMb == s.firstMb && m.sliceType == (match s.sliceType case SliceP => 0 case SliceB => 1 case SliceI => 2)
            && m.ppsId == s.ppsId && m.frameNum == s.frameNum && m.pocLsb == s.poc
            && m.idrPicId == (if f.idr then s.idrPicId else -1)
  {
    FieldSays(s, f, FirstMbInSlice, -1);
    FieldSays(s, f, SliceTypeField, -1);
    FieldSays(s, f, SlicePpsId, -1);
    FieldSays(s, f, FrameNum, -1);
    FieldSays(s, f, IdrPicId, -1);
    FieldSays(s, f, PicOrderCntLsb, -1);
  }

  lemma ListsOfSlice(s: SliceParam, f: PictureFlags)
    requires SliceParamOk(s)
    ensures var m, inter, b := SliceSays(Values(SliceFields(s, f))), !s.sliceType.SliceI?, s.sliceType.SliceB?;
            && m.directSpatial == (if !b then -1 else if s.directSpatial then 1 else 0)
            && m.activeOverride == (if !inter then -1 else if s.refOverride then 1 else 0)
            && m.activeL0Minus1 == (if inter && s.refOverride then s.numRefIdxL0 else -1)
            && m.activeL1Minus1 == (if b && s.refOverride then s.numRefIdxL1 else -1)
            && m.modifiesL0 == (if inter then 0 else -1) && m.modifiesL1 == (if b then 0 else -1)
  {
    FieldSays(s, f, DirectSpatialMvPredFlag, -1);
    FieldSays(s, f, NumRefIdxActiveOverrideFlag, -1);
    FieldSays(s, f, NumRefIdxL0ActiveMinus1, -1);
    FieldSays(s, f, NumRefIdxL1ActiveMinus1, -1);
    FieldSays(s, f, RefPicListModificationFlagL0, -1);
    FieldSays(s, f, RefPicListModificationFlagL1, -1);
  }

  lemma MarkingOfSlice(s: SliceParam, f: PictureFlags)
    requires SliceParamOk(s)
    ensures var m := SliceSays(Values(SliceFields(s, f)));
            && m.noOutput == (if f.reference && f.idr then 0 else -1) && m.longTerm == (if f.reference && f.idr then 0 else -1)
            && m.adaptive == (if f.reference && !f.idr then 0 else -1)
  {
    FieldSays(s, f, NoOutputOfPriorPicsFlag, -1);
    FieldSays(s, f, LongTermReferenceFlag, -1);
    FieldSays(s, f, AdaptiveRefPicMarkingModeFlag, -1);
  }

  lemma EndOfSlice(s: SliceParam, f: PictureFlags)
    requires SliceParamOk(s)
    ensures var m, filter := SliceSays(Values(SliceFields(s, f))), f.deblockingControl && s.disableDeblocking != 1;
            && m.cabacInitIdc == (if !s.sliceType.SliceI? && f.entropyCoding then s.cabacInitIdc else -1)
            && m.qpDelta == s.qpDelta && m.deblockingIdc == (if f.deblockingControl then s.disableDeblocking else 0)
            && m.alphaOffset == (if filter then s.alphaOffset else 0) && m.betaOffset == (if filter then s.betaOffset else 0)
  {
    FieldSays(s, f, CabacInitIdc, -1);
    FieldSays(s, f, SliceQpDelta, -100);
    FieldSays(s, f, DisableDeblockingFilterIdc, 0);
    FieldSays(s, f, SliceAlphaC0OffsetDiv2, 0);
    FieldSays(s, f, SliceBetaOffsetDiv2, 0);
  }

  /** What a decoder takes from a header the encoder prints, slice by slice: every field is that of its name. */
  lemma PrintedSliceSays(s: SliceParam, f: PictureFlags)
    requires SliceParamOk(s)
    ensures var inter, b := !s.sliceType.SliceI?, s.sliceType.SliceB?;
            var marked, filter := f.reference, f.deblockingControl && s.disableDeblocking != 1;
            SliceSays(Values(SliceFields(s, f))) == SliceMeaning(
              s.firstMb, match s.sliceType case SliceP => 0 case SliceB => 1 case SliceI => 2, s.ppsId,
              s.frameNum, if f.idr then s.idrPicId else -1, s.poc,
              if !b then -1 else if s.directSpatial then 1 else 0, if !inter then -1 else if s.refOverride then 1 else 0,
              if inter && s.refOverride then s.numRefIdxL0 else -1, if b && s.refOverride then s.numRefIdxL1 else -1,
              if inter then 0 else -1, if b then 0 else -1,
              if marked && f.idr then 0 else -1, if marked && f.idr then 0 else -1, if marked && !f.idr then 0 else -1,
              if inter && f.entropyCoding then s.cabacInitIdc else -1, s.qpDelta,
              if f.deblockingControl then s.disableDeblocking else 0,
              if filter then s.alphaOffset else 0, if filter then s.betaOffset else 0)
  {
    NumbersOfSlice(s, f);
    ListsOfSlice(s, f);
    MarkingOfSlice(s, f);
    EndOfSlice(s, f);
  }
}
