/** The printers of the encoder, call for call on the bit writer, proved to write the field sequences. */
module H264Printers {
  import opened Guards
  import opened Bits
  import opened VaBitstreams
  import opened H264Syntax
  import opened H264ParameterSets
  import opened H264SliceHeader
  import opened H264PackedSlice

  // ---------------------------------------------------------------------------------------------
  // sps_rbsp
  // ---------------------------------------------------------------------------------------------

  method PutSpsProfile(bs: VaBitstream, profile: Profile, p: SeqParam)
    requires bs.Valid() && SeqParamOk(p)
    modifies bs, bs.buffer
    ensures bs.Valid() && (bs.buffer == old(bs.buffer) || fresh(bs.buffer))
    ensures bs.trace == old(bs.trace) + [U(ProfileNumber(profile), 8)] + Elements(SpsStart(profile, p)[..4])
  {
    var profileIdc, constraintSetFlag := 77, 2;
    if profile.High? {
      profileIdc, constraintSetFlag := 100, 8;
    }
    bs.PutUi(profileIdc, 8);
    PutConstraintFlags(bs, constraintSetFlag);
  }

  /** The lowest four bits, lowest first. */
  method PutConstraintFlags(bs: VaBitstream, constraintSetFlag: nat)
    requires bs.Valid()
    modifies bs, bs.buffer
    ensures bs.Valid() && (bs.buffer == old(bs.buffer) || fresh(bs.buffer))
    ensures bs.trace == old(bs.trace) + [U(constraintSetFlag % 2, 1), U(constraintSetFlag / 2 % 2, 1),
                                         U(constraintSetFlag / 4 % 2, 1), U(constraintSetFlag / 8 % 2, 1)]
  {
    bs.PutUi(if constraintSetFlag % 2 != 0 then 1 else 0, 1);
    bs.PutUi(if constraintSetFlag / 2 % 2 != 0 then 1 else 0, 1);
    bs.PutUi(if constraintSetFlag / 4 % 2 != 0 then 1 else 0, 1);
    bs.PutUi(if constraintSetFlag / 8 % 2 != 0 then 1 else 0, 1);
  }

  method PutSpsLevel(bs: VaBitstream, profile: Profile, p: SeqParam)
    requires bs.Valid() && SeqParamOk(p)
    modifies bs, bs.buffer
    ensures bs.Valid() && (bs.buffer == old(bs.buffer) || fresh(bs.buffer))
    ensures bs.trace == old(bs.trace) + Elements(SpsStart(profile, p)[4..])
  {
    bs.PutUi(0, 4);
    bs.PutUi(p.levelIdc, 8);
    bs.PutUe(p.seqParameterSetId);
  }

  method PutSpsStart(bs: VaBitstream, profile: Profile, p: SeqParam)
    requires bs.Valid() && SeqParamOk(p)
    modifies bs, bs.buffer
    ensures bs.Valid() && (bs.buffer == old(bs.buffer) || fresh(bs.buffer))
    ensures bs.trace == old(bs.trace) + [U(ProfileNumber(profile), 8)] + Elements(SpsStart(profile, p))
  {
    Rejoin(bs.trace + [U(ProfileNumber(profile), 8)], SpsStart(profile, p), 4);
    PutSpsProfile(bs, profile, p);
    PutSpsLevel(bs, profile, p);
  }

  method PutSpsChroma(bs: VaBitstream)
    requires bs.Valid()
    modifies bs, bs.buffer
    ensures bs.Valid() && (bs.buffer == old(bs.buffer) || fresh(bs.buffer))
    ensures bs.trace == old(bs.trace) + Elements(SpsChroma())
  {
    bs.PutUe(1);
    bs.PutUe(0);
    bs.PutUe(0);
    bs.PutUi(0, 1);
    bs.PutUi(0, 1);
  }

  method PutSpsReferences(bs: VaBitstream, p: SeqParam)
    requires bs.Valid() && SeqParamOk(p)
    modifies bs, bs.buffer
    ensures bs.Valid() && (bs.buffer == old(bs.buffer) || fresh(bs.buffer))
    ensures bs.trace == old(bs.trace) + Elements(SpsPicture(p)[..5])
  {
    bs.PutUe(p.log2MaxFrameNumMinus4);
    bs.PutUe(0);
    bs.PutUe(p.log2MaxPocLsbMinus4);
    bs.PutUe(p.maxNumRefFrames);
    bs.PutUi(0, 1);
  }

  method PutSpsDimensions(bs: VaBitstream, p: SeqParam)
    requires bs.Valid() && SeqParamOk(p)
    modifies bs, bs.buffer
    ensures bs.Valid() && (bs.buffer == old(bs.buffer) || fresh(bs.buffer))
    ensures bs.trace == old(bs.trace) + Elements(SpsPicture(p)[5..])
  {
    bs.PutUe(p.widthInMbs - 1);
    bs.PutUe(p.heightInMbs - 1);
    bs.PutUi(1, 1);
    bs.PutUi(Flag(p.direct8x8), 1);
    bs.PutUi(Flag(p.cropping), 1);
  }

  method PutSpsPicture(bs: VaBitstream, p: SeqParam)
    requires bs.Valid() && SeqParamOk(p)
    modifies bs, bs.buffer
    ensures bs.Valid() && (bs.buffer == old(bs.buffer) || fresh(bs.buffer))
    ensures bs.trace == old(bs.trace) + Elements(SpsPicture(p))
  {
    Rejoin(bs.trace, SpsPicture(p), 5);
    PutSpsReferences(bs, p);
    PutSpsDimensions(bs, p);
  }

  method PutSpsCropping(bs: VaBitstream, p: SeqParam)
    requires bs.Valid() && SeqParamOk(p)
    modifies bs, bs.buffer
    ensures bs.Valid() && (bs.buffer == old(bs.buffer) || fresh(bs.buffer))
    ensures bs.trace == old(bs.trace) + Elements(SpsCropping(p))
  {
    if p.cropping {
      bs.PutUe(p.cropLeft);
      bs.PutUe(p.cropRight);
      bs.PutUe(p.cropTop);
      bs.PutUe(p.cropBottom);
    }
  }

  /** The whole of sps_rbsp, trailing bits included. */
  function SpsUnit(before: seq<Element>, profile: Profile, p: SeqParam): seq<Element>
    requires SeqParamOk(p)
  {
    var es := before + Elements(SpsFields(profile, p));
    es + Trailing(Length(Render(es)))
  }

  method PutSpsFields(bs: VaBitstream, profile: Profile, p: SeqParam)
    requires bs.Valid() && SeqParamOk(p)
    modifies bs, bs.buffer
    ensures bs.Valid() && (bs.buffer == old(bs.buffer) || fresh(bs.buffer))
    ensures bs.trace == old(bs.trace) + Elements(SpsFields(profile, p))
  {
    SpsBlocksInOrder(bs.trace, profile, p);
    PutSpsFirstHalf(bs, profile, p);
    PutSpsPicture(bs, p);
    PutSpsCropping(bs, p);
    bs.PutUi(0, 1);
  }

  method PutSpsFirstHalf(bs: VaBitstream, profile: Profile, p: SeqParam)
    requires bs.Valid() && SeqParamOk(p)
    modifies bs, bs.buffer
    ensures bs.Valid() && (bs.buffer == old(bs.buffer) || fresh(bs.buffer))
    ensures bs.trace == old(bs.trace) + [U(ProfileNumber(profile), 8)] + Elements(SpsStart(profile, p))
                        + (if profile.High? then Elements(SpsChroma()) else [])
  {
    PutSpsStart(bs, profile, p);
    if profile.High? {
      PutSpsChroma(bs);
    }
  }

  method SpsRbsp(bs: VaBitstream, profile: Profile, p: SeqParam)
    requires bs.Valid() && SeqParamOk(p)
    modifies bs, bs.buffer
    ensures bs.Valid() && (bs.buffer == old(bs.buffer) || fresh(bs.buffer))
    ensures bs.trace == SpsUnit(old(bs.trace), profile, p)
  {
    PutSpsFields(bs, profile, p);
    bs.RbspTrailingBits();
  }

  lemma SpsBlocksInOrder(t: seq<Element>, profile: Profile, p: SeqParam)
    requires SeqParamOk(p)
    ensures t + [U(ProfileNumber(profile), 8)] + Elements(SpsStart(profile, p))
            + (if profile.High? then Elements(SpsChroma()) else []) + Elements(SpsPicture(p))
            + Elements(SpsCropping(p)) + [U(0, 1)]
         == t + Elements(SpsFields(profile, p))
  {
    var chroma := if profile.High? then SpsChroma() else [];
    var a, b, c, d, e := Elements(SpsStart(profile, p)), Elements(chroma), Elements(SpsPicture(p)), Elements(SpsCropping(p)), [U(0, 1)];
    var idc := [U(ProfileNumber(profile), 8)];
    assert Elements(SpsEnd()) == e;
    assert Elements([(ProfileIdc, U(ProfileNumber(profile), 8))]) == idc;
    ElementsConcat(SpsCropping(p), SpsEnd());
    ElementsConcat(SpsPicture(p), SpsCropping(p) + SpsEnd());
    ElementsConcat(chroma, SpsPicture(p) + (SpsCropping(p) + SpsEnd()));
    ElementsConcat(SpsStart(profile, p), chroma + (SpsPicture(p) + (SpsCropping(p) + SpsEnd())));
    ElementsConcat([(ProfileIdc, U(ProfileNumber(profile), 8))],
                   SpsStart(profile, p) + (chroma + (SpsPicture(p) + (SpsCropping(p) + SpsEnd()))));
    RightNested(t, idc, a, b, c, d, e);
  }

  /** A list of fields written in two parts. */
  lemma Rejoin<N>(t: seq<Element>, es: Named<N>, k: nat)
    requires k <= |es|
    ensures t + Elements(es[..k]) + Elements(es[k..]) == t + Elements(es)
  {
    ElementsConcat(es[..k], es[k..]);
    assert es[..k] + es[k..] == es;
    Associative(t, Elements(es[..k]), Elements(es[k..]));
  }

  lemma RightNested<T>(t: seq<T>, x: seq<T>, a: seq<T>, b: seq<T>, c: seq<T>, d: seq<T>, e: seq<T>)
    ensures t + x + a + b + c + d + e == t + (x + (a + (b + (c + (d + e)))))
  {
    Associative(t + x + a + b + c, d, e);
    Associative(t + x + a + b, c, d + e);
    Associative(t + x + a, b, c + (d + e));
    Associative(t + x, a, b + (c + (d + e)));
    Associative(t, x, a + (b + (c + (d + e))));
  }

  // ---------------------------------------------------------------------------------------------
  // pps_rbsp
  // ---------------------------------------------------------------------------------------------

  method PutPpsIds(bs: VaBitstream, p: PicParam)
    requires bs.Valid() && PicParamOk(p)
    modifies bs, bs.buffer
    ensures bs.Valid() && (bs.buffer == old(bs.buffer) || fresh(bs.buffer))
    ensures bs.trace == old(bs.trace) + Elements(PpsFields(p)[..5])
  {
    bs.PutUe(p.ppsId);
    bs.PutUe(p.spsId);
    bs.PutUi(Flag(p.entropyCoding), 1);
    bs.PutUi(0, 1);
    bs.PutUe(0);
  }

  method PutPpsPrediction(bs: VaBitstream, p: PicParam)
    requires bs.Valid() && PicParamOk(p)
    modifies bs, bs.buffer
    ensures bs.Valid() && (bs.buffer == old(bs.buffer) || fresh(bs.buffer))
    ensures bs.trace == old(bs.trace) + Elements(PpsFields(p)[5..9])
  {
    bs.PutUe(p.numRefIdxL0);
    bs.PutUe(p.numRefIdxL1);
    bs.PutUi(Flag(p.weightedPred), 1);
    bs.PutUi(p.weightedBipredIdc, 2);
  }

  method PutPpsQuantizer(bs: VaBitstream, p: PicParam)
    requires bs.Valid() && PicParamOk(p)
    modifies bs, bs.buffer
    ensures bs.Valid() && (bs.buffer == old(bs.buffer) || fresh(bs.buffer))
    ensures bs.trace == old(bs.trace) + Elements(PpsQuantizer(p)[..5])
  {
    bs.PutSe(p.picInitQp - 26);
    bs.PutSe(0);
    bs.PutSe(0);
    bs.PutUi(Flag(p.deblockingControl), 1);
    bs.PutUi(0, 1);
  }

  method PutPpsExtension(bs: VaBitstream, p: PicParam)
    requires bs.Valid() && PicParamOk(p)
    modifies bs, bs.buffer
    ensures bs.Valid() && (bs.buffer == old(bs.buffer) || fresh(bs.buffer))
    ensures bs.trace == old(bs.trace) + Elements(PpsQuantizer(p)[5..])
  {
    bs.PutUi(0, 1);
    bs.PutUi(Flag(p.transform8x8), 1);
    bs.PutUi(0, 1);
    bs.PutSe(p.secondChromaQpIndexOffset);
  }

  function PpsUnit(before: seq<Element>, p: PicParam): seq<Element>
    requires PicParamOk(p)
  {
    var es := before + Elements(PpsFields(p));
    es + Trailing(Length(Render(es)))
  }

  method PpsRbsp(bs: VaBitstream, p: PicParam)
    requires bs.Valid() && PicParamOk(p)
    modifies bs, bs.buffer
    ensures bs.Valid() && (bs.buffer == old(bs.buffer) || fresh(bs.buffer))
    ensures bs.trace == PpsUnit(old(bs.trace), p)
  {
    ghost var t, es := bs.trace, PpsFields(p);
    PutPpsIds(bs, p);
    PutPpsPrediction(bs, p);
    assert es[..9][..5] == es[..5] && es[..9][5..] == es[5..9];
    Rejoin(t, es[..9], 5);
    Rejoin(bs.trace, PpsQuantizer(p), 5);
    PutPpsQuantizer(bs, p);
    PutPpsExtension(bs, p);
    assert es[9..] == PpsQuantizer(p);
    Rejoin(t, es, 9);
    bs.RbspTrailingBits();
  }

  // ---------------------------------------------------------------------------------------------
  // slice_header and build_packed_slice_buffer
  // ---------------------------------------------------------------------------------------------

  method PutSliceStart(bs: VaBitstream, s: SliceParam, f: PictureFlags)
    requires bs.Valid() && SliceParamOk(s)
    modifies bs, bs.buffer
    ensures bs.Valid() && (bs.buffer == old(bs.buffer) || fresh(bs.buffer))
    ensures bs.trace == old(bs.trace) + Elements(SliceStart(s) + SliceNumbers(s, f))
  {
    bs.PutUe(s.firstMb);
    bs.PutUe(SliceNumber(s.sliceType));
    bs.PutUe(s.ppsId);
    bs.PutUi(s.frameNum, FRAME_NUM_BITS);
    if f.idr {
      bs.PutUe(s.idrPicId);
    }
    bs.PutUi(s.poc, POC_LSB_BITS);
  }

  method PutSliceLists(bs: VaBitstream, s: SliceParam)
    requires bs.Valid() && SliceParamOk(s)
    modifies bs, bs.buffer
    ensures bs.Valid() && (bs.buffer == old(bs.buffer) || fresh(bs.buffer))
    ensures bs.trace == old(bs.trace) + Elements(SliceLists(s))
  {
    if s.sliceType.SliceP? {
      PutPLists(bs, s);
    } else if s.sliceType.SliceB? {
      PutBLists(bs, s);
    }
  }

  method PutPLists(bs: VaBitstream, s: SliceParam)
    requires bs.Valid() && SliceParamOk(s) && s.sliceType.SliceP?
    modifies bs, bs.buffer
    ensures bs.Valid() && (bs.buffer == old(bs.buffer) || fresh(bs.buffer))
    ensures bs.trace == old(bs.trace) + Elements(SliceLists(s))
  {
    bs.PutUi(Flag(s.refOverride), 1);
    if s.refOverride {
      bs.PutUe(s.numRefIdxL0);
    }
    bs.PutUi(0, 1);
  }

  method PutBLists(bs: VaBitstream, s: SliceParam)
    requires bs.Valid() && SliceParamOk(s) && s.sliceType.SliceB?
    modifies bs, bs.buffer
    ensures bs.Valid() && (bs.buffer == old(bs.buffer) || fresh(bs.buffer))
    ensures bs.trace == old(bs.trace) + Elements(SliceLists(s))
  {
    PutBOverride(bs, s);
    bs.PutUi(0, 1);
    bs.PutUi(0, 1);
  }

  method PutBOverride(bs: VaBitstream, s: SliceParam)
    requires bs.Valid() && SliceParamOk(s)
    modifies bs, bs.buffer
    ensures bs.Valid() && (bs.buffer == old(bs.buffer) || fresh(bs.buffer))
    ensures bs.trace == old(bs.trace) + ([U(Flag(s.directSpatial), 1), U(Flag(s.refOverride), 1)]
                                         + if s.refOverride then [Ue(s.numRefIdxL0), Ue(s.numRefIdxL1)] else [])
  {
    bs.PutUi(Flag(s.directSpatial), 1);
    bs.PutUi(Flag(s.refOverride), 1);
    if s.refOverride {
      bs.PutUe(s.numRefIdxL0);
      bs.PutUe(s.numRefIdxL1);
    }
  }

  method PutSliceMarking(bs: VaBitstream, f: PictureFlags)
    requires bs.Valid()
    modifies bs, bs.buffer
    ensures bs.Valid() && (bs.buffer == old(bs.buffer) || fresh(bs.buffer))
    ensures bs.trace == old(bs.trace) + Elements(SliceMarking(f))
  {
    if f.reference {
      if f.idr {
        bs.PutUi(0, 1);
        bs.PutUi(0, 1);
      } else {
        bs.PutUi(0, 1);
      }
    }
  }

  method PutSliceEnd(bs: VaBitstream, s: SliceParam, f: PictureFlags)
    requires bs.Valid() && SliceParamOk(s)
    modifies bs, bs.buffer
    ensures bs.Valid() && (bs.buffer == old(bs.buffer) || fresh(bs.buffer))
    ensures bs.trace == old(bs.trace) + Elements(SliceEnd(s, f))
  {
    if f.entropyCoding && !s.sliceType.SliceI? {
      bs.PutUe(s.cabacInitIdc);
    }
    bs.PutSe(s.qpDelta);
    PutSliceDeblocking(bs, s, f);
  }

  method PutSliceDeblocking(bs: VaBitstream, s: SliceParam, f: PictureFlags)
    requires bs.Valid() && SliceParamOk(s)
    modifies bs, bs.buffer
    ensures bs.Valid() && (bs.buffer == old(bs.buffer) || fresh(bs.buffer))
    ensures bs.trace == old(bs.trace) + Elements(SliceDeblocking(s, f))
  {
    if f.deblockingControl {
      bs.PutUe(s.disableDeblocking);
      if s.disableDeblocking != 1 {
        bs.PutSe(s.alphaOffset);
        bs.PutSe(s.betaOffset);
      }
    }
  }

  /** slice_header up to its last field. */
  method PutSliceFields(bs: VaBitstream, s: SliceParam, f: PictureFlags)
    requires bs.Valid() && SliceParamOk(s)
    modifies bs, bs.buffer
    ensures bs.Valid() && (bs.buffer == old(bs.buffer) || fresh(bs.buffer))
    ensures bs.trace == old(bs.trace) + Elements(SliceFields(s, f))
  {
    ghost var t := bs.trace;
    PutSliceStart(bs, s, f);
    PutSliceLists(bs, s);
    PutSliceMarking(bs, f);
    PutSliceEnd(bs, s, f);
    SliceBlocksInOrder(t, s, f);
  }

  lemma SliceBlocksInOrder(t: seq<Element>, s: SliceParam, f: PictureFlags)
    requires SliceParamOk(s)
    ensures t + Elements(SliceStart(s) + SliceNumbers(s, f)) + Elements(SliceLists(s)) + Elements(SliceMarking(f))
            + Elements(SliceEnd(s, f))
         == t + Elements(SliceFields(s, f))
  {
    FiveParts(t, SliceStart(s), SliceNumbers(s, f), SliceLists(s), SliceMarking(f), SliceEnd(s, f));
  }

  lemma FiveParts<N>(t: seq<Element>, a: Named<N>, b: Named<N>, c: Named<N>, d: Named<N>, e: Named<N>)
    ensures t + Elements(a + b) + Elements(c) + Elements(d) + Elements(e) == t + Elements(a + (b + (c + (d + e))))
  {
    ElementsConcat(a, b);
    ElementsConcat(d, e);
    ElementsConcat(c, d + e);
    ElementsConcat(b, c + (d + e));
    ElementsConcat(a, b + (c + (d + e)));
    Associative(t, Elements(a), Elements(b));
    Associative(t + Elements(a) + Elements(b) + Elements(c), Elements(d), Elements(e));
    Associative(t + Elements(a) + Elements(b), Elements(c), Elements(d) + Elements(e));
    Associative(t + Elements(a), Elements(b), Elements(c) + (Elements(d) + Elements(e)));
    Associative(t, Elements(a), Elements(b) + (Elements(c) + (Elements(d) + Elements(e))));
  }

  method PutSliceUnit(bs: VaBitstream, s: SliceParam, f: PictureFlags)
    requires bs.Valid() && bs.trace == [] && bs.bitOffset == 0 && SliceParamOk(s)
    modifies bs, bs.buffer
    ensures bs.Valid() && (bs.buffer == old(bs.buffer) || fresh(bs.buffer))
    ensures bs.trace == SliceUnit(s, f)
  {
    bs.StartCodePrefix();
    bs.NalHeader(NalRefIdc(s, f), NalUnitType(s, f));
    assert bs.trace == UnitHead(NalRefIdc(s, f), NalUnitType(s, f));
    PutSliceFields(bs, s, f);
    if f.entropyCoding {
      bs.ByteAlign(true);
    }
  }

  /** The finished unit, and its bytes in memory in writing order. */
  method BuildPackedSliceBuffer(s: SliceParam, f: PictureFlags) returns (bs: VaBitstream)
    requires SliceParamOk(s)
    ensures fresh(bs) && fresh(bs.buffer)
    ensures bs.stream == Render(SliceUnit(s, f)) && bs.bitOffset == Length(bs.stream)
    ensures bs.Shown()
  {
    bs := new VaBitstream();
    PutSliceUnit(bs, s, f);
    assert bs.Stored() && bs.stream == Render(bs.trace) by { assert Opened(0); }
    bs.Stop();
  }
}
