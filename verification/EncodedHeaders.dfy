/**
 * The slice headers of a run: what the Annex B encoder puts into the header of frame n, and what a
 * decoder reads from it.
 */
module EncodedHeaders {
  import opened Bits
  import opened VaBitstreams
  import opened H264Syntax
  import opened H264ParameterSets
  import opened H264SliceHeader
  import opened H264PackedSlice
  import opened H264Meaning
  import opened GopRuns

  /** Frame numbers are C ints; the last one is left out so that idr_pic_id is a code number. */
  const FRAME_LIMIT: nat := 0x7FFF_FFFF

  /** What render_slice sets in slice_param; what no code sets is 0 from the constructor. */
  function HeaderOf(sliceType: SliceType, frameNum: nat, idrPicId: nat, poc: nat): SliceParam {
    SliceParam(0, sliceType, 0, frameNum, idrPicId, poc, true, false, 0, 0, 0, 0, 0, 0, 0)
  }

  /** The header of frame n. */
  function HeaderAt(p: int, n: nat): SliceParam {
    HeaderOf(if IsIdr(p, n) then SliceI else SliceP, Offset(p, n), GopNumber(p, n), Offset(p, n))
  }

  function FlagsAt(p: int, n: nat): PictureFlags {
    PictureFlags(IsIdr(p, n), true, true, true)
  }

  lemma HeaderIsWritable(p: int, n: nat)
    requires n < FRAME_LIMIT
    ensures SliceParamOk(HeaderAt(p, n))
  {
  }

  /** The decoder's view of frame n. */
  function ReadFrame(p: int, n: nat, rest: seq<bool>): Option<SliceRead>
    requires n < FRAME_LIMIT
  {
    HeaderIsWritable(p, n);
    DecodeSliceUnit(Flat(Render(SliceUnit(HeaderAt(p, n), FlagsAt(p, n)))) + rest, true, true)
  }

  function ReadField(p: int, n: nat, rest: seq<bool>, name: SliceName): Option<int>
    requires n < FRAME_LIMIT
  {
    match ReadFrame(p, n, rest)
    case None => None
    case Some(r) => Some(Lookup(r.fields, name, -1))
  }

  /** Without overflow of frame_num every header decodes: IDR as set, P with the order count's overflow. */
  lemma FrameDecodes(p: int, n: nat, rest: seq<bool>)
    requires n < FRAME_LIMIT && Offset(p, n) < MAX_FRAME_NUM
    ensures AllFit(Written(HeaderAt(p, n)))
    ensures ReadFrame(p, n, rest) ==
              Some(SliceRead(if IsIdr(p, n) then 3 else 2, if IsIdr(p, n) then 5 else 1,
                             Values(SliceFields(Written(HeaderAt(p, n)), FlagsAt(p, n))), rest))
  {
    var s, f := HeaderAt(p, n), FlagsAt(p, n);
    HeaderIsWritable(p, n);
    if IsIdr(p, n) {
      Powers();
      DownIsZero(0, 8);
      assert Written(s) == s;
      SliceUnitReadsBack(s, f, rest);
    } else {
      SliceUnitReadsWritten(s, f, rest);
    }
  }

  /**
   * What a decoder finds in the header of frame n, value by value, and the slice data behind it: a short-term
   * reference that is IDR or marked by the sliding window, with list lengths and filter as the sets have them.
   */
  lemma FrameIsRead(p: int, n: nat, rest: seq<bool>) returns (fields: Fields<SliceName>)
    requires n < FRAME_LIMIT && Offset(p, n) < MAX_FRAME_NUM
    ensures ReadFrame(p, n, rest) == Some(SliceRead(if IsIdr(p, n) then 3 else 2, if IsIdr(p, n) then 5 else 1, fields, rest))
    ensures var idr, number := IsIdr(p, n), Or(Offset(p, n), Down(Offset(p, n), 8));
            SliceSays(fields) ==
              if idr then SliceMeaning(0, 2, 0, number, GopNumber(p, n), Offset(p, n) % 0x100, -1, -1, -1, -1, -1, -1, 0, 0, -1, -1, 0, 0, 0, 0)
              else SliceMeaning(0, 0, 0, number, -1, Offset(p, n) % 0x100, -1, 0, -1, -1, 0, -1, -1, -1, 0, 0, 0, 0, 0, 0)
  {
    FrameDecodes(p, n, rest);
    PrintedSliceSays(Written(HeaderAt(p, n)), FlagsAt(p, n));
    fields := Values(SliceFields(Written(HeaderAt(p, n)), FlagsAt(p, n)));
  }

  lemma NumberIsRead(p: int, n: nat)
    requires n < FRAME_LIMIT && Offset(p, n) < MAX_FRAME_NUM
    ensures ReadField(p, n, [], FrameNum) == Some(Or(Offset(p, n), Down(Offset(p, n), 8)))
  {
    var fields := FrameIsRead(p, n, []);
    assert SliceSays(fields).frameNum == Lookup(fields, FrameNum, -1);
  }

  /** The values that are the same in every header, also in one of a B slice, which no run codes. */
  lemma HeaderSays(t: SliceType, frameNum: nat, idrPicId: nat, poc: nat, f: PictureFlags)
    requires SliceParamOk(HeaderOf(t, frameNum, idrPicId, poc)) && f.entropyCoding && f.deblockingControl
    ensures var m := SliceSays(Values(SliceFields(HeaderOf(t, frameNum, idrPicId, poc), f)));
            && m.firstMb == 0 && m.ppsId == 0 && m.sliceType == (match t case SliceP => 0 case SliceB => 1 case SliceI => 2)
            && m.frameNum == frameNum && m.pocLsb == poc && m.idrPicId == (if f.idr then idrPicId else -1)
            && m.directSpatial == (if t.SliceB? then 1 else -1) && m.activeOverride == (if t.SliceI? then -1 else 0)
            && m.activeL0Minus1 == -1 && m.activeL1Minus1 == -1
            && m.cabacInitIdc == (if t.SliceI? then -1 else 0) && m.qpDelta == 0
            && m.deblockingIdc == 0 && m.alphaOffset == 0 && m.betaOffset == 0
  {
    PrintedSliceSays(HeaderOf(t, frameNum, idrPicId, poc), f);
  }

  /** Every frame number of a run is read back as meant iff no group is longer than 256 frames. */
  lemma FrameNumsReadBackIff(p: int)
    ensures (forall n: nat | n < FRAME_LIMIT :: ReadField(p, n, [], FrameNum) == Some(Offset(p, n))) <==> Period(p) <= 256
  {
    if Period(p) <= 256 {
      forall n: nat | n < FRAME_LIMIT ensures ReadField(p, n, [], FrameNum) == Some(Offset(p, n)) {
        NumberIsRead(p, n);
        SmallFrameNumSurvives(Offset(p, n));
      }
    } else {
      FirstGroup(p, 256);
      NumberIsRead(p, 256);
      FrameNum256IsLost();
      assert ReadField(p, 256, [], FrameNum) != Some(Offset(p, 256));
    }
  }
}
