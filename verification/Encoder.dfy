/**
 * The encoder object, Annex B flavour: the state that lives from frame to frame, and the steps of
 * encode in their order. Its invariant is the closed form of GopRuns.
 */
module Encoders {
  import opened Guards
  import opened VaBitstreams
  import opened BitstreamMemory
  import opened H264SliceHeader
  import opened H264PackedSlice
  import opened H264Printers
  import opened GopRuns
  import opened EncodedHeaders
  import opened DecodedStream
  import opened H264Syntax
  import opened H264ParameterSets
  import opened ParameterSetUnits
  import PO = PictureOrder
  import RS = ReferenceSort
  import RL = ReferenceLists

  datatype FrameType = FrameP | FrameB | FrameI | FrameIdr

  class Encoder {
    const intraPeriod: int
    const numRefFrames: nat
    const video: Video
    /** h264_maxref_p0 and h264_maxref_p1: how long a list the driver takes. */
    const maxRefP0: nat
    const maxRefP1: nat
    var currentFrame: nat
    var gopStart: int
    var numShortTerm: nat
    /** The statics of calc_poc. */
    var pocMsbRef: int
    var pocLsbRef: int
    var idrPicId: nat
    var currPic: Picture
    var frameNum: nat
    var flags: PictureFlags
    /** The valid entries of pic_param.ReferenceFrames. */
    var picReferences: seq<Picture>
    /** The valid entries of slice_param.RefPicList0 and RefPicList1. */
    var sliceList0: seq<Picture>
    var sliceList1: seq<Picture>
    const refs: array<Picture>
    const list0P: array<Picture>
    const list0B: array<Picture>
    const list1B: array<Picture>

    ghost predicate Shape()
      reads `numShortTerm
    {
      && 1 <= numRefFrames <= 16 && numShortTerm <= numRefFrames
      && VideoOk(video) && maxRefP0 <= 32 && maxRefP1 <= 32
      && refs.Length == 16 && list0P.Length == 32 && list0B.Length == 32 && list1B.Length == 32
      && refs != list0P && refs != list0B && refs != list1B && list0P != list0B && list0P != list1B && list0B != list1B
    }

    /** Where the group starts, behind frame n - 1. */
    ghost predicate GopKnown(n: nat)
      reads `gopStart
    {
      n > 0 ==> gopStart == GopStart(intraPeriod, n - 1)
    }

    /** The history of calc_poc after a reference picture with order count poc. */
    ghost predicate PocHistory(poc: int)
      reads `pocMsbRef, `pocLsbRef
    {
      pocMsbRef + pocLsbRef == poc && pocLsbRef == poc % MAX_POC_LSB
    }

    /** idr_pic_id behind frame n - 1. */
    ghost predicate IdrKnown(n: nat)
      reads `idrPicId
    {
      idrPicId == if n == 0 then 0 else GopNumber(intraPeriod, n - 1)
    }

    /** Between two frames. */
    ghost predicate Valid()
      reads this, refs
    {
      && Shape()
      && GopKnown(currentFrame) && IdrKnown(currentFrame)
      && (currentFrame > 0 ==>
            && refs[..numShortTerm] == Stored(intraPeriod, numRefFrames, currentFrame - 1)
            && PocHistory(Offset(intraPeriod, currentFrame - 1)))
    }

    /** gop_start and the statics hold whatever was there before. */
    constructor (intraPeriod: int, numRefFrames: nat, video: Video, maxRefP0: nat, maxRefP1: nat,
                 gopStart: int, pocMsbRef: int, pocLsbRef: int)
      requires 1 <= numRefFrames <= 16 && VideoOk(video) && maxRefP0 <= 32 && maxRefP1 <= 32
      ensures Valid() && currentFrame == 0
      ensures this.intraPeriod == intraPeriod && this.numRefFrames == numRefFrames && this.video == video
      ensures this.maxRefP0 == maxRefP0 && this.maxRefP1 == maxRefP1
      ensures fresh(refs) && fresh(list0P) && fresh(list0B) && fresh(list1B)
    {
      this.intraPeriod, this.numRefFrames, this.gopStart := intraPeriod, numRefFrames, gopStart;
      this.pocMsbRef, this.pocLsbRef := pocMsbRef, pocLsbRef;
      this.video, this.maxRefP0, this.maxRefP1 := video, maxRefP0, maxRefP1;
      picReferences, sliceList0, sliceList1 := [], [], [];
      currentFrame, numShortTerm, idrPicId, frameNum := 0, 0, 0, 0;
      flags := PictureFlags(false, false, false, false);
      var nothing := RS.Picture(0, 0, 0, false);
      currPic := nothing;
      refs := new Picture[16](_ => nothing);
      list0P := new Picture[32](_ => nothing);
      list0B := new Picture[32](_ => nothing);
      list1B := new Picture[32](_ => nothing);
    }

    /** encoding2display_order */
    method EncodingToDisplayOrder(n: nat) returns (t: FrameType)
      requires GopKnown(n)
      modifies `gopStart
      ensures gopStart == GopStart(intraPeriod, n)
      ensures t == if IsIdr(intraPeriod, n) then FrameIdr else FrameP
    {
      if n == 0 {
        gopStart := 0;
        t := FrameIdr;
      } else {
        NextFrame(intraPeriod, n - 1);
        var offset := n - gopStart;
        if offset >= intraPeriod {
          gopStart := n;
          t := FrameIdr;
        } else {
          t := FrameP;
        }
      }
    }

    /** calc_poc: the only order count congruent to lsb within half the modulus of the reference before. */
    method CalcPoc(lsb: nat, t: FrameType) returns (poc: int)
      requires lsb < MAX_POC_LSB && (!t.FrameIdr? ==> PocHistory(pocMsbRef + pocLsbRef))
      modifies `pocMsbRef, `pocLsbRef
      ensures poc % MAX_POC_LSB == lsb
      ensures PO.InWindow(poc, if t.FrameIdr? then 0 else old(pocMsbRef + pocLsbRef), MAX_POC_LSB)
      ensures t.FrameB? ==> pocMsbRef == old(pocMsbRef) && pocLsbRef == old(pocLsbRef)
      ensures !t.FrameB? ==> PocHistory(poc)
    {
      var prevMsb, prevLsb := pocMsbRef, pocLsbRef;
      if t.FrameIdr? {
        prevMsb, prevLsb := 0, 0;
      }
      var msb: int;
      if lsb < prevLsb && prevLsb - lsb >= MAX_POC_LSB / 2 {
        msb := prevMsb + MAX_POC_LSB;
      } else if lsb > prevLsb && lsb - prevLsb > MAX_POC_LSB / 2 {
        msb := prevMsb - MAX_POC_LSB;
      } else {
        msb := prevMsb;
      }
      poc := msb + lsb;
      PO.PocIsInWindow(prevMsb + prevLsb, lsb, MAX_POC_LSB);
      if !t.FrameB? {
        pocMsbRef := msb;
        pocLsbRef := lsb;
      }
    }

    /** fillPPS */
    method FillPps(n: nat, t: FrameType)
      requires Shape() && gopStart <= n && (!t.FrameIdr? ==> PocHistory(pocMsbRef + pocLsbRef))
      modifies `pocMsbRef, `pocLsbRef, `currPic, `frameNum, `flags, `numShortTerm, `picReferences
      ensures numShortTerm == if t.FrameIdr? then 0 else old(numShortTerm)
      ensures picReferences == refs[..numShortTerm]
      ensures frameNum == n - gopStart && flags == PictureFlags(t.FrameIdr?, !t.FrameB?, true, true)
      ensures currPic == RS.Picture(n % SURFACE_NUM, n - gopStart, currPic.topFieldOrderCnt, false)
      ensures currPic.topFieldOrderCnt % MAX_POC_LSB == (n - gopStart) % MAX_POC_LSB
      ensures PO.InWindow(currPic.topFieldOrderCnt, if t.FrameIdr? then 0 else old(pocMsbRef + pocLsbRef), MAX_POC_LSB)
      ensures t.FrameB? ==> pocMsbRef == old(pocMsbRef) && pocLsbRef == old(pocLsbRef)
      ensures !t.FrameB? ==> PocHistory(currPic.topFieldOrderCnt)
    {
      var poc := CalcPoc((n - gopStart) % MAX_POC_LSB, t);
      currPic := RS.Picture(n % SURFACE_NUM, n - gopStart, poc, false);
      if t.FrameIdr? {
        numShortTerm := 0;
      }
      picReferences := refs[..numShortTerm];
      frameNum := n - gopStart;
      flags := PictureFlags(t.FrameIdr?, !t.FrameB?, true, true);
    }

    /** update_RefPicList */
    method UpdateRefPicList(t: FrameType)
      requires Shape()
      requires t.FrameB? ==> RS.Straddles(refs[..numShortTerm], currPic.topFieldOrderCnt, false) && RL.DistinctPoc(refs[..numShortTerm])
      modifies list0P, list0B, list1B
      ensures t.FrameP? && RS.StrictlyOrdered(refs[..numShortTerm], true, false) ==> list0P[..numShortTerm] == refs[..numShortTerm]
      ensures t.FrameP? ==> multiset(list0P[..numShortTerm]) == multiset(refs[..numShortTerm])
      ensures t.FrameP? ==> forall i, j :: 0 <= i < j < numShortTerm ==> list0P[i].frameIdx >= list0P[j].frameIdx
      ensures t.FrameB? ==>
                && RL.IsRefPicList0(list0B[..numShortTerm], multiset(refs[..numShortTerm]), currPic.topFieldOrderCnt)
                && RL.IsRefPicList1(list1B[..numShortTerm], multiset(refs[..numShortTerm]), currPic.topFieldOrderCnt)
    {
      match t
      case FrameP =>
        RL.SortByFrameIdx(list0P, refs, numShortTerm);
      case FrameB =>
        assert numShortTerm > 0;
        RL.SortAroundPoc(list0B, refs, numShortTerm, currPic.topFieldOrderCnt, true);
        RL.SortAroundPoc(list1B, refs, numShortTerm, currPic.topFieldOrderCnt, false);
      case _ =>
    }

    /** update_ReferenceFrames */
    method UpdateReferenceFrames(t: FrameType)
      requires Shape()
      modifies `numShortTerm, `currPic, refs
      ensures Shape()
      ensures t.FrameB? ==> numShortTerm == old(numShortTerm) && refs[..] == old(refs[..]) && currPic == old(currPic)
      ensures !t.FrameB? ==>
                && currPic == old(currPic).(shortTerm := true)
                && numShortTerm == Min(numRefFrames, old(numShortTerm) + 1)
                && refs[..numShortTerm] == [currPic] + old(refs[..])[..numShortTerm - 1]
    {
      if t.FrameB? {
        return;
      }
      currPic := currPic.(shortTerm := true);
      numShortTerm := numShortTerm + 1;
      if numShortTerm > numRefFrames {
        numShortTerm := numRefFrames;
      }
      ShiftReferences(numShortTerm);
      refs[0] := currPic;
      assert |refs[..numShortTerm]| == |[currPic] + old(refs[..])[..numShortTerm - 1]|;
    }

    /** Every reference moves up by one place, from the last one down; the first place stays as it was. */
    method ShiftReferences(count: nat)
      requires 1 <= count <= refs.Length
      modifies refs
      ensures forall k :: 1 <= k < count ==> refs[k] == old(refs[k - 1])
    {
      var i := count - 1;
      while i > 0
        invariant 0 <= i < count
        invariant forall k :: 0 <= k <= i ==> refs[k] == old(refs[k])
        invariant forall k :: i < k < count ==> refs[k] == old(refs[k - 1])
      {
        refs[i] := refs[i - 1];
        i := i - 1;
      }
    }

    function SliceTypeOf(t: FrameType): SliceType {
      match t
      case FrameP => SliceP
      case FrameB => SliceB
      case _ => SliceI
    }

    /** The entries of the lists that the driver sees, behind which all are marked invalid; a P slice leaves list 1 as it was. */
    method CopyLists(t: FrameType)
      requires Shape() && !t.FrameI?
      modifies `sliceList0, `sliceList1
      ensures sliceList0 == if t.FrameP? then list0P[..maxRefP0] else if t.FrameB? then list0B[..maxRefP0] else []
      ensures sliceList1 == if t.FrameP? then old(sliceList1) else if t.FrameB? then list1B[..maxRefP1] else []
    {
      match t
      case FrameIdr => sliceList0, sliceList1 := [], [];
      case FrameP => sliceList0 := list0P[..maxRefP0];
      case FrameB => sliceList0, sliceList1 := list0B[..maxRefP0], list1B[..maxRefP1];
      case FrameI =>
    }

    /** render_slice: the lists, the slice's own parameters, and the packed header. FRAME_I ends the program. */
    method RenderSlice(n: nat, t: FrameType) returns (unit: Packed)
      requires Shape() && !t.FrameI?
      requires t.FrameB? ==> RS.Straddles(refs[..numShortTerm], currPic.topFieldOrderCnt, false) && RL.DistinctPoc(refs[..numShortTerm])
      requires frameNum < 0x1_0000_0000 && 0 <= currPic.topFieldOrderCnt < 0x1_0000_0000 && idrPicId + 1 < CODE_LIMIT
      modifies `idrPicId, `sliceList0, `sliceList1, list0P, list0B, list1B
      ensures sliceList0 == if t.FrameP? then list0P[..maxRefP0] else if t.FrameB? then list0B[..maxRefP0] else []
      ensures sliceList1 == if t.FrameP? then old(sliceList1) else if t.FrameB? then list1B[..maxRefP1] else []
      ensures idrPicId == old(idrPicId) + if t.FrameIdr? && n > 0 then 1 else 0
      ensures t.FrameP? && RS.StrictlyOrdered(refs[..numShortTerm], true, false) ==> list0P[..numShortTerm] == refs[..numShortTerm]
      ensures t.FrameB? ==>
                && RL.IsRefPicList0(list0B[..numShortTerm], multiset(refs[..numShortTerm]), currPic.topFieldOrderCnt)
                && RL.IsRefPicList1(list1B[..numShortTerm], multiset(refs[..numShortTerm]), currPic.topFieldOrderCnt)
      ensures var sliceType := if t.FrameP? then SliceP else if t.FrameB? then SliceB else SliceI;
              Holds(unit, HeaderOf(sliceType, frameNum, idrPicId, currPic.topFieldOrderCnt), flags)
    {
      UpdateRefPicList(t);
      if t.FrameIdr? && n > 0 {
        idrPicId := idrPicId + 1;
      }
      CopyLists(t);
      unit := RenderPackedSlice(t);
    }

    /** render_packedslice */
    method RenderPackedSlice(t: FrameType) returns (unit: Packed)
      requires frameNum < 0x1_0000_0000 && 0 <= currPic.topFieldOrderCnt < 0x1_0000_0000 && idrPicId < CODE_LIMIT
      ensures var sliceType := if t.FrameP? then SliceP else if t.FrameB? then SliceB else SliceI;
              Holds(unit, HeaderOf(sliceType, frameNum, idrPicId, currPic.topFieldOrderCnt), flags)
    {
      var bs := BuildPackedSliceBuffer(HeaderOf(SliceTypeOf(t), frameNum, idrPicId, currPic.topFieldOrderCnt), flags);
      unit := HandOver(bs, SliceUnit(HeaderOf(SliceTypeOf(t), frameNum, idrPicId, currPic.topFieldOrderCnt), flags));
    }

    /** CodingNow, closed. */
    ghost predicate Coding(n: nat)
      reads `numShortTerm, `gopStart, `currPic, `frameNum, `flags, `picReferences, `pocMsbRef, `pocLsbRef, refs
    {
      forall x :: Opened(x) ==> CodingNow(n)
    }

    /** While frame n is being coded: the picture is filled in, the lists and idr_pic_id are not yet. */
    ghost predicate CodingNow(n: nat)
      reads `numShortTerm, `gopStart, `currPic, `frameNum, `flags, `picReferences, `pocMsbRef, `pocLsbRef, refs
    {
      && Shape()
      && gopStart == GopStart(intraPeriod, n)
      && refs[..numShortTerm] == picReferences == References(intraPeriod, numRefFrames, n)
      && currPic == PictureAt(intraPeriod, n).(shortTerm := false)
      && frameNum == Offset(intraPeriod, n) && flags == FlagsAt(intraPeriod, n)
      && PocHistory(Offset(intraPeriod, n))
    }

    /** The frame's place in its group is known, and the references and the history before it. */
    ghost predicate Begun(n: nat)
      reads `numShortTerm, `gopStart, `pocMsbRef, `pocLsbRef, refs
    {
      && Shape()
      && gopStart == GopStart(intraPeriod, n)
      && refs[..numShortTerm] == References(intraPeriod, numRefFrames, n)
      && (!IsIdr(intraPeriod, n) ==> PocHistory(Offset(intraPeriod, n) - 1))
    }

    /** The steps of encode before the picture is rendered. */
    method BeginFrame() returns (t: FrameType)
      requires Valid()
      modifies `gopStart, `numShortTerm
      ensures Begun(currentFrame)
      ensures t == if IsIdr(intraPeriod, currentFrame) then FrameIdr else FrameP
    {
      ghost var n := currentFrame;
      t := EncodingToDisplayOrder(currentFrame);
      if t.FrameIdr? {
        numShortTerm := 0;
      }
      if n > 0 {
        NextFrame(intraPeriod, n - 1);
        StoredBecomesReferences(intraPeriod, numRefFrames, n - 1);
      }
    }

    /** The steps of encode before the first slice call. */
    method StartFrame() returns (t: FrameType)
      requires Valid()
      modifies this
      ensures Shape() && Coding(currentFrame) && currentFrame == old(currentFrame) && idrPicId == old(idrPicId)
      ensures t == if IsIdr(intraPeriod, currentFrame) then FrameIdr else FrameP
    {
      t := BeginFrame();
      FillPps(currentFrame, t);
      OffsetIsCounted(intraPeriod, currentFrame, currPic.topFieldOrderCnt);
    }

    /** The packed slice header of frame n, bit for bit. */
    ghost predicate IsUnitOf(unit: Packed, n: nat) {
      Holds(unit, HeaderAt(intraPeriod, n), FlagsAt(intraPeriod, n))
    }

    /** The P list of frame n: the live references, newest first, as far as the driver takes them. */
    ghost predicate ListIsReady(n: nat)
      reads list0P, `sliceList0
    {
      && |References(intraPeriod, numRefFrames, n)| <= list0P.Length && maxRefP0 <= list0P.Length
      && list0P[..|References(intraPeriod, numRefFrames, n)|] == References(intraPeriod, numRefFrames, n)
      && sliceList0 == list0P[..maxRefP0]
    }

    /** The slice call touches nothing that Coding speaks of. */
    twostate lemma CodingKept(n: nat)
      requires old(Coding(n))
      requires unchanged(`numShortTerm, `gopStart, `currPic, `frameNum, `flags, `picReferences, `pocMsbRef, `pocLsbRef, refs)
      ensures Coding(n)
    {
      assert old(Coding(n)) == Coding(n);
    }

    lemma CodingSays(n: nat)
      requires Coding(n)
      ensures numShortTerm <= refs.Length && refs[..numShortTerm] == References(intraPeriod, numRefFrames, n)
      ensures RS.StrictlyOrdered(refs[..numShortTerm], true, false)
      ensures frameNum == currPic.topFieldOrderCnt == Offset(intraPeriod, n) && flags == FlagsAt(intraPeriod, n)
    {
      assert Opened(0);
      ReferencesAreOrdered(intraPeriod, numRefFrames, n);
    }

    /** The slice call of encode. */
    method RenderFrame(t: FrameType) returns (unit: Packed)
      requires Shape() && Coding(currentFrame) && currentFrame < FRAME_LIMIT && IdrKnown(currentFrame)
      requires t == if IsIdr(intraPeriod, currentFrame) then FrameIdr else FrameP
      modifies `idrPicId, `sliceList0, `sliceList1, list0P, list0B, list1B
      ensures Coding(currentFrame) && idrPicId == GopNumber(intraPeriod, currentFrame)
      ensures IsUnitOf(unit, currentFrame)
      ensures if IsIdr(intraPeriod, currentFrame) then sliceList0 == [] == sliceList1 else ListIsReady(currentFrame)
    {
      CodingSays(currentFrame);
      IdrStep(intraPeriod, currentFrame, idrPicId);
      unit := RenderSlice(currentFrame, t);
      CodingKept(currentFrame);
    }

    /** Everything behind the coding of the picture: the references move up. */
    method FinishFrame(t: FrameType)
      requires Shape() && Coding(currentFrame) && !t.FrameB? && idrPicId == GopNumber(intraPeriod, currentFrame)
      modifies `numShortTerm, `currPic, `currentFrame, refs
      ensures Valid() && currentFrame == old(currentFrame) + 1
      ensures currPic == PictureAt(intraPeriod, old(currentFrame))
      ensures picReferences == References(intraPeriod, numRefFrames, old(currentFrame))
    {
      assert Opened(0);
      StoredFrom(intraPeriod, numRefFrames, currentFrame, refs[..], numShortTerm);
      UpdateReferenceFrames(t);
      currentFrame := currentFrame + 1;
    }

    /** render_packedsequence */
    method RenderPackedSequence() returns (sps: Packed)
      requires VideoOk(video)
      ensures IsPackedSps(video, sps)
    {
      SetsAreRead(video.profile, video.width, video.height);
      var bs := BuildPackedSeqBuffer(video.profile, FillSeqParam(video.width, video.height));
      sps := HandOver(bs, PackedSps(video.profile, FillSeqParam(video.width, video.height)));
    }

    /** render_packedpicture */
    method RenderPackedPicture() returns (pps: Packed)
      ensures Packs(pps, PackedPps())
    {
      var bs := BuildPackedPicBuffer();
      pps := HandOver(bs, PackedPps());
    }

    /** The packed sequence and picture headers, which go with a key frame. */
    method SendSets(key: bool) returns (sets: Option<(Packed, Packed)>)
      requires VideoOk(video)
      ensures AreSets(video, key, sets)
    {
      sets := None;
      if key {
        var sps := RenderPackedSequence();
        var pps := RenderPackedPicture();
        sets := Some((sps, pps));
      }
    }

    /** The headers of encode: the sets with a key frame, and the slice. */
    method SendFrame(t: FrameType) returns (o: Output)
      requires Shape() && Coding(currentFrame) && currentFrame < FRAME_LIMIT && IdrKnown(currentFrame)
      requires t == if IsIdr(intraPeriod, currentFrame) then FrameIdr else FrameP
      modifies `idrPicId, `sliceList0, `sliceList1, list0P, list0B, list1B
      ensures Shape() && Coding(currentFrame) && idrPicId == GopNumber(intraPeriod, currentFrame)
      ensures IsOutput(video, intraPeriod, currentFrame, o)
      ensures if IsIdr(intraPeriod, currentFrame) then sliceList0 == [] == sliceList1 else ListIsReady(currentFrame)
    {
      var sets := SendSets(t.FrameIdr?);
      var unit := RenderFrame(t);
      o := Output(t.FrameIdr?, sets, unit);
      OutputOf(video, intraPeriod, currentFrame, o);
    }

    /** All that one call of encode does when the picture has reached its surface; None when it has not. */
    method Encode(uploaded: bool) returns (o: Option<Output>)
      requires Valid() && currentFrame < FRAME_LIMIT
      modifies this, refs, list0P, list0B, list1B
      ensures Valid() && o.Some? == uploaded
      ensures currentFrame == old(currentFrame) + if uploaded then 1 else 0
      ensures o.Some? ==> IsOutput(video, intraPeriod, old(currentFrame), o.value)
      ensures uploaded ==> currPic == PictureAt(intraPeriod, old(currentFrame))
      ensures uploaded ==> picReferences == References(intraPeriod, numRefFrames, old(currentFrame))
      ensures uploaded ==>
                if IsIdr(intraPeriod, old(currentFrame)) then sliceList0 == [] == sliceList1 else ListIsReady(old(currentFrame))
    {
      if !uploaded {
        return None;
      }
      var t := StartFrame();
      var out := SendFrame(t);
      FinishFrame(t);
      o := Some(out);
    }
  }

  // ---------------------------------------------------------------------------------------------
  // What is handed to the driver
  // ---------------------------------------------------------------------------------------------

  /** What one call of encode hands over: whether it is a key frame, the sets, and the slice header. */
  datatype Output = Output(key: bool, sets: Option<(Packed, Packed)>, unit: Packed)

  /** A packed slice header, byte for byte. */
  ghost predicate Holds(unit: Packed, s: SliceParam, f: PictureFlags) {
    SliceParamOk(s) && Packs(unit, SliceUnit(s, f))
  }

  ghost predicate IsPackedSps(v: Video, sps: Packed)
    requires VideoOk(v)
  {
    SetsAreRead(v.profile, v.width, v.height);
    Packs(sps, PackedSps(v.profile, FillSeqParam(v.width, v.height)))
  }

  ghost predicate AreSets(v: Video, key: bool, sets: Option<(Packed, Packed)>) {
    && VideoOk(v) && sets.Some? == key
    && (key ==> IsPackedSps(v, sets.value.0) && Packs(sets.value.1, PackedPps()))
  }

  /** The outcome for frame n: the sets exactly if it is an IDR frame, and its packed header. A closed predicate. */
  ghost predicate IsOutput(v: Video, p: int, n: nat, o: Output) {
    forall x :: Opened(x) ==>
      && o.key == IsIdr(p, n)
      && AreSets(v, o.key, o.sets)
      && Holds(o.unit, HeaderAt(p, n), FlagsAt(p, n))
  }

  lemma OutputOf(v: Video, p: int, n: nat, o: Output)
    requires o.key == IsIdr(p, n) && AreSets(v, o.key, o.sets) && Holds(o.unit, HeaderAt(p, n), FlagsAt(p, n))
    ensures IsOutput(v, p, n, o)
  {
  }

  ghost predicate AreOutputs(v: Video, p: int, sent: seq<Output>) {
    forall n :: 0 <= n < |sent| ==> IsOutput(v, p, n, sent[n])
  }

  lemma OneMoreOutput(v: Video, p: int, sent: seq<Output>, o: Output)
    requires AreOutputs(v, p, sent) && IsOutput(v, p, |sent|, o)
    ensures AreOutputs(v, p, sent + [o])
  {
    forall n | 0 <= n < |sent| + 1 ensures IsOutput(v, p, n, (sent + [o])[n]) {
      assert (sent + [o])[n] == if n == |sent| then o else sent[n];
    }
  }

  /** The bits handed over: the first sets, and the header of every frame. */
  function BitsHandedOver(sent: seq<Output>): Sent
    requires sent != [] && sent[0].sets.Some?
  {
    Sent(BitsOfPacked(sent[0].sets.value.0), BitsOfPacked(sent[0].sets.value.1),
         seq(|sent|, n requires 0 <= n < |sent| => BitsOfPacked(sent[n].unit)))
  }

  lemma UnitIsSent(unit: Packed, p: int, n: nat)
    requires n < FRAME_LIMIT && Holds(unit, HeaderAt(p, n), FlagsAt(p, n))
    ensures IsUnit(p, n, BitsOfPacked(unit))
  {
    PackedBits(unit, SliceUnit(HeaderAt(p, n), FlagsAt(p, n)));
    assert BitsOfPacked(unit) == HeaderBits(p, n);
  }

  lemma FirstSetsAreSent(v: Video, p: int, o: Output, units: seq<seq<bool>>)
    requires VideoOk(v) && IsOutput(v, p, 0, o)
    ensures o.sets.Some? && SetsAreSent(Sent(BitsOfPacked(o.sets.value.0), BitsOfPacked(o.sets.value.1), units), v)
  {
    FirstFrame(p);
    assert o.key && AreSets(v, o.key, o.sets) by { assert Opened(0); }
    SetsAreRead(v.profile, v.width, v.height);
    PackedBits(o.sets.value.0, PackedSps(v.profile, FillSeqParam(v.width, v.height)));
    PackedBits(o.sets.value.1, PackedPps());
  }

  lemma OutputIsSent(v: Video, p: int, n: nat, o: Output)
    requires n < FRAME_LIMIT && IsOutput(v, p, n, o)
    ensures IsUnit(p, n, BitsOfPacked(o.unit))
  {
    assert Holds(o.unit, HeaderAt(p, n), FlagsAt(p, n)) by { assert Opened(0); }
    UnitIsSent(o.unit, p, n);
  }

  /** The outcomes of a run are a stream as DecodedStream has it. */
  lemma OutputsAreSent(v: Video, p: int, sent: seq<Output>)
    requires VideoOk(v) && 0 < |sent| <= FRAME_LIMIT && AreOutputs(v, p, sent)
    ensures sent[0].sets.Some? && IsSent(BitsHandedOver(sent), v, p)
  {
    forall n | 0 <= n < |sent| ensures IsUnit(p, n, BitsOfPacked(sent[n].unit)) {
      OutputIsSent(v, p, n, sent[n]);
    }
    FirstSetsAreSent(v, p, sent[0], []);
    FirstSetsAreSent(v, p, sent[0], BitsHandedOver(sent).units);
  }

  function Successes(uploads: seq<bool>): (n: nat)
    ensures n <= |uploads|
  {
    if uploads == [] then 0 else Successes(uploads[..|uploads| - 1]) + if uploads[|uploads| - 1] then 1 else 0
  }

  lemma OneMoreUpload(uploads: seq<bool>, i: nat)
    requires i < |uploads|
    ensures Successes(uploads[..i]) <= i
    ensures Successes(uploads[..i + 1]) == Successes(uploads[..i]) + if uploads[i] then 1 else 0
  {
    assert uploads[..i + 1][..i] == uploads[..i];
  }

  /**
   * One call of encode after the other, whichever uploads fail: there is an outcome for every upload that
   * succeeds, frame by frame and byte for byte the one that is due, and the bits handed over, the first sets
   * and all headers, are a stream as DecodedStream has it.
   */
  method EncodeAll(e: Encoder, uploads: seq<bool>) returns (sent: seq<Output>)
    requires e.Valid() && e.currentFrame == 0 && |uploads| <= FRAME_LIMIT
    modifies e, e.refs, e.list0P, e.list0B, e.list1B
    ensures e.Valid() && e.currentFrame == |sent| == Successes(uploads)
    ensures AreOutputs(e.video, e.intraPeriod, sent)
    ensures sent != [] ==> sent[0].sets.Some? && IsSent(BitsHandedOver(sent), e.video, e.intraPeriod)
  {
    sent := [];
    var i := 0;
    while i < |uploads|
      invariant i <= |uploads| && e.Valid() && e.currentFrame == |sent| == Successes(uploads[..i])
      invariant AreOutputs(e.video, e.intraPeriod, sent)
    {
      OneMoreUpload(uploads, i);
      var o := e.Encode(uploads[i]);
      if o.Some? {
        OneMoreOutput(e.video, e.intraPeriod, sent, o.value);
        sent := sent + [o.value];
      }
      i := i + 1;
    }
    assert uploads[..i] == uploads;
    if sent != [] {
      OutputsAreSent(e.video, e.intraPeriod, sent);
    }
  }

  lemma StoredFrom(p: int, r: nat, n: nat, all: seq<Picture>, count: nat)
    requires 1 <= r && count <= |all| && all[..count] == References(p, r, n)
    ensures Min(r, count + 1) - 1 <= count
    ensures [PictureAt(p, n)] + all[..Min(r, count + 1) - 1] == Stored(p, r, n)
  {
    StoredIsShifted(p, r, n);
    assert all[..count][..Min(r, count + 1) - 1] == all[..Min(r, count + 1) - 1];
  }

  lemma IdrStep(p: int, n: nat, before: nat)
    requires before == if n == 0 then 0 else GopNumber(p, n - 1)
    ensures before + (if IsIdr(p, n) && n > 0 then 1 else 0) == GopNumber(p, n)
    ensures before < n || n == 0 == before
  {
  }

  /** The reconstructed order count of frame n is its offset in the group. */
  lemma OffsetIsCounted(p: int, n: nat, poc: int)
    requires poc % MAX_POC_LSB == Offset(p, n) % MAX_POC_LSB
    requires PO.InWindow(poc, if IsIdr(p, n) then 0 else Offset(p, n) - 1, MAX_POC_LSB)
    ensures poc == Offset(p, n)
  {
    var prev := if IsIdr(p, n) then 0 else Offset(p, n) - 1;
    PO.PocIsUnique(prev, poc, MAX_POC_LSB);
    PO.PocIsUnique(prev, Offset(p, n), MAX_POC_LSB);
  }
}
