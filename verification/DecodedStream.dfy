/**
 * The decoder of what the Annex B encoder sends: parameter sets first, then the headers of the frames,
 * and from the headers alone the numbers, the picture order and the reference lists.
 */
module DecodedStream {
  import opened Guards
  import opened Bits
  import opened VaBitstreams
  import opened H264Syntax
  import opened H264ParameterSets
  import opened H264SliceHeader
  import opened H264PackedSlice
  import opened H264Meaning
  import opened H264Printers
  import opened ParameterSetUnits
  import opened GopRuns
  import opened EncodedHeaders
  import opened SlidingWindow
  import PO = PictureOrder

  // ---------------------------------------------------------------------------------------------
  // The parameter sets
  // ---------------------------------------------------------------------------------------------

  /** What the slice headers, the marking and the lists need of the sets. */
  datatype ActiveSets = ActiveSets(
    ppsId: int, frameNumBits: nat, pocLsbBits: nat, references: nat, entropyCoding: bool, deblockingControl: bool, activeL0: int)

  /** NAL unit types 7 and 8 are the parameter sets. */
  function ReadSps(b: seq<bool>): Option<Fields<SpsName>> {
    match DecodeUnitHead(b)
    case None => None
    case Some((_, unitType, rest)) => if unitType == 7 then DecodeSpsRbsp(rest) else None
  }

  /** The unit in front of a start code at the end. */
  function WithoutStartCode(b: seq<bool>): seq<bool> {
    if |b| >= 32 && ReadBits(b[|b| - 32..], 32) == Some((1, [])) then b[..|b| - 32] else b
  }

  function ReadPps(b: seq<bool>): Option<Fields<PpsName>> {
    match DecodeUnitHead(WithoutStartCode(b))
    case None => None
    case Some((_, unitType, rest)) => if unitType == 8 then DecodePpsRbsp(rest) else None
  }

  /** The picture set refers to the sequence set; frames only, with pic_order_cnt_type 0. */
  function Activate(m: SpsMeaning, q: PpsMeaning): Option<ActiveSets> {
    if q.spsId != m.id || m.pocType != 0 || m.frameMbsOnly != 1 || m.frameNumBits < 4 || m.pocLsbBits < 4 || m.references < 0 then None
    else Some(ActiveSets(q.id, m.frameNumBits, m.pocLsbBits, m.references, q.cabac == 1, q.deblockingControl == 1, q.activeL0))
  }

  function ReadSets(sps: seq<bool>, pps: seq<bool>): Option<ActiveSets> {
    match ReadSps(sps)
    case None => None
    case Some(s) =>
      match ReadPps(pps)
      case None => None
      case Some(q) => Activate(SpsSays(s), PpsSays(q))
  }

  const STREAM_SETS := ActiveSets(0, 16, 8, 16, true, true, 1)

  lemma LastStartCode(b: seq<bool>, behind: seq<bool>)
    requires ReadBits(behind, 32) == Some((1, []))
    ensures WithoutStartCode(b + behind) == b
  {
    assert |behind| == 32;
    assert (b + behind)[|b|..] == behind && (b + behind)[..|b|] == b;
  }

  lemma SpsIsRead(profile: Profile, p: SeqParam)
    requires SeqParamOk(p)
    ensures ReadSps(Flat(Render(PackedSps(profile, p)))) == Some(Values(SpsFields(profile, p)))
  {
    var _ := PackedSpsReadsBack(profile, p);
  }

  lemma PpsIsRead()
    ensures ReadPps(Flat(Render(PackedPps()))) == Some(Values(PpsFields(FILLED_PPS)))
  {
    var rest, behind := PackedPpsReadsBack();
    LastStartCode(Flat(Render(PpsUnit(UnitHead(3, NAL_PPS), FILLED_PPS))), behind);
  }

  /** The sets that are sent with a key frame, read from their bits. */
  lemma SetsAreRead(profile: Profile, width: nat, height: nat)
    requires 1 <= width < 0x4000_0000 && 1 <= height < 0x4000_0000
    ensures SeqParamOk(FillSeqParam(width, height))
    ensures ReadSets(Flat(Render(PackedSps(profile, FillSeqParam(width, height)))), Flat(Render(PackedPps()))) == Some(STREAM_SETS)
  {
    DecodedSize(profile, width, height);
    SpsIsRead(profile, FillSeqParam(width, height));
    PpsIsRead();
    FilledSetsActivate(profile, width, height);
  }

  lemma FilledSetsActivate(profile: Profile, width: nat, height: nat)
    requires SeqParamOk(FillSeqParam(width, height))
    ensures Activate(SpsSays(Values(SpsFields(profile, FillSeqParam(width, height)))), PpsSays(Values(PpsFields(FILLED_PPS)))) == Some(STREAM_SETS)
  {
    FilledSpsSays(profile, width, height);
    FilledPpsSays(profile, width, height);
  }

  // ---------------------------------------------------------------------------------------------
  // The headers
  // ---------------------------------------------------------------------------------------------

  /** What the decoder keeps of a slice: its place in the order, its marking and its list's length. */
  datatype FrameRead = FrameRead(
    idr: bool, reference: bool, frameNum: nat, pocLsb: nat, longTerm: bool, activeL0: int)

  /** A slice unit, read with the sets. */
  function ReadSlice(sets: ActiveSets, b: seq<bool>): Option<SliceRead> {
    match DecodeUnitHead(b)
    case None => None
    case Some((refIdc, unitType, rest)) =>
      var c := Context(sets.frameNumBits, sets.pocLsbBits, sets.entropyCoding, sets.deblockingControl, unitType == 5, refIdc);
      DecodeSlice(c, unitType, if |rest| <= |b| then |b| - |rest| else 0, rest)
  }

  function ReadHeader(sets: ActiveSets, b: seq<bool>): Option<FrameRead> {
    match ReadSlice(sets, b)
    case None => None
    case Some(r) => Keep(sets, r)
  }

  function ReadData(sets: ActiveSets, b: seq<bool>): Option<seq<bool>> {
    match ReadSlice(sets, b)
    case None => None
    case Some(r) => Some(r.data)
  }

  /** The slice must refer to the picture set; its list is as long as the header or, without override, the set says. */
  function Keep(sets: ActiveSets, r: SliceRead): Option<FrameRead> {
    var m := SliceSays(r.fields);
    if m.frameNum < 0 || m.pocLsb < 0 || m.ppsId != sets.ppsId then None
    else
      Some(FrameRead(r.nalUnitType == 5, r.nalRefIdc != 0, m.frameNum, m.pocLsb, m.longTerm == 1,
                     if m.activeOverride == 1 then 1 + m.activeL0Minus1 else sets.activeL0))
  }

  lemma SameReader(b: seq<bool>)
    ensures ReadSlice(STREAM_SETS, b) == DecodeSliceUnit(b, true, true)
  {
  }

  /** What the header of frame n says. */
  function Said(p: int, n: nat): FrameRead {
    FrameRead(IsIdr(p, n), true, Or(Offset(p, n), Down(Offset(p, n), 8)), Offset(p, n) % 0x100, false, 1)
  }

  /** The packed header of frame n, which the slice data follow. */
  function HeaderBits(p: int, n: nat): seq<bool>
    requires n < FRAME_LIMIT
  {
    HeaderIsWritable(p, n);
    Flat(Render(SliceUnit(HeaderAt(p, n), FlagsAt(p, n))))
  }

  /** The unit of frame n: its packed header, and any slice data behind. */
  ghost predicate IsUnit(p: int, n: nat, unit: seq<bool>)
    requires n < FRAME_LIMIT
  {
    forall x :: Opened(x) ==> HeaderBits(p, n) <= unit
  }

  lemma BareUnit(p: int, n: nat) returns (unit: seq<bool>)
    requires n < FRAME_LIMIT
    ensures IsUnit(p, n, unit)
  {
    unit := HeaderBits(p, n);
  }

  lemma SplitUnit(p: int, n: nat, unit: seq<bool>) returns (rest: seq<bool>)
    requires n < FRAME_LIMIT && IsUnit(p, n, unit)
    ensures unit == HeaderBits(p, n) + rest
  {
    assert HeaderBits(p, n) <= unit by { assert Opened(0); }
    rest := Behind(HeaderBits(p, n), unit);
  }

  lemma Behind(front: seq<bool>, b: seq<bool>) returns (rest: seq<bool>)
    requires front <= b
    ensures b == front + rest
  {
    rest := b[|front|..];
  }

  lemma SameFrame(p: int, n: nat, rest: seq<bool>)
    requires n < FRAME_LIMIT
    ensures ReadSlice(STREAM_SETS, HeaderBits(p, n) + rest) == ReadFrame(p, n, rest)
  {
    SameReader(HeaderBits(p, n) + rest);
  }

  /** The header is read with the sets of the stream, whatever follows it, and what follows are the slice data. */
  lemma HeaderIsRead(p: int, n: nat, unit: seq<bool>) returns (data: seq<bool>)
    requires n < FRAME_LIMIT && Offset(p, n) < MAX_FRAME_NUM && IsUnit(p, n, unit)
    ensures unit == HeaderBits(p, n) + data
    ensures ReadHeader(STREAM_SETS, unit) == Some(Said(p, n)) && ReadData(STREAM_SETS, unit) == Some(data)
  {
    data := SplitUnit(p, n, unit);
    SameFrame(p, n, data);
    var fields := FrameIsRead(p, n, data);
  }

  // ---------------------------------------------------------------------------------------------
  // The stream
  // ---------------------------------------------------------------------------------------------

  /** Picture size and profile: what the parameter sets are printed from. */
  datatype Video = Video(profile: Profile, width: nat, height: nat)

  predicate VideoOk(v: Video) {
    1 <= v.width < 0x4000_0000 && 1 <= v.height < 0x4000_0000
  }

  /** The sets' bits, and a unit for every frame. */
  datatype Sent = Sent(sps: seq<bool>, pps: seq<bool>, units: seq<seq<bool>>)

  ghost predicate SetsAreSent(s: Sent, v: Video)
    requires VideoOk(v)
  {
    SetsAreRead(v.profile, v.width, v.height);
    && s.sps == Flat(Render(PackedSps(v.profile, FillSeqParam(v.width, v.height))))
    && s.pps == Flat(Render(PackedPps()))
  }

  /** What is sent for the first frames of a run: any slice data may follow the headers. */
  ghost predicate IsSent(s: Sent, v: Video, p: int)
    requires VideoOk(v)
  {
    SetsAreSent(s, v)
    && |s.units| <= FRAME_LIMIT
    && forall n :: 0 <= n < |s.units| ==> IsUnit(p, n, s.units[n])
  }

  /** What a decoder has when it has read the sets and, with them, the headers. */
  ghost predicate IsReceived(s: Sent, sets: ActiveSets, frames: seq<FrameRead>) {
    && ReadSets(s.sps, s.pps) == Some(sets) && |frames| == |s.units|
    && forall n :: 0 <= n < |frames| ==> ReadHeader(sets, s.units[n]) == Some(frames[n])
  }

  /** What is received is what the headers say. */
  lemma ReceivedIsSaid(s: Sent, v: Video, p: int, sets: ActiveSets, frames: seq<FrameRead>)
    requires VideoOk(v) && IsSent(s, v, p) && IsReceived(s, sets, frames)
    ensures sets == STREAM_SETS
    ensures forall n :: 0 <= n < |frames| && Offset(p, n) < MAX_FRAME_NUM ==> frames[n] == Said(p, n)
    ensures Period(p) <= MAX_FRAME_NUM ==> frames == SaidBy(p, |frames|)
  {
    SetsAreRead(v.profile, v.width, v.height);
    forall n | 0 <= n < |frames| && Offset(p, n) < MAX_FRAME_NUM ensures frames[n] == Said(p, n) {
      var _ := HeaderIsRead(p, n, s.units[n]);
    }
    if Period(p) <= MAX_FRAME_NUM {
      forall n | 0 <= n < |frames| ensures frames[n] == SaidBy(p, |frames|)[n] {
        assert frames[n] == Said(p, n);
      }
    }
  }

  lemma {:induction false} BareUnits(p: int, count: nat) returns (units: seq<seq<bool>>)
    requires count <= FRAME_LIMIT
    ensures |units| == count && forall n :: 0 <= n < count ==> IsUnit(p, n, units[n])
  {
    units := [];
    if count > 0 {
      var before := BareUnits(p, count - 1);
      var unit := BareUnit(p, count - 1);
      units := before + [unit];
      forall n | 0 <= n < count ensures IsUnit(p, n, units[n]) {
        assert units[n] == if n == count - 1 then unit else before[n];
      }
    }
  }

  function SaidBy(p: int, count: nat): (frames: seq<FrameRead>)
    ensures |frames| == count && forall n :: 0 <= n < count ==> frames[n] == Said(p, n)
  {
    seq(count, n requires 0 <= n < count => Said(p, n))
  }

  /** Every stream that is sent is received, whatever slice data it carries. */
  lemma SentIsReceived(s: Sent, v: Video, p: int)
    requires VideoOk(v) && IsSent(s, v, p)
    requires forall n :: 0 <= n < |s.units| ==> Offset(p, n) < MAX_FRAME_NUM
    ensures IsReceived(s, STREAM_SETS, SaidBy(p, |s.units|))
  {
    SetsAreRead(v.profile, v.width, v.height);
    forall n | 0 <= n < |s.units| ensures ReadHeader(STREAM_SETS, s.units[n]) == Some(SaidBy(p, |s.units|)[n]) {
      var _ := HeaderIsRead(p, n, s.units[n]);
    }
  }

  /** The first frames of a run, without slice data. */
  lemma BareStream(v: Video, p: int, count: nat) returns (s: Sent)
    requires VideoOk(v) && count <= FRAME_LIMIT && count <= MAX_FRAME_NUM
    ensures IsSent(s, v, p) && IsReceived(s, STREAM_SETS, SaidBy(p, count))
  {
    var units := BareUnits(p, count);
    SetsAreRead(v.profile, v.width, v.height);
    s := Sent(Flat(Render(PackedSps(v.profile, FillSeqParam(v.width, v.height)))), Flat(Render(PackedPps())), units);
    SentIsReceived(s, v, p);
  }

  // ---------------------------------------------------------------------------------------------
  // The picture order
  // ---------------------------------------------------------------------------------------------

  /** Section 8.2.1.1 over a run: IDR by the unit type, references by nal_ref_idc. */
  function DecodePocs(modulus: nat, prev: int, frames: seq<FrameRead>): (pocs: seq<int>)
    requires PO.Modulus(modulus)
    ensures |pocs| == |frames|
    decreases |frames|
  {
    if frames == [] then []
    else
      var before := if frames[0].idr then 0 else prev;
      var poc := PO.ReadPoc(before, frames[0].pocLsb % modulus, modulus);
      [poc] + DecodePocs(modulus, if frames[0].reference then poc else before, frames[1..])
  }

  /** The header of a coded picture. */
  predicate IsHeaderOf(read: FrameRead, c: PO.Coded, modulus: nat)
    requires PO.Modulus(modulus)
  {
    read.idr == c.idr && read.reference == c.reference && read.pocLsb % modulus == c.poc % modulus
  }

  lemma {:induction false} PocsOfHeaders(modulus: nat, prev: int, frames: seq<FrameRead>, run: seq<PO.Coded>)
    requires PO.Modulus(modulus) && |frames| == |run|
    requires forall n :: 0 <= n < |run| ==> IsHeaderOf(frames[n], run[n], modulus)
    ensures DecodePocs(modulus, prev, frames) == PO.ReadRun(prev, run, modulus)
    decreases |frames|
  {
    if frames != [] {
      assert IsHeaderOf(frames[0], run[0], modulus);
      var poc := PO.ReadPoc(PO.Before(prev, run[0]), run[0].poc % modulus, modulus);
      PocsOfHeaders(modulus, PO.After(prev, run[0], poc), frames[1..], run[1..]);
    }
  }

  /** From the bits alone, behind any history, a decoder finds each frame at its offset in the group. */
  lemma OrderIsDecoded(s: Sent, v: Video, p: int, sets: ActiveSets, frames: seq<FrameRead>, prev: int)
    requires VideoOk(v) && IsSent(s, v, p) && IsReceived(s, sets, frames) && Period(p) <= MAX_FRAME_NUM
    ensures PO.Modulus(Pow2(sets.pocLsbBits))
    ensures forall n :: 0 <= n < |frames| ==> DecodePocs(Pow2(sets.pocLsbBits), prev, frames)[n] == Offset(p, n)
  {
    Powers();
    ReceivedIsSaid(s, v, p, sets, frames);
    SaidOrder(p, |frames|, prev);
  }

  lemma SaidOrder(p: int, count: nat, prev: int)
    ensures forall n :: 0 <= n < count ==> DecodePocs(ANNOUNCED_POC_LSB, prev, SaidBy(p, count))[n] == Offset(p, n)
  {
    var frames := SaidBy(p, count);
    var run := CodedRun(p, 0, |frames|);
    forall n | 0 <= n < |run| ensures IsHeaderOf(frames[n], run[n], ANNOUNCED_POC_LSB) {
      assert frames[n] == Said(p, n);
    }
    PocsOfHeaders(ANNOUNCED_POC_LSB, prev, frames, run);
    OrderIsRecovered(p, |frames|, prev);
    RunSteps(p, 0, |frames|, prev);
    PO.ModuliAgree(prev, run, ANNOUNCED_POC_LSB, MAX_POC_LSB);
  }

  // ---------------------------------------------------------------------------------------------
  // The frame numbers
  // ---------------------------------------------------------------------------------------------

  /** Section 7.4.3 for reference frames without gaps: 0 on IDR, else one more than before. */
  ghost predicate NumbersFollow(modulus: nat, frames: seq<FrameRead>)
    requires modulus > 0
  {
    forall n :: 0 <= n < |frames| ==> NumberFollows(modulus, frames, n)
  }

  ghost predicate NumberFollows(modulus: nat, frames: seq<FrameRead>, n: nat)
    requires modulus > 0 && n < |frames|
  {
    if frames[n].idr then frames[n].frameNum == 0
    else n > 0 && frames[n].frameNum == (frames[n - 1].frameNum + 1) % modulus
  }

  lemma SmallNumber(o: nat)
    requires o < 256
    ensures Or(o, Down(o, 8)) == o
  {
    SmallFrameNumSurvives(o);
  }

  lemma LargeNumbers()
    ensures Or(256, Down(256, 8)) == 257 == Or(257, Down(257, 8))
  {
    assert Down(256, 8) == Down(128, 7) == Down(64, 6) == Down(32, 5);
    assert Down(257, 8) == Down(128, 7);
    assert Down(32, 5) == Down(16, 4) == Down(8, 3) == Down(4, 2) == Down(2, 1) == 1;
    assert Or(256, 1) == 2 * Or(128, 0) + 1 && Or(257, 1) == 2 * Or(128, 0) + 1;
  }

  /** Every number received follows the one before iff no group is longer than 256 frames. */
  lemma NumbersFollowIff(v: Video, p: int)
    requires VideoOk(v)
    ensures (forall s, sets, frames | IsSent(s, v, p) && IsReceived(s, sets, frames) ::
               NumbersFollow(Pow2(sets.frameNumBits), frames))
       <==> Period(p) <= 256
  {
    SixteenBits();
    if Period(p) <= 256 {
      forall s, sets, frames | IsSent(s, v, p) && IsReceived(s, sets, frames)
        ensures NumbersFollow(Pow2(sets.frameNumBits), frames)
      {
        ReceivedIsSaid(s, v, p, sets, frames);
        SaidNumbersFollow(p, |frames|);
      }
    } else {
      var s := BareStream(v, p, 257);
      SaidNumberIsLost(p);
    }
  }

  lemma SixteenBits()
    ensures Pow2(16) == MAX_FRAME_NUM
  {
    Powers();
    Pow2Add(8, 8);
  }

  lemma SaidNumberIsLost(p: int)
    requires Period(p) > 256
    ensures !NumbersFollow(MAX_FRAME_NUM, SaidBy(p, 257))
  {
    FirstGroup(p, 255);
    FirstGroup(p, 256);
    SmallSaid(p, 255);
    LargeNumbers();
    assert !NumberFollows(MAX_FRAME_NUM, SaidBy(p, 257), 256);
  }

  lemma SaidNumbersFollow(p: int, count: nat)
    requires Period(p) <= 256
    ensures NumbersFollow(MAX_FRAME_NUM, SaidBy(p, count))
  {
    forall n | 0 <= n < count ensures NumberFollows(MAX_FRAME_NUM, SaidBy(p, count), n) {
      SmallSaid(p, n);
      if !IsIdr(p, n) {
        NumberSteps(p, n);
      }
    }
  }

  lemma NumberSteps(p: int, n: nat)
    requires n > 0 && Period(p) <= 256 && !IsIdr(p, n)
    ensures Said(p, n).frameNum == (Said(p, n - 1).frameNum + 1) % MAX_FRAME_NUM
  {
    NextFrame(p, n - 1);
    SmallSaid(p, n);
    SmallSaid(p, n - 1);
  }

  lemma SmallSaid(p: int, n: nat)
    requires Offset(p, n) < 256
    ensures Said(p, n).frameNum == Offset(p, n)
  {
    SmallNumber(Offset(p, n));
  }

  // ---------------------------------------------------------------------------------------------
  // The reference lists
  // ---------------------------------------------------------------------------------------------

  /** What the marking takes from the headers. */
  function MarkingRun(frames: seq<FrameRead>): (run: seq<Header>)
    ensures |run| == |frames|
    ensures forall n :: 0 <= n < |run| ==> run[n] == Header(frames[n].idr, frames[n].frameNum, frames[n].longTerm)
  {
    seq(|frames|, n requires 0 <= n < |frames| => Header(frames[n].idr, frames[n].frameNum, frames[n].longTerm))
  }

  /** For frame n the decoder has an initial list, and the encoder's references are its beginning. */
  ghost predicate ListIsRight(p: int, r: nat, run: seq<Header>, buffers: seq<seq<Reference>>, n: nat)
    requires n < |run| < |buffers|
  {
    exists list :: IsInitialPList(list, buffers[n], run[n].frameNum) && NamesPrefixOf(p, References(p, r, n), list)
  }

  ghost predicate ListsAreRight(p: int, r: nat, run: seq<Header>, buffers: seq<seq<Reference>>)
    requires |run| < |buffers|
  {
    forall n :: 0 <= n < |run| && !IsIdr(p, n) ==> ListIsRight(p, r, run, buffers, n)
  }

  /** A decoder's buffers over all that is received. */
  ghost predicate IsDecoded(s: Sent, v: Video, p: int, run: seq<Header>, buffers: seq<seq<Reference>>)
    requires VideoOk(v)
  {
    IsSent(s, v, p) && exists sets, frames ::
      IsReceived(s, sets, frames) && run == MarkingRun(frames) && IsDecoding(run, sets.references, buffers)
  }

  lemma NumberRises(o: nat)
    requires o <= 257
    ensures Or(o, Down(o, 8)) == if o == 256 then 257 else o
  {
    if o < 256 {
      SmallNumber(o);
    } else {
      LargeNumbers();
    }
  }

  /** The numbers of a group rise up to offset 257, where the last step stands still. */
  lemma SaidNumbersClimb(p: int, count: nat, n: nat)
    requires n < count && Offset(p, n) <= 257
    ensures Climbs(MarkingRun(SaidBy(p, count)), GopStart(p, n), n)
  {
    var run := MarkingRun(SaidBy(p, count));
    forall i | GopStart(p, n) <= i <= n
      ensures var o := i - GopStart(p, n); run[i].frameNum == if o == 256 then 257 else o
    {
      NumbersInGroup(p, n, n - i);
      NumberRises(i - GopStart(p, n));
    }
  }

  lemma ShortGroupsAreRight(p: int, r: nat, count: nat, buffers: seq<seq<Reference>>)
    requires 1 <= r <= ANNOUNCED_REFERENCES && Period(p) <= 258
    requires IsDecoding(MarkingRun(SaidBy(p, count)), ANNOUNCED_REFERENCES, buffers)
    ensures ListsAreRight(p, r, MarkingRun(SaidBy(p, count)), buffers)
  {
    var run := MarkingRun(SaidBy(p, count));
    forall n | 0 <= n < |run| && !IsIdr(p, n) ensures ListIsRight(p, r, run, buffers, n) {
      SaidNumbersClimb(p, count, n);
      RisingListIsPrefix(p, r, ANNOUNCED_REFERENCES, run, buffers, n);
    }
  }

  lemma PlaceOf(list: seq<Reference>, dpb: seq<Reference>, a: Reference) returns (i: nat)
    requires multiset(list) == multiset(dpb) && a in dpb
    ensures i < |list| && list[i] == a
  {
    assert a in multiset(dpb);
    assert a in multiset(list);
    i :| 0 <= i < |list| && list[i] == a;
  }

  /** Two references with one number cannot be put in order. */
  lemma NoListForTwins(list: seq<Reference>, dpb: seq<Reference>, current: nat, a: Reference, b: Reference)
    requires a in dpb && b in dpb && a != b && a.frameNum == b.frameNum && !a.longTerm && !b.longTerm
    ensures !IsInitialPList(list, dpb, current)
  {
    if multiset(list) == multiset(dpb) {
      var i := PlaceOf(list, dpb, a);
      var j := PlaceOf(list, dpb, b);
      assert FrameNumWrap(list[i], current) == FrameNumWrap(list[j], current);
    }
  }

  /** Before frame 258 of a group the buffer holds frames 256 and 257, both with the number 257. */
  lemma TwinsAt258(p: int, buffers: seq<seq<Reference>>)
    requires Period(p) > 258 && IsDecoding(MarkingRun(SaidBy(p, 259)), ANNOUNCED_REFERENCES, buffers)
    ensures Reference(256, 257, false) in buffers[258] && Reference(257, 257, false) in buffers[258]
  {
    var run := MarkingRun(SaidBy(p, 259));
    FirstGroup(p, 256);
    FirstGroup(p, 257);
    SaidNumbersClimb(p, 259, 257);
    DpbIsRecent(p, ANNOUNCED_REFERENCES, run, buffers, 257);
    LargeNumbers();
    assert buffers[258][14] == Reference(256, 257, false) && buffers[258][15] == Reference(257, 257, false);
  }

  lemma LongGroupsAreNot(p: int, r: nat, buffers: seq<seq<Reference>>)
    requires Period(p) > 258 && IsDecoding(MarkingRun(SaidBy(p, 259)), ANNOUNCED_REFERENCES, buffers)
    ensures !ListsAreRight(p, r, MarkingRun(SaidBy(p, 259)), buffers)
  {
    TwinsAt258(p, buffers);
    FirstGroup(p, 258);
    forall list ensures !IsInitialPList(list, buffers[258], MarkingRun(SaidBy(p, 259))[258].frameNum) {
      NoListForTwins(list, buffers[258], MarkingRun(SaidBy(p, 259))[258].frameNum, Reference(256, 257, false), Reference(257, 257, false));
    }
    assert !ListIsRight(p, r, MarkingRun(SaidBy(p, 259)), buffers, 258);
  }

  /**
   * With the numbers a decoder reads from the headers and the window the sequence parameter set announces,
   * the encoder's list is the beginning of the decoder's on every P frame of every run iff no group is
   * longer than 258 frames.
   */
  lemma ListsAreRightIff(v: Video, p: int, r: nat)
    requires VideoOk(v) && 1 <= r <= ANNOUNCED_REFERENCES
    ensures (forall s, run, buffers | IsDecoded(s, v, p, run, buffers) :: ListsAreRight(p, r, run, buffers)) <==> Period(p) <= 258
  {
    if Period(p) <= 258 {
      forall s, run, buffers | IsDecoded(s, v, p, run, buffers) ensures ListsAreRight(p, r, run, buffers) {
        var sets, frames :| IsReceived(s, sets, frames) && run == MarkingRun(frames) && IsDecoding(run, sets.references, buffers);
        ReceivedIsSaid(s, v, p, sets, frames);
        ShortGroupsAreRight(p, r, |frames|, buffers);
      }
    } else {
      var s := BareStream(v, p, 259);
      var buffers := SomeDecoding(MarkingRun(SaidBy(p, 259)), ANNOUNCED_REFERENCES);
      LongGroupsAreNot(p, r, buffers);
      assert IsDecoded(s, v, p, MarkingRun(SaidBy(p, 259)), buffers);
    }
  }

  /** The first entry of the decoder's list, in short groups. */
  lemma FirstEntryIsPrevious(p: int, count: nat, buffers: seq<seq<Reference>>, n: nat) returns (list: seq<Reference>)
    requires IsDecoding(MarkingRun(SaidBy(p, count)), 16, buffers) && n < count && !IsIdr(p, n) && Period(p) <= 258
    ensures n > 0 && IsInitialPList(list, buffers[n], Said(p, n).frameNum) && list != [] && list[0].frame == n - 1 && !list[0].longTerm
  {
    var run := MarkingRun(SaidBy(p, count));
    SaidNumbersClimb(p, count, n);
    BufferBeforeP(p, 16, run, buffers, n);
    ReversedIsInitial(buffers[n], run, n, Min(16, Offset(p, n)));
    list := Reversed(buffers[n]);
  }

  /** The headers activate one reference, however many are kept, and it is the frame before. */
  lemma OneReferenceIsActive(s: Sent, v: Video, p: int, sets: ActiveSets, frames: seq<FrameRead>, buffers: seq<seq<Reference>>, n: nat)
      returns (list: seq<Reference>)
    requires VideoOk(v) && IsSent(s, v, p) && IsReceived(s, sets, frames) && Period(p) <= 258
    requires IsDecoding(MarkingRun(frames), sets.references, buffers) && n < |frames| && !IsIdr(p, n)
    ensures frames[n].activeL0 == 1
    ensures n > 0 && IsInitialPList(list, buffers[n], frames[n].frameNum) && list != [] && list[0].frame == n - 1 && !list[0].longTerm
  {
    ReceivedIsSaid(s, v, p, sets, frames);
    list := FirstEntryIsPrevious(p, |frames|, buffers, n);
  }
}
