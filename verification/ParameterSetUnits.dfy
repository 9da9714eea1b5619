/**
 * The parameter sets as units: with their trailing bits, as bytes in memory, and in the two places the
 * encoder puts them: the packed sequence header and the configuration record of generateExtraData.
 */
module ParameterSetUnits {
  import opened Guards
  import opened Bits
  import opened VaBitstreams
  import opened H264Syntax
  import opened H264ParameterSets
  import opened H264PackedSlice
  import opened H264Printers

  const NAL_SPS := 7
  const NAL_PPS := 8

  // ---------------------------------------------------------------------------------------------
  // Trailing bits
  // ---------------------------------------------------------------------------------------------

  /** rbsp_trailing_bits (section 7.3.2.11): a one and up to seven zeros. */
  predicate IsTrailing(b: seq<bool>) {
    1 <= |b| <= 8 && b[0] && forall i :: 1 <= i < |b| ==> !b[i]
  }

  lemma TrailingBits(offset: nat) returns (bytes: nat)
    ensures AllInRange(Trailing(offset)) && IsTrailing(CodeBits(Trailing(offset)))
    ensures offset + |CodeBits(Trailing(offset))| == 8 * bytes
  {
    var es := Trailing(offset);
    AlignmentInRange(offset + 1, false);
    assert es[1..] == Alignment(offset + 1, false);
    assert BitsOf(1, 1) == [true] by { assert BitsOf(0, 0) == []; }
    if (offset + 1) % 8 != 0 {
      var n := 8 - (offset + 1) % 8;
      BitsOfZero(n);
      assert es[1..][0] == U(0, n) && es[1..][1..] == [];
      assert CodeBits(es[1..]) == BitsOf(0, n) + [];
    }
    assert CodeBits(es) == BitsOf(1, 1) + CodeBits(es[1..]);
    bytes := (offset + |CodeBits(es)|) / 8;
  }

  lemma AppendInRange(a: seq<Element>, b: seq<Element>)
    requires AllInRange(a) && AllInRange(b)
    ensures AllInRange(a + b)
  {
  }

  lemma UnitFlat(es: seq<Element>, trailing: seq<Element>)
    requires AllInRange(es) && AllInRange(trailing)
    ensures Flat(Render(es + trailing)) == CodeBits(es) + CodeBits(trailing)
  {
    AppendInRange(es, trailing);
    CodeBitsConcat(es, trailing);
    AppendToNothing(es + trailing);
  }

  lemma WrittenLength(es: seq<Element>)
    requires AllInRange(es)
    ensures Length(Render(es)) == |CodeBits(es)|
  {
    AppendToNothing(es);
  }

  /** A unit with trailing bits, written on an empty stream, fills whole bytes. */
  lemma UnitBits(es: seq<Element>) returns (bytes: nat)
    requires AllInRange(es)
    ensures var trailing := Trailing(Length(Render(es)));
            && Flat(Render(es + trailing)) == CodeBits(es) + CodeBits(trailing)
            && |Flat(Render(es + trailing))| == 8 * bytes
  {
    WrittenLength(es);
    var n := Length(Render(es));
    bytes := TrailingBits(n);
    UnitFlat(es, Trailing(n));
  }

  function DecodeSpsRbsp(b: seq<bool>): Option<Fields<SpsName>> {
    match Decode(SpsTable(), [], b)
    case None => None
    case Some((fields, rest)) => if IsTrailing(rest) then Some(fields) else None
  }

  function DecodePpsRbsp(b: seq<bool>): Option<Fields<PpsName>> {
    match Decode(PpsTable(), [], b)
    case None => None
    case Some((fields, rest)) => if IsTrailing(rest) then Some(fields) else None
  }

  lemma SpsUnitReadsBack(profile: Profile, p: SeqParam) returns (bytes: nat)
    requires SeqParamOk(p)
    ensures |Flat(Render(SpsUnit([], profile, p)))| == 8 * bytes
    ensures DecodeSpsRbsp(Flat(Render(SpsUnit([], profile, p)))) == Some(Values(SpsFields(profile, p)))
  {
    var es := Elements(SpsFields(profile, p));
    SpsInRange(profile, p);
    assert [] + es == es;
    bytes := UnitBits(es);
    var _ := TrailingBits(Length(Render(es)));
    SpsReadsBack(profile, p, CodeBits(Trailing(Length(Render(es)))));
  }

  lemma PpsUnitReadsBack(p: PicParam) returns (bytes: nat)
    requires PicParamOk(p)
    ensures |Flat(Render(PpsUnit([], p)))| == 8 * bytes
    ensures DecodePpsRbsp(Flat(Render(PpsUnit([], p)))) == Some(Values(PpsFields(p)))
  {
    var es := Elements(PpsFields(p));
    PpsInRange(p);
    assert [] + es == es;
    bytes := UnitBits(es);
    var _ := TrailingBits(Length(Render(es)));
    PpsReadsBack(p, CodeBits(Trailing(Length(Render(es)))));
  }

  // ---------------------------------------------------------------------------------------------
  // The packed sequence header
  // ---------------------------------------------------------------------------------------------

  function PackedSps(profile: Profile, p: SeqParam): seq<Element>
    requires SeqParamOk(p)
  {
    SpsUnit(UnitHead(3, NAL_SPS), profile, p)
  }

  /** A decoder finds the start code, the NAL unit header and every field, and the unit fills whole bytes. */
  lemma PackedSpsReadsBack(profile: Profile, p: SeqParam) returns (bytes: nat)
    requires SeqParamOk(p)
    ensures |Flat(Render(PackedSps(profile, p)))| == 8 * bytes
    ensures exists rest :: DecodeUnitHead(Flat(Render(PackedSps(profile, p)))) == Some((3, NAL_SPS, rest))
              && DecodeSpsRbsp(rest) == Some(Values(SpsFields(profile, p)))
  {
    var head, es := UnitHead(3, NAL_SPS), Elements(SpsFields(profile, p));
    UnitHeadBits(3, NAL_SPS);
    SpsInRange(profile, p);
    assert AllInRange(head + es);
    bytes := UnitBits(head + es);
    CodeBitsConcat(head, es);
    var n := Length(Render(head + es));
    var _ := TrailingBits(n);
    var rest := CodeBits(es) + CodeBits(Trailing(n));
    Associative(CodeBits(head), CodeBits(es), CodeBits(Trailing(n)));
    UnitHeadReadsBack(3, NAL_SPS, rest);
    SpsReadsBack(profile, p, CodeBits(Trailing(n)));
    assert DecodeUnitHead(Flat(Render(PackedSps(profile, p)))) == Some((3, NAL_SPS, rest)) && DecodeSpsRbsp(rest) == Some(Values(SpsFields(profile, p)));
  }

  /** build_packed_seq_buffer, and its bytes in memory in writing order. */
  method BuildPackedSeqBuffer(profile: Profile, p: SeqParam) returns (bs: VaBitstream)
    requires SeqParamOk(p)
    ensures fresh(bs) && fresh(bs.buffer)
    ensures bs.stream == Render(PackedSps(profile, p)) && bs.bitOffset == Length(bs.stream)
    ensures bs.Shown()
  {
    bs := new VaBitstream();
    bs.StartCodePrefix();
    bs.NalHeader(3, NAL_SPS);
    assert bs.trace == UnitHead(3, NAL_SPS);
    SpsRbsp(bs, profile, p);
    assert bs.Stored() && bs.stream == Render(bs.trace) by { assert Opened(0); }
    bs.Stop();
  }

  // ---------------------------------------------------------------------------------------------
  // The packed picture header
  // ---------------------------------------------------------------------------------------------

  /** build_packed_pic_buffer prints a second start code behind the set. */
  function PackedPps(): seq<Element> {
    PpsUnit(UnitHead(3, NAL_PPS), FILLED_PPS) + [U(1, 32)]
  }

  lemma {:induction false} SingleBits(es: seq<Element>)
    requires forall i :: 0 <= i < |es| ==> |ElementBits(es[i])| == 1
    ensures |CodeBits(es)| == |es|
  {
    if es != [] {
      SingleBits(es[1..]);
    }
  }

  lemma ShortCodes()
    ensures |ElementBits(Ue(0))| == |ElementBits(Se(0))| == 1 && |ElementBits(Se(-11))| == 9
  {
    assert BitLength(1) == 1;
    assert CodeNumber(-11) == 22;
    assert BitLength(23) == 1 + BitLength(11) == 2 + BitLength(5) == 3 + BitLength(2) == 5;
  }

  const PPS_FRONT: seq<Element> := [Ue(0), Ue(0), U(1, 1), U(0, 1), Ue(0), Ue(0), Ue(0), U(0, 1)]
  const PPS_BACK: seq<Element> := [Se(0), Se(0), U(1, 1), U(0, 1), U(0, 1), U(0, 1), U(0, 1), Se(0)]

  lemma ElementsAre<N>(es: Named<N>, us: seq<Element>)
    requires |es| == |us| && forall i :: 0 <= i < |es| ==> es[i].1 == us[i]
    ensures Elements(es) == us
  {
  }

  lemma FrontElements()
    ensures |PpsFields(FILLED_PPS)| == 18 && Elements(PpsFields(FILLED_PPS)[..9]) == PPS_FRONT + [U(0, 2)]
  {
    var es, us := PpsFields(FILLED_PPS)[..9], PPS_FRONT + [U(0, 2)];
    forall i | 0 <= i < 9 ensures es[i].1 == us[i] {
      assert i == 0 || i == 1 || i == 2 || i == 3 || i == 4 || i == 5 || i == 6 || i == 7 || i == 8;
    }
    ElementsAre(es, us);
  }

  lemma BackElements()
    ensures |PpsFields(FILLED_PPS)| == 18 && PpsFields(FILLED_PPS)[9..] == PpsQuantizer(FILLED_PPS)
    ensures Elements(PpsQuantizer(FILLED_PPS)) == [Se(-11)] + PPS_BACK
  {
    var es, us := PpsQuantizer(FILLED_PPS), [Se(-11)] + PPS_BACK;
    forall i | 0 <= i < 9 ensures es[i].1 == us[i] {
      assert i == 0 || i == 1 || i == 2 || i == 3 || i == 4 || i == 5 || i == 6 || i == 7 || i == 8;
    }
    ElementsAre(es, us);
  }

  lemma FilledPpsElements()
    ensures Elements(PpsFields(FILLED_PPS)) == (PPS_FRONT + [U(0, 2)]) + ([Se(-11)] + PPS_BACK)
  {
    FrontElements();
    BackElements();
    ElementsConcat(PpsFields(FILLED_PPS)[..9], PpsFields(FILLED_PPS)[9..]);
    Halves(PpsFields(FILLED_PPS), 9);
  }

  lemma Halves<T>(s: seq<T>, k: nat)
    requires k <= |s|
    ensures s[..k] + s[k..] == s
  {
  }

  lemma FrontLength()
    ensures |CodeBits(PPS_FRONT)| == 8
  {
    ShortCodes();
    SingleBits(PPS_FRONT);
  }

  lemma BackLength()
    ensures |CodeBits(PPS_BACK)| == 8
  {
    ShortCodes();
    SingleBits(PPS_BACK);
  }

  lemma LongCodes()
    ensures |CodeBits([U(0, 2)])| == 2 && |CodeBits([Se(-11)])| == 9
  {
    ShortCodes();
    CodeBitsOfOneMore(U(0, 2), []);
    CodeBitsOfOneMore(Se(-11), []);
    assert [U(0, 2)] + [] == [U(0, 2)] && [Se(-11)] + [] == [Se(-11)];
  }

  lemma FourPartsLength(a: seq<Element>, b: seq<Element>, c: seq<Element>, d: seq<Element>)
    ensures |CodeBits((a + b) + (c + d))| == |CodeBits(a)| + |CodeBits(b)| + |CodeBits(c)| + |CodeBits(d)|
  {
    CodeBitsConcat(a + b, c + d);
    CodeBitsConcat(a, b);
    CodeBitsConcat(c, d);
  }

  lemma FilledPpsLength()
    ensures |CodeBits(Elements(PpsFields(FILLED_PPS)))| == 27
  {
    FilledPpsElements();
    FrontLength();
    BackLength();
    LongCodes();
    FourPartsLength(PPS_FRONT, [U(0, 2)], [Se(-11)], PPS_BACK);
  }

  lemma PpsWithHead()
    ensures var es := UnitHead(3, NAL_PPS) + Elements(PpsFields(FILLED_PPS));
            AllInRange(es) && |CodeBits(es)| == Length(Render(es)) == 67
  {
    var head, es := UnitHead(3, NAL_PPS), Elements(PpsFields(FILLED_PPS));
    UnitHeadBits(3, NAL_PPS);
    PpsInRange(FILLED_PPS);
    AppendInRange(head, es);
    CodeBitsConcat(head, es);
    FilledPpsLength();
    WrittenLength(head + es);
  }

  lemma PpsUnitLength()
    ensures Length(Render(PpsUnit(UnitHead(3, NAL_PPS), FILLED_PPS))) == 72
  {
    var es, trailing := UnitHead(3, NAL_PPS) + Elements(PpsFields(FILLED_PPS)), Trailing(67);
    PpsWithHead();
    TrailingOfPps();
    UnitFlat(es, trailing);
  }

  /** The set and its unit header take 72 bits, so the second start code ends 8 bits into the fourth word. */
  lemma PackedPpsLength()
    ensures Length(Render(PpsUnit(UnitHead(3, NAL_PPS), FILLED_PPS))) == 72
    ensures |Render(PackedPps()).tail| == 8 && Length(Render(PackedPps())) == 104
  {
    PpsUnitLength();
    OneMoreWord(PpsUnit(UnitHead(3, NAL_PPS), FILLED_PPS));
    TailOfLength(Render(PackedPps()), 3, 8);
  }

  lemma OneMoreWord(unit: seq<Element>)
    ensures Length(Render(unit + [U(1, 32)])) == Length(Render(unit)) + 32
  {
    RenderAppend(unit, U(1, 32));
  }

  lemma TailOfLength(s: Stream, words: nat, bits: nat)
    requires WellFormed(s) && Length(s) == 32 * words + bits && bits < 32
    ensures |s.tail| == bits
  {
  }

  lemma TrailingOfPps()
    ensures AllInRange(Trailing(67)) && |CodeBits(Trailing(67))| == 5
  {
    Powers();
    assert Trailing(67) == [U(1, 1)] + [U(0, 4)];
    CodeBitsOfOneMore(U(1, 1), [U(0, 4)]);
    CodeBitsOfOneMore(U(0, 4), []);
    assert [U(0, 4)] + [] == [U(0, 4)];
  }

  /** build_packed_pic_buffer: stop is not called, and memory is right all the same. */
  method BuildPackedPicBuffer() returns (bs: VaBitstream)
    ensures fresh(bs) && fresh(bs.buffer)
    ensures bs.stream == Render(PackedPps()) && bs.bitOffset == 104
    ensures bs.Shown()
  {
    bs := new VaBitstream();
    bs.StartCodePrefix();
    bs.NalHeader(3, NAL_PPS);
    assert bs.trace == UnitHead(3, NAL_PPS);
    PpsRbsp(bs, FILLED_PPS);
    PackedPpsLength();
    assert bs.bitOffset == 72 by { assert Opened(0); }
    bs.StartCodePrefix();
    assert bs.Stored() && bs.stream == Render(bs.trace) by { assert Opened(0); }
    bs.OneByteNeedsNoStop();
  }

  lemma PpsBehindHead() returns (rest: seq<bool>)
    ensures DecodeUnitHead(Flat(Render(PpsUnit(UnitHead(3, NAL_PPS), FILLED_PPS)))) == Some((3, NAL_PPS, rest))
    ensures DecodePpsRbsp(rest) == Some(Values(PpsFields(FILLED_PPS)))
  {
    var head, es, trailing := UnitHead(3, NAL_PPS), Elements(PpsFields(FILLED_PPS)), Trailing(67);
    PpsWithHead();
    var _ := TrailingBits(67);
    UnitFlat(head + es, trailing);
    CodeBitsConcat(head, es);
    rest := CodeBits(es) + CodeBits(trailing);
    Associative(CodeBits(head), CodeBits(es), CodeBits(trailing));
    UnitHeadReadsBack(3, NAL_PPS, rest);
    PpsReadsBack(FILLED_PPS, CodeBits(trailing));
  }

  /** A decoder of the packed picture header finds the set, and behind it one more start code. */
  lemma PackedPpsReadsBack() returns (rest: seq<bool>, behind: seq<bool>)
    ensures Flat(Render(PackedPps())) == Flat(Render(PpsUnit(UnitHead(3, NAL_PPS), FILLED_PPS))) + behind
    ensures DecodeUnitHead(Flat(Render(PpsUnit(UnitHead(3, NAL_PPS), FILLED_PPS)))) == Some((3, NAL_PPS, rest))
    ensures DecodePpsRbsp(rest) == Some(Values(PpsFields(FILLED_PPS)))
    ensures ReadBits(behind, 32) == Some((1, []))
  {
    rest := PpsBehindHead();
    behind := BitsOf(1, 32);
    SecondStartCode(PpsUnit(UnitHead(3, NAL_PPS), FILLED_PPS));
  }

  lemma SecondStartCode(unit: seq<Element>)
    ensures Flat(Render(unit + [U(1, 32)])) == Flat(Render(unit)) + BitsOf(1, 32)
    ensures ReadBits(BitsOf(1, 32), 32) == Some((1, []))
  {
    Powers();
    Pow2Of32();
    assert InRange(U(1, 32));
    RenderAppend(unit, U(1, 32));
    PutElementAppends(Render(unit), U(1, 32));
    ReadBitsBack(1, 32, []);
    assert BitsOf(1, 32) + [] == BitsOf(1, 32);
  }
}
