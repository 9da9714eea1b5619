/**
 * generateExtraData: the AVC decoder configuration record, and a parser of section 5.2.4.1 of
 * ISO/IEC 14496-15 that finds the parameter sets in it; and the NAL unit size that encode writes over
 * the start code of a frame.
 */
module ConfigurationRecord {
  import opened Guards
  import opened Bits
  import opened VaBitstreams
  import opened BitstreamMemory
  import opened H264Syntax
  import opened H264ParameterSets
  import opened H264Printers
  import opened ParameterSetUnits

  // ---------------------------------------------------------------------------------------------
  // The record
  // ---------------------------------------------------------------------------------------------

  function High(n: nat): Byte {
    n / 0x100 % 0x100
  }

  function Low(n: nat): Byte {
    n % 0x100
  }

  /** A parameter set behind its length and its NAL unit header. */
  function SetOf(unitType: Byte, body: seq<Byte>): seq<Byte> {
    [High(1 + |body|), Low(1 + |body|), unitType] + body
  }

  function RecordHead(sps: seq<Byte>): seq<Byte>
    requires |sps| >= 3
  {
    [1, sps[0], sps[1], sps[2], 0xff, 0xe1]
  }

  function Record(sps: seq<Byte>, pps: seq<Byte>): seq<Byte>
    requires |sps| >= 3
  {
    RecordHead(sps) + SetOf(NAL_SPS, sps) + [1] + SetOf(NAL_PPS, pps)
  }

  /** What the record says of the High profiles, behind the sets. */
  datatype Extension = Extension(chromaFormat: nat, bitDepthLumaMinus8: nat, bitDepthChromaMinus8: nat, sets: seq<seq<Byte>>)

  datatype Config = Config(profile: Byte, compatibility: Byte, level: Byte, lengthSize: nat,
                           sps: seq<seq<Byte>>, pps: seq<seq<Byte>>, extension: Option<Extension>)

  /** `count` parameter sets, each behind its length in 16 bits. */
  function ReadSets(count: nat, b: seq<Byte>): Option<(seq<seq<Byte>>, seq<Byte>)>
    decreases count
  {
    if count == 0 then Some(([], b))
    else if |b| < 2 then None
    else
      var n := (b[0] as nat) * 0x100 + b[1] as nat;
      if |b| < 2 + n then None
      else
        match ReadSets(count - 1, b[2 + n..])
        case None => None
        case Some((sets, rest)) => Some(([b[2..2 + n]] + sets, rest))
  }

  /** The profiles whose record goes on behind the picture parameter sets. */
  predicate HasExtension(profile: nat) {
    profile == 100 || profile == 110 || profile == 122 || profile == 144
  }

  /** AVCDecoderConfigurationRecord up to the picture parameter sets, and what follows them. */
  function ReadConfigSets(b: seq<Byte>): Option<(Config, seq<Byte>)> {
    if |b| < 6 || b[0] != 1 || b[4] / 4 != 0x3f || b[5] / 32 != 7 then None
    else
      match ReadSets(b[5] % 32, b[6..])
      case None => None
      case Some((sps, rest)) =>
        if rest == [] then None
        else
          match ReadSets(rest[0], rest[1..])
          case None => None
          case Some((pps, behind)) => Some((Config(b[1], b[2], b[3], b[4] % 4 + 1, sps, pps, None), behind))
  }

  /** chroma_format, the two bit depths and the sequence parameter set extensions. */
  function ReadExtension(b: seq<Byte>): Option<(Extension, seq<Byte>)> {
    if |b| < 4 || b[0] / 4 != 0x3f || b[1] / 8 != 0x1f || b[2] / 8 != 0x1f then None
    else
      match ReadSets(b[3], b[4..])
      case None => None
      case Some((sets, rest)) => Some((Extension(b[0] % 4, b[1] % 8, b[2] % 8, sets), rest))
  }

  /** The whole record as the section has it: with the extension for its profiles, and nothing behind. */
  function ReadConfig(b: seq<Byte>): Option<Config> {
    match ReadConfigSets(b)
    case None => None
    case Some((config, behind)) =>
      if !HasExtension(config.profile) then if behind == [] then Some(config) else None
      else
        match ReadExtension(behind)
        case None => None
        case Some((extension, rest)) => if rest == [] then Some(config.(extension := Some(extension))) else None
  }

  lemma ReadOneSet(unitType: Byte, body: seq<Byte>, rest: seq<Byte>)
    requires 1 + |body| < 0x1_0000
    ensures ReadSets(1, SetOf(unitType, body) + rest) == Some(([[unitType] + body], rest))
  {
    var n := 1 + |body|;
    var b := SetOf(unitType, body) + rest;
    assert (b[0] as nat) * 0x100 + b[1] as nat == n;
    assert b[2..2 + n] == [unitType] + body;
    assert b[2 + n..] == rest;
    var one: seq<seq<Byte>> := [[unitType] + body];
    assert one + [] == one;
    assert ReadSets(0, b[2 + n..]) == Some(([], rest));
  }

  /**
   * The record holds exactly one set of each kind, each with its NAL unit header byte in front, and ends
   * there: a reader accepts it iff its profile asks for nothing more.
   */
  lemma RecordReadsBack(sps: seq<Byte>, pps: seq<Byte>)
    requires 3 <= |sps| && 1 + |sps| < 0x1_0000 && 1 + |pps| < 0x1_0000
    ensures var config := Config(sps[0], sps[1], sps[2], 4, [[NAL_SPS] + sps], [[NAL_PPS] + pps], None);
            && ReadConfigSets(Record(sps, pps)) == Some((config, []))
            && ReadConfig(Record(sps, pps)) == if HasExtension(sps[0]) then None else Some(config)
  {
    var b, second := Record(sps, pps), [1] + SetOf(NAL_PPS, pps);
    assert b[6..] == SetOf(NAL_SPS, sps) + second;
    ReadOneSet(NAL_SPS, sps, second);
    assert second[1..] == SetOf(NAL_PPS, pps) + [];
    ReadOneSet(NAL_PPS, pps, []);
    RecordStarts(sps, pps);
    assert ReadSets(b[5] % 32, b[6..]) == Some(([[NAL_SPS] + sps], second));
    assert ReadSets(second[0], second[1..]) == Some(([[NAL_PPS] + pps], []));
  }

  lemma RecordStarts(sps: seq<Byte>, pps: seq<Byte>)
    requires 3 <= |sps|
    ensures var b := Record(sps, pps);
            && |b| >= 6 && b[0] == 1 && b[1] == sps[0] && b[2] == sps[1] && b[3] == sps[2]
            && b[4] / 4 == 0x3f && b[4] % 4 == 3 && b[5] / 32 == 7 && b[5] % 32 == 1
  {
    assert Record(sps, pps)[..6] == RecordHead(sps);
  }

  function SpsBytes(profile: Profile, width: nat, height: nat): seq<Byte>
    requires SeqParamOk(FillSeqParam(width, height))
  {
    MemoryBytes(Render(SpsUnit([], profile, FillSeqParam(width, height))))
  }

  function PpsBytes(): seq<Byte> {
    MemoryBytes(Render(PpsUnit([], FILLED_PPS)))
  }

  // ---------------------------------------------------------------------------------------------
  // generateExtraData
  // ---------------------------------------------------------------------------------------------

  /** The unit's bytes in memory are copied to position p. */
  method CopyUnit(data: array<Byte>, p: nat, bs: VaBitstream, ghost s: Stream, len: nat)
    requires InMemory(bs, s) && len == |MemoryBytes(s)| && p + len <= data.Length
    modifies data
    ensures data[..p + len] == old(data[..p]) + MemoryBytes(s)
  {
    var k := 0;
    while k < len
      invariant k <= len
      invariant data[..p] == old(data[..p])
      invariant forall i :: 0 <= i < k ==> data[p + i] == MemoryBytes(s)[i]
    {
      MemoryAtIs(bs, s, k);
      data[p + k] := bs.MemoryAt(k);
      k := k + 1;
    }
    assert data[..p + len] == data[..p] + data[p..p + len];
  }

  /** One byte is put down and the position moves on. */
  method PutByte(data: array<Byte>, p0: nat, v: Byte) returns (p: nat)
    requires p0 < data.Length
    modifies data
    ensures p == p0 + 1 && data[..p] == old(data[..p0]) + [v]
  {
    data[p0] := v;
    p := p0 + 1;
  }

  /** The length in 16 bits, and the NAL unit header. */
  method PutSetHead(data: array<Byte>, p0: nat, len: nat, unitType: Byte) returns (p: nat)
    requires p0 + 3 <= data.Length
    modifies data
    ensures p == p0 + 3 && data[..p] == old(data[..p0]) + [High(1 + len), Low(1 + len), unitType]
  {
    data[p0] := High(1 + len);
    data[p0 + 1] := Low(1 + len);
    data[p0 + 2] := unitType;
    p := p0 + 3;
  }

  method PutSet(data: array<Byte>, p0: nat, bs: VaBitstream, ghost s: Stream, len: nat, unitType: Byte) returns (p: nat)
    requires InMemory(bs, s) && len == |MemoryBytes(s)| && p0 + 3 + len <= data.Length
    modifies data
    ensures p == p0 + 3 + len
    ensures data[..p] == old(data[..p0]) + SetOf(unitType, MemoryBytes(s))
  {
    ghost var front, body := data[..p0], MemoryBytes(s);
    p := PutSetHead(data, p0, len, unitType);
    CopyUnit(data, p, bs, s, len);
    p := p + len;
    SetJoins(front, unitType, body);
  }

  lemma SetJoins(front: seq<Byte>, unitType: Byte, body: seq<Byte>)
    ensures (front + [High(1 + |body|), Low(1 + |body|), unitType]) + body == front + SetOf(unitType, body)
  {
  }

  method PrintSps(profile: Profile, p: SeqParam) returns (bs: VaBitstream)
    requires SeqParamOk(p)
    ensures InMemory(bs, Render(SpsUnit([], profile, p))) && bs.bitOffset == Length(Render(SpsUnit([], profile, p)))
    ensures fresh(bs) && fresh(bs.buffer)
  {
    bs := new VaBitstream();
    SpsRbsp(bs, profile, p);
    assert bs.Stored() && bs.stream == Render(bs.trace) by { assert Opened(0); }
    bs.Stop();
  }

  method PrintPps(p: PicParam) returns (bs: VaBitstream)
    requires PicParamOk(p)
    ensures InMemory(bs, Render(PpsUnit([], p))) && bs.bitOffset == Length(Render(PpsUnit([], p)))
    ensures fresh(bs) && fresh(bs.buffer)
  {
    bs := new VaBitstream();
    PpsRbsp(bs, p);
    assert bs.Stored() && bs.stream == Render(bs.trace) by { assert Opened(0); }
    bs.Stop();
  }

  /** The six bytes in front of the sets. */
  method PutRecordHead(data: array<Byte>, sps: VaBitstream, ghost s: Stream)
    requires InMemory(sps, s) && 3 <= |MemoryBytes(s)| && 6 <= data.Length
    modifies data
    ensures data[..6] == RecordHead(MemoryBytes(s))
  {
    MemoryAtIs(sps, s, 0);
    MemoryAtIs(sps, s, 1);
    MemoryAtIs(sps, s, 2);
    data[0] := 1;
    data[1] := sps.MemoryAt(0);
    data[2] := sps.MemoryAt(1);
    data[3] := sps.MemoryAt(2);
    data[4] := 0xff;
    data[5] := 0xe1;
  }

  method PutRecord(data: array<Byte>, sps: VaBitstream, pps: VaBitstream, ghost s: Stream, ghost q: Stream, spsLen: nat, ppsLen: nat)
      returns (size: nat)
    requires InMemory(sps, s) && InMemory(pps, q)
    requires 3 <= spsLen == |MemoryBytes(s)| && ppsLen == |MemoryBytes(q)| && spsLen + ppsLen + 20 <= data.Length
    modifies data
    ensures size <= data.Length && data[..size] == Record(MemoryBytes(s), MemoryBytes(q))
  {
    PutRecordHead(data, sps, s);
    var p := PutSet(data, 6, sps, s, spsLen, NAL_SPS);
    p := PutByte(data, p, 1);
    size := PutSet(data, p, pps, q, ppsLen, NAL_PPS);
  }

  method GenerateExtraData(profile: Profile, width: nat, height: nat) returns (data: array<Byte>, size: nat)
    requires SeqParamOk(FillSeqParam(width, height))
    ensures size <= data.Length && |SpsBytes(profile, width, height)| >= 3
    ensures data[..size] == Record(SpsBytes(profile, width, height), PpsBytes())
  {
    var sps := PrintSps(profile, FillSeqParam(width, height));
    var pps := PrintPps(FILLED_PPS);
    var spsLen, ppsLen := (sps.bitOffset + 7) / 8, (pps.bitOffset + 7) / 8;
    data := new Byte[spsLen + ppsLen + 20](_ => 0);
    SpsSize(profile, width, height);
    size := PutRecord(data, sps, pps, Render(SpsUnit([], profile, FillSeqParam(width, height))), Render(PpsUnit([], FILLED_PPS)), spsLen, ppsLen);
  }

  // ---------------------------------------------------------------------------------------------
  // What a reader of the record finds
  // ---------------------------------------------------------------------------------------------

  lemma {:induction false} BitLengthFits(v: nat, n: nat)
    requires v < Pow2(n)
    ensures BitLength(v) <= n
    decreases n
  {
    if v > 0 {
      BitLengthFits(v / 2, n - 1);
    }
  }

  lemma ElementBitsBounds(e: Element)
    requires InRange(e)
    ensures 1 <= |ElementBits(e)| <= 64
  {
    Pow2Of32();
    if e.Ue? {
      BitLengthFits(e.code + 1, 32);
    } else if e.Se? {
      BitLengthFits(CodeNumber(e.signed) + 1, 32);
    }
  }

  lemma {:induction false} CodeBitsBounds(es: seq<Element>)
    requires AllInRange(es)
    ensures |es| <= |CodeBits(es)| <= 64 * |es|
  {
    if es != [] {
      ElementBitsBounds(es[0]);
      CodeBitsBounds(es[1..]);
    }
  }

  lemma UnitBytesBounds(es: seq<Element>, low: nat, high: nat)
    requires AllInRange(es) && low <= |es| <= high
    ensures var unit := es + Trailing(Length(Render(es)));
            low <= Length(Render(unit)) <= 64 * high + 64
  {
    var n := Length(Render(es));
    var bytes := UnitBits(es);
    var _ := TrailingBits(n);
    CodeBitsBounds(es);
  }

  lemma SpsFieldCount(profile: Profile, p: SeqParam)
    requires SeqParamOk(p)
    ensures 19 <= |SpsFields(profile, p)| <= 28
  {
  }

  lemma SpsUnitParts(profile: Profile, p: SeqParam)
    requires SeqParamOk(p)
    ensures var es := Elements(SpsFields(profile, p));
            SpsUnit([], profile, p) == es + Trailing(Length(Render(es)))
  {
    var es := Elements(SpsFields(profile, p));
    assert [] + es == es;
  }

  lemma SpsSize(profile: Profile, width: nat, height: nat)
    requires SeqParamOk(FillSeqParam(width, height))
    ensures 3 <= |SpsBytes(profile, width, height)| < 0xffff
  {
    var p := FillSeqParam(width, height);
    SpsLength(profile, p);
    SizeInBytes(Length(Render(SpsUnit([], profile, p))));
  }

  lemma SpsLength(profile: Profile, p: SeqParam)
    requires SeqParamOk(p)
    ensures 19 <= Length(Render(SpsUnit([], profile, p))) <= 64 * 28 + 64
  {
    SpsInRange(profile, p);
    SpsFieldCount(profile, p);
    SpsUnitParts(profile, p);
    UnitBytesBounds(Elements(SpsFields(profile, p)), 19, 28);
  }

  lemma SizeInBytes(length: nat)
    requires 19 <= length <= 64 * 28 + 64
    ensures 3 <= (length + 7) / 8 < 0xffff
  {
  }

  lemma PpsSize()
    ensures |PpsBytes()| < 0xffff
  {
    var es := Elements(PpsFields(FILLED_PPS));
    PpsInRange(FILLED_PPS);
    assert [] + es == es;
    UnitBytesBounds(es, 0, 18);
  }

  lemma FirstElementBits(es: seq<Element>, v: Dword)
    requires es != [] && es[0] == U(v, 8)
    ensures |CodeBits(es)| >= 8 && CodeBits(es)[..8] == BitsOf(v, 8)
  {
  }

  lemma FirstByte(s: Stream, v: nat)
    requires WellFormed(s) && |Flat(s)| >= 8 && Flat(s)[..8] == BitsOf(v, 8) && v < 256
    ensures |MemoryBytes(s)| > 0 && MemoryBytes(s)[0] == v
  {
    MemoryByteAt(s, 0);
    assert Padded(Flat(s))[0..8] == Flat(s)[..8];
    SameByte(v, BitsOf(v, 8));
    SameByte(MemoryBytes(s)[0], BitsOf(v, 8));
  }

  /** The first byte of the set is the profile. */
  lemma FirstByteIsProfile(profile: Profile, width: nat, height: nat)
    requires SeqParamOk(FillSeqParam(width, height))
    ensures |SpsBytes(profile, width, height)| >= 3 && SpsBytes(profile, width, height)[0] == ProfileNumber(profile)
  {
    var p := FillSeqParam(width, height);
    var es := Elements(SpsFields(profile, p));
    SpsSize(profile, width, height);
    SpsInRange(profile, p);
    assert [] + es == es;
    var bytes := UnitBits(es);
    FirstElementBits(es, ProfileNumber(profile));
    FirstByte(Render(SpsUnit([], profile, p)), ProfileNumber(profile));
  }

  /**
   * The sets in the record decode to the fields printed, past NAL unit header bytes that carry nal_ref_idc
   * 0, and NAL units are announced with sizes of 4 bytes. A reader that stops behind the sets finds this
   * for both profiles; one that reads the whole record accepts it iff the profile is Main, because for High
   * the section goes on with fields that are not written.
   */
  lemma ExtraDataReadsBack(profile: Profile, width: nat, height: nat)
    requires SeqParamOk(FillSeqParam(width, height))
    ensures var sps, pps := SpsBytes(profile, width, height), PpsBytes();
            && |sps| >= 3 && sps[0] == ProfileNumber(profile)
            && var config := Config(sps[0], sps[1], sps[2], 4, [[NAL_SPS] + sps], [[NAL_PPS] + pps], None);
               && ReadConfigSets(Record(sps, pps)) == Some((config, []))
               && ReadConfig(Record(sps, pps)) == if profile.Main? then Some(config) else None
    ensures DecodeSpsRbsp(BitsOfBytes(SpsBytes(profile, width, height))) == Some(Values(SpsFields(profile, FillSeqParam(width, height))))
    ensures DecodePpsRbsp(BitsOfBytes(PpsBytes())) == Some(Values(PpsFields(FILLED_PPS)))
    ensures NAL_SPS / 32 % 4 == NAL_PPS / 32 % 4 == 0
  {
    SpsSize(profile, width, height);
    PpsSize();
    FirstByteIsProfile(profile, width, height);
    RecordReadsBack(SpsBytes(profile, width, height), PpsBytes());
    SetsDecode(profile, width, height);
  }

  lemma SetsDecode(profile: Profile, width: nat, height: nat)
    requires SeqParamOk(FillSeqParam(width, height))
    ensures DecodeSpsRbsp(BitsOfBytes(SpsBytes(profile, width, height))) == Some(Values(SpsFields(profile, FillSeqParam(width, height))))
    ensures DecodePpsRbsp(BitsOfBytes(PpsBytes())) == Some(Values(PpsFields(FILLED_PPS)))
  {
    var n := SpsUnitReadsBack(profile, FillSeqParam(width, height));
    WholeBytesShown(Render(SpsUnit([], profile, FillSeqParam(width, height))), n);
    var m := PpsUnitReadsBack(FILLED_PPS);
    WholeBytesShown(Render(PpsUnit([], FILLED_PPS)), m);
  }

  // ---------------------------------------------------------------------------------------------
  // The NAL unit size over the start code
  // ---------------------------------------------------------------------------------------------

  /** One NAL unit behind its size in 4 bytes, as the record announces. */
  function ReadUnit(b: seq<Byte>): Option<(seq<Byte>, seq<Byte>)> {
    if |b| < 4 then None
    else
      var n := Word(b[0], b[1], b[2], b[3]);
      if |b| < 4 + n then None else Some((b[4..4 + n], b[4 + n..]))
  }

  lemma OneUnit(b: seq<Byte>)
    requires |b| >= 4 && Word(b[0], b[1], b[2], b[3]) == |b| - 4
    ensures ReadUnit(b) == Some((b[4..], []))
  {
    assert b[4..4 + (|b| - 4)] == b[4..] && b[4 + (|b| - 4)..] == [];
  }

  /**
   * The end of encode: len bytes from the driver, whose first four are overwritten with len - 4. The
   * frame is one NAL unit for a reader exactly if the driver delivered at least these four bytes.
   */
  method PutNalSize(data: array<Byte>, len: nat)
    requires 4 <= data.Length && len <= data.Length && len < 0x8000_0000
    modifies data
    ensures data[4..] == old(data[4..])
    ensures ReadUnit(data[..len]) == if len >= 4 then Some((old(data[4..len]), [])) else None
  {
    var l := (len - 4) % 0x1_0000_0000;
    data[0] := l / 0x100_0000;
    data[1] := l / 0x1_0000 % 0x100;
    data[2] := l / 0x100 % 0x100;
    data[3] := l % 0x100;
    WordOfBytes(l);
    if len >= 4 {
      assert l == len - 4;
      assert data[..len][4..] == data[4..][..len - 4];
      assert old(data[4..len]) == old(data[4..])[..len - 4];
      OneUnit(data[..len]);
    }
  }
}
