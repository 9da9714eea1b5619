/**
 * The libmkv writer's video path: two packet buffers that change roles on every call, because the
 * duration of a frame is known only once the next one has been fetched.
 */
module LmkvWriter {
  const NO_PTS: nat := 0xFFFF_FFFF_FFFF_FFFF
  const TWO_64: nat := 0x1_0000_0000_0000_0000
  const TWO_63: nat := 0x8000_0000_0000_0000
  const SCALE := 1000

  type Uint64 = x: nat | x < 0x1_0000_0000_0000_0000

  datatype Packet = Packet(payload: seq<nat>, key: bool, pts: Uint64, dts: Uint64)

  /** What reaches libmkv for one frame. */
  datatype Frame = Frame(payload: seq<nat>, timestamp: Uint64, key: bool, duration: int)

  /** A product of uint64_t read as int64_t. */
  function AsSigned(x: int): (y: int)
    ensures -(TWO_63 as int) <= y < TWO_63
    ensures -(TWO_63 as int) <= x < TWO_63 ==> y == x
  {
    var u := x % TWO_64;
    if u < TWO_63 then u else u - TWO_64
  }

  function Duration(current: Packet, next: Packet): int {
    if current.dts != NO_PTS && next.dts != NO_PTS then AsSigned((next.dts - current.dts) * SCALE) else 0
  }

  function FrameOf(current: Packet, next: Packet): Frame {
    Frame(current.payload, if current.pts == NO_PTS then 0 else current.pts * SCALE % TWO_64, current.key, Duration(current, next))
  }

  /** Every packet but the last, each with the duration up to the next. */
  function Frames(packets: seq<Packet>): (fs: seq<Frame>)
    ensures |fs| == if packets == [] then 0 else |packets| - 1
  {
    if |packets| <= 1 then []
    else Frames(packets[..|packets| - 1]) + [FrameOf(packets[|packets| - 2], packets[|packets| - 1])]
  }

  class Muxer {
    const source: seq<Packet>
    var position: nat
    const s: array<Packet>
    var videoToggle: nat
    var written: seq<Frame>

    /** The buffer that is not selected holds the one packet fetched and not yet written. */
    ghost predicate Pending()
      reads this, s
    {
      && s.Length == 2 && videoToggle < 2
      && 1 <= position <= |source|
      && s[1 - videoToggle] == source[position - 1]
      && written == Frames(source[..position])
    }

    constructor (source: seq<Packet>)
      ensures this.source == source && position == 0 && written == [] && s.Length == 2 && fresh(s)
    {
      this.source, position, written, videoToggle := source, 0, [], 0;
      s := new Packet[2](_ => Packet([], false, 0, 0));
    }

    /** The stream's getPacket: false behind the last packet. */
    method GetPacket(slot: nat) returns (ok: bool)
      requires s.Length == 2 && slot < 2 && position <= |source|
      modifies `position, s
      ensures ok == (old(position) < |source|)
      ensures position == old(position) + if ok then 1 else 0
      ensures ok ==> s[slot] == source[old(position)]
      ensures s[1 - slot] == old(s[1 - slot])
    {
      if position == |source| {
        return false;
      }
      s[slot] := source[position];
      position := position + 1;
      return true;
    }

    /** setupVideo, told whether libmkv knows the codec and creates the track. */
    method SetupVideo(codecKnown: bool, trackCreated: bool) returns (ok: bool)
      requires s.Length == 2 && position == 0 && written == []
      modifies this, s
      ensures ok == (codecKnown && trackCreated && source != [])
      ensures if ok then Pending() && position == 1 else position == 0 && written == []
    {
      if !codecKnown {
        return false;
      }
      if !trackCreated {
        return false;
      }
      ok := GetPacket(0);
      if !ok {
        return;
      }
      videoToggle := 1;
      assert source[..1] == [source[0]];
    }

    method WriteVideo() returns (ok: bool, videoDts: nat)
      requires Pending()
      modifies `position, `videoToggle, `written, s
      ensures Pending()
      ensures ok == (old(position) < |source|)
      ensures position == old(position) + if ok then 1 else 0
      ensures ok ==> videoDts == source[old(position) - 1].dts
    {
      ok := GetPacket(videoToggle);
      if !ok {
        return false, 0;
      }
      var thisOne, nextOne := s[1 - videoToggle], s[videoToggle];
      videoToggle := 1 - videoToggle;
      var timeStamp := if thisOne.pts == NO_PTS then 0 else thisOne.pts * SCALE % TWO_64;
      var duration := if thisOne.dts != NO_PTS && nextOne.dts != NO_PTS then AsSigned((nextOne.dts - thisOne.dts) * SCALE) else 0;
      assert source[..position][..position - 1] == source[..position - 1];
      written := written + [Frame(thisOne.payload, timeStamp, thisOne.key, duration)];
      videoDts := thisOne.dts;
    }

    /** save: writes until the source is dry; the last packet stays in its buffer. */
    method Save()
      requires Pending() && position == 1
      modifies `position, `videoToggle, `written, s
      ensures written == Frames(source) && position == |source|
      ensures |written| == |source| - 1 && forall i :: 0 <= i < |written| ==> IsFrameOf(written[i], source[i], source[i + 1])
      ensures s.Length == 2 && videoToggle < 2 && s[1 - videoToggle] == source[|source| - 1]
    {
      var running := true;
      while running
        invariant Pending() && (!running ==> position == |source|)
        decreases |source| - position, running
      {
        var ok, _ := WriteVideo();
        if !ok {
          running := false;
        }
      }
      assert source[..position] == source;
      forall i | 0 <= i < |written| ensures IsFrameOf(written[i], source[i], source[i + 1]) {
        FrameAt(source, i);
      }
    }
  }

  // ---------------------------------------------------------------------------------------------
  // What is written
  // ---------------------------------------------------------------------------------------------

  /** The frame that libmkv should get for a packet, all times in nanoseconds of 64 bits. */
  ghost predicate IsFrameOf(f: Frame, packet: Packet, next: Packet) {
    && f.payload == packet.payload && f.key == packet.key
    && f.timestamp == (if packet.pts == 0xFFFF_FFFF_FFFF_FFFF then 0 else packet.pts * 1000 % 0x1_0000_0000_0000_0000)
    && if packet.dts == 0xFFFF_FFFF_FFFF_FFFF || next.dts == 0xFFFF_FFFF_FFFF_FFFF then f.duration == 0
       else (f.duration - (next.dts - packet.dts) * 1000) % 0x1_0000_0000_0000_0000 == 0
            && -0x8000_0000_0000_0000 <= f.duration < 0x8000_0000_0000_0000
  }

  lemma FrameFits(packet: Packet, next: Packet)
    ensures IsFrameOf(FrameOf(packet, next), packet, next)
  {
    var step := (next.dts - packet.dts) * SCALE;
    var wraps := Wrapped(step);
    MultipleOfWord(wraps);
  }

  lemma MultipleOfWord(k: int)
    ensures k * 0x1_0000_0000_0000_0000 % 0x1_0000_0000_0000_0000 == 0
  {
  }

  /** Frame i carries packet i: its bytes, its key flag, its time, and the time up to packet i + 1. */
  lemma {:induction false} FrameAt(packets: seq<Packet>, i: nat)
    requires i + 1 < |packets|
    ensures IsFrameOf(Frames(packets)[i], packets[i], packets[i + 1])
  {
    if i + 2 < |packets| {
      FrameAt(packets[..|packets| - 1], i);
    } else {
      FrameFits(packets[i], packets[i + 1]);
    }
  }

  function TotalDuration(frames: seq<Frame>): int {
    if frames == [] then 0 else TotalDuration(frames[..|frames| - 1]) + frames[|frames| - 1].duration
  }

  ghost predicate AllDtsKnown(packets: seq<Packet>) {
    forall i :: 0 <= i < |packets| ==> packets[i].dts != NO_PTS
  }

  /** No two packets in a row are so far apart that the product leaves int64_t. */
  ghost predicate StepsFit(packets: seq<Packet>) {
    forall i :: 0 < i < |packets| ==> -(TWO_63 as int) <= (packets[i].dts - packets[i - 1].dts) * SCALE < TWO_63
  }

  /** The last frame's duration comes on top of those before it. */
  lemma LastDuration(packets: seq<Packet>)
    requires |packets| >= 2
    ensures var last := |packets| - 1;
            TotalDuration(Frames(packets)) == TotalDuration(Frames(packets[..last])) + Duration(packets[last - 1], packets[last])
  {
    var last := |packets| - 1;
    assert Frames(packets)[..last - 1] == Frames(packets[..last]);
  }

  lemma FrontFits(packets: seq<Packet>)
    requires |packets| >= 2 && AllDtsKnown(packets)
    ensures AllDtsKnown(packets[..|packets| - 1])
    ensures StepsFit(packets) ==> StepsFit(packets[..|packets| - 1])
    ensures StepsFit(packets) ==>
              -(TWO_63 as int) <= (packets[|packets| - 1].dts - packets[|packets| - 2].dts) * SCALE < TWO_63
  {
  }

  /** Whatever happens to single steps, the sum is right modulo 2^64. */
  lemma {:induction false} DurationsTelescope(packets: seq<Packet>) returns (wraps: int)
    requires packets != [] && AllDtsKnown(packets)
    ensures TotalDuration(Frames(packets)) == SCALE * (packets[|packets| - 1].dts - packets[0].dts) + wraps * 0x1_0000_0000_0000_0000
    ensures StepsFit(packets) ==> wraps == 0
  {
    var last := |packets| - 1;
    if last == 0 {
      wraps := 0;
    } else {
      FrontFits(packets);
      var before := DurationsTelescope(packets[..last]);
      LastDuration(packets);
      var step := (packets[last].dts - packets[last - 1].dts) * SCALE;
      var wrap := Wrapped(step);
      assert Duration(packets[last - 1], packets[last]) == AsSigned(step);
      wraps := before + wrap;
    }
  }

  lemma Wrapped(x: int) returns (k: int)
    ensures AsSigned(x) == x + k * 0x1_0000_0000_0000_0000
    ensures -(TWO_63 as int) <= x < TWO_63 ==> k == 0
  {
    assert x == x / TWO_64 * TWO_64 + x % TWO_64;
    k := if x % TWO_64 < TWO_63 then -(x / TWO_64) else -(x / TWO_64) - 1;
  }

  /** With all DTS known and sane steps, the durations add up to the time from the first DTS to the last. */
  lemma DurationsAddUp(packets: seq<Packet>)
    requires packets != [] && AllDtsKnown(packets) && StepsFit(packets)
    ensures TotalDuration(Frames(packets)) == SCALE * (packets[|packets| - 1].dts - packets[0].dts)
  {
    var wraps := DurationsTelescope(packets);
  }
}
