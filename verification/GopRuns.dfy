/**
 * What a run of the encoder looks like, frame by frame, in closed form: groups of pictures, live
 * references, surfaces; and what the decoder of ITU-T H.264 makes of the announced numbers.
 */
module GopRuns {
  import opened Arithmetic
  import opened PictureOrder
  import RS = ReferenceSort

  type Picture = RS.Picture

  const SURFACE_NUM := 16
  const MAX_POC_LSB := 512
  const MAX_FRAME_NUM := 0x1_0000
  const ANNOUNCED_POC_LSB := 256
  const ANNOUNCED_REFERENCES := 16

  /** Periods below 1 act as 1: the offset in the group is never negative. */
  function Period(intraPeriod: int): (k: nat)
    ensures k >= 1 && (intraPeriod >= 1 ==> k == intraPeriod)
  {
    if intraPeriod < 1 then 1 else intraPeriod
  }

  /** The place of frame n in its group, counted as the encoder counts. */
  function Offset(p: int, n: nat): (k: nat)
    ensures k < Period(p) && k <= n
  {
    if n == 0 || Offset(p, n - 1) + 1 >= Period(p) then 0 else Offset(p, n - 1) + 1
  }

  function GopStart(p: int, n: nat): nat {
    n - Offset(p, n)
  }

  predicate IsIdr(p: int, n: nat) {
    Offset(p, n) == 0
  }

  /** The group of frame n, counted from 0. */
  function GopNumber(p: int, n: nat): (k: nat)
    ensures k <= n
  {
    if n == 0 then 0 else GopNumber(p, n - 1) + if IsIdr(p, n) then 1 else 0
  }

  /** The next frame either continues the group or starts the next one. */
  lemma NextFrame(p: int, n: nat)
    ensures n + 1 - GopStart(p, n) >= p <==> IsIdr(p, n + 1)
    ensures !IsIdr(p, n + 1) ==> Offset(p, n + 1) == Offset(p, n) + 1 && GopNumber(p, n + 1) == GopNumber(p, n)
    ensures IsIdr(p, n + 1) ==> GopNumber(p, n + 1) == GopNumber(p, n) + 1
  {
  }

  lemma FirstFrame(p: int)
    ensures Offset(p, 0) == 0 && GopNumber(p, 0) == 0
  {
  }

  lemma OneMore(g: nat, k: nat)
    ensures (g + 1) * k == g * k + k
  {
  }

  /** Counted frame by frame or computed at once: frame n is IDR iff n mod P is 0, its group is n div P. */
  lemma {:induction false} ClosedForm(p: int, n: nat)
    ensures Offset(p, n) == n % Period(p) && GopNumber(p, n) == n / Period(p)
    ensures n == GopNumber(p, n) * Period(p) + Offset(p, n)
  {
    if n == 0 {
      DivMod(0, 0, 0, Period(p));
    } else {
      ClosedForm(p, n - 1);
      var g, k := GopNumber(p, n - 1), Period(p);
      if IsIdr(p, n) {
        assert GopNumber(p, n) == g + 1 && Offset(p, n - 1) + 1 == k;
        OneMore(g, k);
      }
      DivMod(n, GopNumber(p, n), Offset(p, n), k);
    }
  }

  // ---------------------------------------------------------------------------------------------
  // References
  // ---------------------------------------------------------------------------------------------

  /** Frame n as later frames refer to it. */
  function PictureAt(p: int, n: nat): Picture {
    RS.Picture(n % SURFACE_NUM, Offset(p, n), Offset(p, n), true)
  }

  function Min(a: nat, b: nat): nat {
    if a < b then a else b
  }

  /** The last `count` frames before frame n, newest first. */
  function Newest(p: int, n: nat, count: nat): (s: seq<Picture>)
    requires count <= n
    ensures |s| == count
  {
    seq(count, i requires 0 <= i < count => PictureAt(p, n - 1 - i))
  }

  /** The frames that frame n may refer to: the last r of its group, newest first. */
  function References(p: int, r: nat, n: nat): (s: seq<Picture>)
    ensures |s| == Min(r, Offset(p, n))
  {
    Newest(p, n, Min(r, Offset(p, n)))
  }

  /** What is kept behind frame n, before it is known whether frame n + 1 starts a group. */
  function Stored(p: int, r: nat, n: nat): (s: seq<Picture>)
    requires r >= 1
  {
    Newest(p, n + 1, Min(r, Offset(p, n) + 1))
  }

  lemma StoredBecomesReferences(p: int, r: nat, n: nat)
    requires r >= 1
    ensures References(p, r, n + 1) == if IsIdr(p, n + 1) then [] else Stored(p, r, n)
  {
    NextFrame(p, n);
  }

  /** The list shifts by one and the current frame enters in front. */
  lemma StoredIsShifted(p: int, r: nat, n: nat)
    requires r >= 1
    ensures |Stored(p, r, n)| == Min(r, |References(p, r, n)| + 1)
    ensures Stored(p, r, n) == [PictureAt(p, n)] + References(p, r, n)[..|Stored(p, r, n)| - 1]
  {
    var s := Stored(p, r, n);
    forall i | 1 <= i < |s| ensures s[i] == References(p, r, n)[i - 1] {
    }
  }

  /** Inside a group frame numbers count up, so the references are strictly ordered. */
  lemma {:induction false} NumbersInGroup(p: int, n: nat, d: nat)
    requires d <= Offset(p, n)
    ensures Offset(p, n - d) == Offset(p, n) - d
  {
    if d > 0 {
      NumbersInGroup(p, n, d - 1);
      NextFrame(p, n - d);
    }
  }

  /** The first frames of a run count up to the end of the group. */
  lemma {:induction false} FirstGroup(p: int, n: nat)
    requires n < Period(p)
    ensures Offset(p, n) == n
  {
    if n > 0 {
      FirstGroup(p, n - 1);
      NextFrame(p, n - 1);
    }
  }

  lemma ReferencesAreOrdered(p: int, r: nat, n: nat)
    ensures RS.StrictlyOrdered(References(p, r, n), true, false)
    ensures forall i, j :: 0 <= i < j < |References(p, r, n)| ==> References(p, r, n)[i].frameIdx > References(p, r, n)[j].frameIdx
  {
    var s := References(p, r, n);
    forall i, j | 0 <= i < j < |s| ensures s[i].frameIdx > s[j].frameIdx {
      NumbersInGroup(p, n, i + 1);
      NumbersInGroup(p, n, j + 1);
      assert s[i] == PictureAt(p, n - (i + 1)) && s[j] == PictureAt(p, n - (j + 1));
    }
  }

  // ---------------------------------------------------------------------------------------------
  // Surfaces
  // ---------------------------------------------------------------------------------------------

  ghost predicate SurfaceIsFree(p: int, r: nat, n: nat) {
    forall i :: 0 <= i < |References(p, r, n)| ==> References(p, r, n)[i].surface != n % SURFACE_NUM
  }

  lemma SameSurface(n: nat, d: nat)
    requires 1 <= d <= n
    ensures d < SURFACE_NUM ==> (n - d) % SURFACE_NUM != n % SURFACE_NUM
    ensures d == SURFACE_NUM ==> (n - d) % SURFACE_NUM == n % SURFACE_NUM
  {
  }

  /** The surface of frame n holds a live reference exactly when 16 frames are live. */
  lemma SurfaceIsFreeIff(p: int, r: nat, n: nat)
    requires 1 <= r <= 16
    ensures SurfaceIsFree(p, r, n) <==> Min(r, Offset(p, n)) < SURFACE_NUM
  {
    var s := References(p, r, n);
    if |s| < SURFACE_NUM {
      forall i | 0 <= i < |s| ensures s[i].surface != n % SURFACE_NUM {
        SameSurface(n, i + 1);
        assert s[i] == PictureAt(p, n - (i + 1));
      }
    } else {
      SameSurface(n, SURFACE_NUM);
      assert s[SURFACE_NUM - 1] == PictureAt(p, n - SURFACE_NUM);
      assert s[SURFACE_NUM - 1].surface == n % SURFACE_NUM;
    }
  }

  /** So no run ever overwrites a live reference iff at most 15 are kept or no group exceeds 16 frames. */
  lemma SurfacesAreFreeIff(p: int, r: nat)
    requires 1 <= r <= 16
    ensures (forall n: nat :: SurfaceIsFree(p, r, n)) <==> r <= 15 || Period(p) <= 16
  {
    if r <= 15 || Period(p) <= 16 {
      forall n: nat ensures SurfaceIsFree(p, r, n) {
        SurfaceIsFreeIff(p, r, n);
      }
    } else {
      FirstGroup(p, 16);
      SurfaceIsFreeIff(p, r, 16);
    }
  }

  // ---------------------------------------------------------------------------------------------
  // frame_num and idr_pic_id (section 7.4.3)
  // ---------------------------------------------------------------------------------------------

  /** Every picture is a reference and gaps are not allowed: 0 on IDR, else one more than before. */
  predicate FrameNumFollows(p: int, n: nat) {
    && Offset(p, n) < MAX_FRAME_NUM
    && Offset(p, n) == if IsIdr(p, n) then 0 else (Offset(p, n - 1) + 1) % MAX_FRAME_NUM
  }

  /** For a field wider than 16 bits: a period that is too long leaves its range. */
  lemma FrameNumsFollowIff(p: int)
    ensures (forall n: nat :: FrameNumFollows(p, n)) <==> Period(p) <= MAX_FRAME_NUM
  {
    if Period(p) <= MAX_FRAME_NUM {
      forall n: nat ensures FrameNumFollows(p, n) {
        if n > 0 {
          NextFrame(p, n - 1);
        }
      }
    } else {
      FirstGroup(p, MAX_FRAME_NUM);
      assert !FrameNumFollows(p, MAX_FRAME_NUM);
    }
  }

  /** Cut to 16 bits by the field that holds them, the numbers follow the section for every period. */
  lemma CutFrameNumsFollow(p: int, n: nat)
    ensures IsIdr(p, n) ==> Offset(p, n) % MAX_FRAME_NUM == 0
    ensures !IsIdr(p, n) ==> n > 0 && Offset(p, n) % MAX_FRAME_NUM == (Offset(p, n - 1) % MAX_FRAME_NUM + 1) % MAX_FRAME_NUM
  {
    if n > 0 {
      NextFrame(p, n - 1);
    }
  }

  /** IDR pictures in a row carry different idr_pic_id, also when cut to 16 bits. */
  lemma IdrIdsDiffer(p: int, n: nat, m: nat)
    requires IsIdr(p, n) && IsIdr(p, m) && n < m
    requires forall k :: n < k < m ==> !IsIdr(p, k)
    ensures m == n + Period(p) && GopNumber(p, m) == GopNumber(p, n) + 1
    ensures GopNumber(p, m) % 0x1_0000 != GopNumber(p, n) % 0x1_0000
  {
    NextIdr(p, n, Period(p));
    assert IsIdr(p, n + Period(p));
    if m < n + Period(p) {
      NextIdr(p, n, m - n);
    }
  }

  /** Behind an IDR picture the group runs for a whole period. */
  lemma {:induction false} NextIdr(p: int, n: nat, d: nat)
    requires IsIdr(p, n) && d <= Period(p)
    ensures d < Period(p) ==> Offset(p, n + d) == d && GopNumber(p, n + d) == GopNumber(p, n)
    ensures d == Period(p) ==> IsIdr(p, n + d) && GopNumber(p, n + d) == GopNumber(p, n) + 1
  {
    if d > 0 {
      NextIdr(p, n, d - 1);
      NextFrame(p, n + d - 1);
    }
  }

  // ---------------------------------------------------------------------------------------------
  // The decoded picture order
  // ---------------------------------------------------------------------------------------------

  /** Frames n, n + 1, ... as they are coded. */
  function CodedRun(p: int, n: nat, count: nat): (run: seq<Coded>)
    ensures |run| == count
  {
    seq(count, i requires 0 <= i < count => Coded(IsIdr(p, n + i), true, Offset(p, n + i)))
  }

  lemma {:induction false} RunSteps(p: int, n: nat, count: nat, prev: int)
    requires n == 0 || prev == Offset(p, n - 1)
    ensures StepsFit(prev, CodedRun(p, n, count), ANNOUNCED_POC_LSB)
    decreases count
  {
    if count > 0 {
      var run := CodedRun(p, n, count);
      assert run[0] == Coded(IsIdr(p, n), true, Offset(p, n));
      assert run[1..] == CodedRun(p, n + 1, count - 1);
      if n == 0 {
        FirstFrame(p);
      } else {
        NextFrame(p, n - 1);
      }
      RunSteps(p, n + 1, count - 1, Offset(p, n));
    }
  }

  /**
   * The encoder counts modulo 512 and announces 256. On every run, from whatever history, a decoder
   * that uses the announced modulus recovers the same counts, each frame's offset in its group.
   */
  lemma OrderIsRecovered(p: int, count: nat, prev: int)
    ensures ReadRun(prev, CodedRun(p, 0, count), ANNOUNCED_POC_LSB) == ReadRun(prev, CodedRun(p, 0, count), MAX_POC_LSB)
    ensures forall n :: 0 <= n < count ==> ReadRun(prev, CodedRun(p, 0, count), ANNOUNCED_POC_LSB)[n] == Offset(p, n)
  {
    var run := CodedRun(p, 0, count);
    RunSteps(p, 0, count, prev);
    ModuliAgree(prev, run, ANNOUNCED_POC_LSB, MAX_POC_LSB);
    forall n | 0 <= n < count ensures Pocs(run)[n] == Offset(p, n) {
    }
  }
}
