/**
 * The decoder's side of the reference lists: sliding window marking (section 8.2.5.3 of ITU-T H.264)
 * and the initial P list (section 8.2.4.2.1), for any frame numbers, and when they lead to the encoder's
 * lists.
 */
module SlidingWindow {
  import opened GopRuns

  /** A reference in the decoder's buffer. Only an IDR picture can be marked long-term here, so there is at most one. */
  datatype Reference = Reference(frame: nat, frameNum: nat, longTerm: bool)

  /** Equation 8-27. */
  function FrameNumWrap(s: Reference, current: nat): int {
    if s.frameNum > current then s.frameNum - MAX_FRAME_NUM else s.frameNum
  }

  /** Short-term references leave before long-term ones, the smallest FrameNumWrap first. */
  predicate LeavesBefore(a: Reference, b: Reference, current: nat) {
    !a.longTerm && (b.longTerm || FrameNumWrap(a, current) < FrameNumWrap(b, current))
  }

  /** The reference that leaves first. */
  function Oldest(dpb: seq<Reference>, current: nat): (k: nat)
    requires dpb != []
    ensures k < |dpb|
    ensures forall i :: 0 <= i < |dpb| ==> !LeavesBefore(dpb[i], dpb[k], current)
  {
    if |dpb| == 1 then 0
    else
      var k := Oldest(dpb[..|dpb| - 1], current);
      if LeavesBefore(dpb[|dpb| - 1], dpb[k], current) then |dpb| - 1 else k
  }

  function RemoveAt(dpb: seq<Reference>, k: nat): seq<Reference>
    requires k < |dpb|
  {
    dpb[..k] + dpb[k + 1..]
  }

  /**
   * Marking behind a reference picture (sections 8.2.5.1 and 8.2.5.3); `window` is max_num_ref_frames. An IDR
   * picture becomes a long-term reference if its header says so; no sliding window removes it then.
   */
  function Mark(dpb: seq<Reference>, idr: bool, picture: Reference, window: nat): seq<Reference> {
    if idr then [picture]
    else
      var short := picture.(longTerm := false);
      if dpb != [] && |dpb| >= window && !dpb[Oldest(dpb, picture.frameNum)].longTerm
      then RemoveAt(dpb, Oldest(dpb, picture.frameNum)) + [short] else dpb + [short]
  }

  /** What the marking needs to know of a picture. */
  datatype Header = Header(idr: bool, frameNum: nat, longTerm: bool)

  /** `buffers` are the decoder's buffers before the pictures of a run, and behind the last one. */
  ghost predicate IsDecoding(run: seq<Header>, window: nat, buffers: seq<seq<Reference>>) {
    && |buffers| == |run| + 1 && buffers[0] == []
    && forall n :: 0 <= n < |run| ==> Decodes(run, window, buffers, n)
  }

  ghost predicate Decodes(run: seq<Header>, window: nat, buffers: seq<seq<Reference>>, n: nat)
    requires |buffers| == |run| + 1 && n < |run|
  {
    buffers[n + 1] == Mark(buffers[n], run[n].idr, Reference(n, run[n].frameNum, run[n].longTerm), window)
  }

  /** Every run can be decoded. */
  lemma {:induction false} SomeDecoding(run: seq<Header>, window: nat) returns (buffers: seq<seq<Reference>>)
    ensures IsDecoding(run, window, buffers)
  {
    if run == [] {
      buffers := [[]];
    } else {
      var last := |run| - 1;
      var before := SomeDecoding(run[..last], window);
      buffers := before + [Mark(before[last], run[last].idr, Reference(last, run[last].frameNum, run[last].longTerm), window)];
      forall n | 0 <= n < |run| ensures Decodes(run, window, buffers, n) {
        if n < last {
          assert Decodes(run[..last], window, before, n);
        }
      }
    }
  }

  /** The last `count` pictures before picture n, oldest first, all short-term. */
  ghost predicate IsRecent(dpb: seq<Reference>, run: seq<Header>, n: nat, count: nat) {
    && |dpb| == count <= n <= |run|
    && forall i :: 0 <= i < count ==> dpb[i] == Reference(n - count + i, run[n - count + i].frameNum, false)
  }

  /** The numbers of pictures from, from + 1, ... up to n rise; the last step may stand still. */
  ghost predicate Climbs(run: seq<Header>, from: nat, n: nat)
    requires from <= n < |run|
  {
    && (forall i, j :: from <= i < j < n ==> run[i].frameNum < run[j].frameNum)
    && (forall i :: from <= i < n ==> run[i].frameNum <= run[n].frameNum)
  }

  /** While the numbers rise, the window drops the picture decoded first. */
  lemma FirstIsOldest(dpb: seq<Reference>, run: seq<Header>, n: nat, count: nat)
    requires n < |run| && 1 <= count && IsRecent(dpb, run, n, count) && Climbs(run, n - count, n)
    ensures dpb != [] && Oldest(dpb, run[n].frameNum) == 0
  {
    var k, current := Oldest(dpb, run[n].frameNum), run[n].frameNum;
    assert FrameNumWrap(dpb[k], current) <= FrameNumWrap(dpb[0], current);
    assert dpb[k].frameNum == run[n - count + k].frameNum && dpb[0].frameNum == run[n - count].frameNum;
  }

  lemma RecentGrows(dpb: seq<Reference>, run: seq<Header>, n: nat, count: nat)
    requires n < |run| && IsRecent(dpb, run, n, count)
    ensures IsRecent(dpb + [Reference(n, run[n].frameNum, false)], run, n + 1, count + 1)
  {
  }

  lemma RecentShrinks(dpb: seq<Reference>, run: seq<Header>, n: nat, count: nat)
    requires 1 <= count && IsRecent(dpb, run, n, count)
    ensures RemoveAt(dpb, 0) == dpb[1..] && IsRecent(dpb[1..], run, n, count - 1)
  {
    forall i | 0 <= i < count - 1
      ensures dpb[1..][i] == Reference(n - (count - 1) + i, run[n - (count - 1) + i].frameNum, false)
    {
      assert dpb[1..][i] == dpb[i + 1];
    }
  }

  /** The window is full: the oldest leaves. */
  lemma MarkDrops(dpb: seq<Reference>, run: seq<Header>, n: nat, count: nat, window: nat)
    requires n < |run| && 1 <= count && window <= count && IsRecent(dpb, run, n, count) && Climbs(run, n - count, n)
    ensures IsRecent(Mark(dpb, false, Reference(n, run[n].frameNum, run[n].longTerm), window), run, n + 1, count)
  {
    FirstIsOldest(dpb, run, n, count);
    RecentShrinks(dpb, run, n, count);
    RecentGrows(dpb[1..], run, n, count - 1);
  }

  /** There is room: nothing leaves. */
  lemma MarkKeeps(dpb: seq<Reference>, run: seq<Header>, n: nat, count: nat, window: nat)
    requires n < |run| && count < window && IsRecent(dpb, run, n, count)
    ensures IsRecent(Mark(dpb, false, Reference(n, run[n].frameNum, run[n].longTerm), window), run, n + 1, count + 1)
  {
    RecentGrows(dpb, run, n, count);
  }

  /** The window slides by one picture. */
  lemma MarkSlides(dpb: seq<Reference>, run: seq<Header>, n: nat, count: nat, window: nat)
    requires n < |run| && 1 <= count <= window && IsRecent(dpb, run, n, count) && Climbs(run, n - count, n)
    ensures IsRecent(Mark(dpb, false, Reference(n, run[n].frameNum, run[n].longTerm), window), run, n + 1, Min(window, count + 1))
  {
    if count >= window {
      MarkDrops(dpb, run, n, count, window);
    } else {
      MarkKeeps(dpb, run, n, count, window);
    }
  }

  lemma FirstIsRecent(before: seq<Reference>, run: seq<Header>, n: nat, window: nat)
    requires 1 <= window && n < |run| && !run[n].longTerm
    ensures IsRecent(Mark(before, true, Reference(n, run[n].frameNum, run[n].longTerm), window), run, n + 1, 1)
  {
  }

  /** Decoding picture n, with o pictures before it in its group. */
  lemma StepKeepsRecent(before: seq<Reference>, run: seq<Header>, n: nat, o: nat, window: nat)
    requires 1 <= window && o <= n < |run| && (o == 0 ==> !run[n].longTerm)
    requires o > 0 ==> IsRecent(before, run, n, Min(window, o)) && Climbs(run, n - Min(window, o), n)
    ensures IsRecent(Mark(before, o == 0, Reference(n, run[n].frameNum, run[n].longTerm), window), run, n + 1, Min(window, o + 1))
  {
    if o > 0 {
      MarkSlides(before, run, n, Min(window, o), window);
      assert Min(window, Min(window, o) + 1) == Min(window, o + 1);
    } else {
      FirstIsRecent(before, run, n, window);
    }
  }

  /** The IDR pictures are those of the encoder's groups, and their headers make them short-term references. */
  ghost predicate InGroups(p: int, run: seq<Header>) {
    forall n :: 0 <= n < |run| ==> (run[n].idr <==> IsIdr(p, n)) && (run[n].idr ==> !run[n].longTerm)
  }

  /** While the numbers of a group rise, the buffer behind its frame n holds the group's last frames. */
  lemma {:induction false} DpbIsRecent(p: int, window: nat, run: seq<Header>, buffers: seq<seq<Reference>>, n: nat)
    requires IsDecoding(run, window, buffers) && InGroups(p, run) && n < |run| && 1 <= window
    requires Climbs(run, GopStart(p, n), n)
    ensures IsRecent(buffers[n + 1], run, n + 1, Min(window, Offset(p, n) + 1))
    decreases n
  {
    assert Decodes(run, window, buffers, n);
    if Offset(p, n) > 0 {
      NextFrame(p, n - 1);
      assert GopStart(p, n - 1) == GopStart(p, n);
      ClimbsBefore(run, GopStart(p, n), n);
      DpbIsRecent(p, window, run, buffers, n - 1);
    }
    StepKeepsRecent(buffers[n], run, n, Offset(p, n), window);
  }

  // ---------------------------------------------------------------------------------------------
  // The initial P list
  // ---------------------------------------------------------------------------------------------

  /** Section 8.2.4.2.1: short-term references by descending PicNum, which for frames is FrameNumWrap, then a long-term one. */
  predicate ComesBefore(a: Reference, b: Reference, current: nat) {
    !a.longTerm && (b.longTerm || FrameNumWrap(a, current) > FrameNumWrap(b, current))
  }

  ghost predicate IsInitialPList(list: seq<Reference>, dpb: seq<Reference>, current: nat) {
    && multiset(list) == multiset(dpb)
    && forall i, j :: 0 <= i < j < |list| ==> ComesBefore(list[i], list[j], current)
  }

  function Reversed(s: seq<Reference>): (r: seq<Reference>)
    ensures |r| == |s|
    ensures forall i :: 0 <= i < |s| ==> r[i] == s[|s| - 1 - i]
    ensures multiset(r) == multiset(s)
  {
    if s == [] then []
    else
      assert s == [s[0]] + s[1..];
      Reversed(s[1..]) + [s[0]]
  }

  lemma ReversedIsInitial(dpb: seq<Reference>, run: seq<Header>, n: nat, count: nat)
    requires n < |run| && IsRecent(dpb, run, n, count) && Climbs(run, n - count, n)
    ensures forall i :: 0 <= i < count ==> Reversed(dpb)[i].frame == n - 1 - i && !Reversed(dpb)[i].longTerm
    ensures IsInitialPList(Reversed(dpb), dpb, run[n].frameNum)
  {
    var list := Reversed(dpb);
    forall i | 0 <= i < count ensures list[i] == Reference(n - 1 - i, run[n - 1 - i].frameNum, false) {
      assert list[i] == dpb[count - 1 - i];
    }
  }

  /** The encoder's entries are the first of the decoder's list, as short-term references on both sides. */
  ghost predicate NamesPrefixOf(p: int, references: seq<Picture>, list: seq<Reference>) {
    && |references| <= |list|
    && forall i :: 0 <= i < |references| ==> references[i] == PictureAt(p, list[i].frame) && references[i].shortTerm != list[i].longTerm
  }

  lemma ReferencesName(p: int, r: nat, n: nat, list: seq<Reference>)
    requires |References(p, r, n)| <= |list| <= Offset(p, n)
    requires forall i :: 0 <= i < |list| ==> list[i].frame == n - 1 - i && !list[i].longTerm
    ensures NamesPrefixOf(p, References(p, r, n), list)
  {
    forall i | 0 <= i < |References(p, r, n)| ensures References(p, r, n)[i] == PictureAt(p, list[i].frame) && References(p, r, n)[i].shortTerm != list[i].longTerm {
      assert References(p, r, n)[i] == PictureAt(p, n - 1 - i);
    }
  }

  /** Before a P frame whose group's numbers rise, the buffer holds the last frames of the group. */
  lemma BufferBeforeP(p: int, window: nat, run: seq<Header>, buffers: seq<seq<Reference>>, n: nat)
    requires IsDecoding(run, window, buffers) && InGroups(p, run) && n < |run|
    requires 1 <= window && !IsIdr(p, n) && Climbs(run, GopStart(p, n), n)
    ensures IsRecent(buffers[n], run, n, Min(window, Offset(p, n)))
  {
    var m := n - 1;
    NextFrame(p, m);
    assert GopStart(p, m) == GopStart(p, n);
    ClimbsBefore(run, GopStart(p, n), n);
    DpbIsRecent(p, window, run, buffers, m);
  }

  lemma ClimbsBefore(run: seq<Header>, from: nat, n: nat)
    requires from < n < |run| && Climbs(run, from, n)
    ensures Climbs(run, from, n - 1)
  {
  }

  /**
   * For a P frame whose group's numbers rise, whatever they are, the encoder's list is the beginning of
   * the decoder's initial list.
   */
  lemma RisingListIsPrefix(p: int, r: nat, window: nat, run: seq<Header>, buffers: seq<seq<Reference>>, n: nat)
    requires IsDecoding(run, window, buffers) && InGroups(p, run) && n < |run|
    requires 1 <= r <= window && !IsIdr(p, n) && Climbs(run, GopStart(p, n), n)
    ensures IsInitialPList(Reversed(buffers[n]), buffers[n], run[n].frameNum)
    ensures NamesPrefixOf(p, References(p, r, n), Reversed(buffers[n]))
  {
    BufferBeforeP(p, window, run, buffers, n);
    ReversedIsInitial(buffers[n], run, n, Min(window, Offset(p, n)));
    ReferencesName(p, r, n, Reversed(buffers[n]));
  }

  // ---------------------------------------------------------------------------------------------
  // The frame numbers of pic_param, as a driver that writes the headers itself announces them
  // ---------------------------------------------------------------------------------------------

  /** The frame_num of frame n in the bits the parameter set gives it. */
  function Announced(p: int, n: nat): nat {
    Offset(p, n) % MAX_FRAME_NUM
  }

  function AnnouncedRun(p: int, count: nat): (run: seq<Header>)
    ensures |run| == count
  {
    seq(count, n requires 0 <= n < count => Header(IsIdr(p, n), Announced(p, n), false))
  }

  /** On every run with a period up to 65536, each P frame's list is the beginning of the decoder's list. */
  lemma ListIsPrefix(p: int, r: nat, window: nat, count: nat, buffers: seq<seq<Reference>>, n: nat)
    requires IsDecoding(AnnouncedRun(p, count), window, buffers) && n < count
    requires 1 <= r <= window && Period(p) <= MAX_FRAME_NUM && !IsIdr(p, n)
    ensures IsInitialPList(Reversed(buffers[n]), buffers[n], Announced(p, n))
    ensures NamesPrefixOf(p, References(p, r, n), Reversed(buffers[n]))
  {
    var run := AnnouncedRun(p, count);
    forall i | GopStart(p, n) <= i <= n ensures run[i].frameNum == i - GopStart(p, n) {
      NumbersInGroup(p, n, n - i);
    }
    RisingListIsPrefix(p, r, window, run, buffers, n);
  }

  /** There is one initial list. */
  lemma {:induction false} InitialListIsUnique(a: seq<Reference>, b: seq<Reference>, dpb: seq<Reference>, current: nat)
    requires IsInitialPList(a, dpb, current) && IsInitialPList(b, dpb, current)
    ensures a == b
  {
    assert |a| == |multiset(a)| == |multiset(b)| == |b|;
    if a != [] {
      SameFirst(a, b, dpb, current);
      RestIsInitial(a, dpb, current);
      RestIsInitial(b, dpb, current);
      InitialListIsUnique(a[1..], b[1..], a[1..], current);
    }
  }

  lemma RestIsInitial(a: seq<Reference>, dpb: seq<Reference>, current: nat)
    requires a != [] && IsInitialPList(a, dpb, current)
    ensures a == [a[0]] + a[1..] && multiset(a[1..]) == multiset(dpb) - multiset{a[0]}
    ensures IsInitialPList(a[1..], a[1..], current)
  {
    assert a == [a[0]] + a[1..];
  }

  lemma SameFirst(a: seq<Reference>, b: seq<Reference>, dpb: seq<Reference>, current: nat)
    requires a != [] && b != [] && IsInitialPList(a, dpb, current) && IsInitialPList(b, dpb, current)
    ensures a[0] == b[0]
  {
    assert a[0] in multiset(a) && b[0] in multiset(b);
    assert a[0] in multiset(b) && b[0] in multiset(a);
    var m :| 0 <= m < |b| && b[m] == a[0];
    var n :| 0 <= n < |a| && a[n] == b[0];
  }
}
