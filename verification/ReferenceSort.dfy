/**
 * The in-place quicksorts that order the reference lists. The scans of the partition have no bounds
 * check: they stop at sentinels, whose presence the invariants carry.
 */
module ReferenceSort {

  /** VAPictureH264: the surface is named by its slot, the flags are reduced to the short-term bit. */
  datatype Picture = Picture(surface: nat, frameIdx: int, topFieldOrderCnt: int, shortTerm: bool)

  function KeyOf(p: Picture, byFrameIdx: bool): int {
    if byFrameIdx then p.frameIdx else p.topFieldOrderCnt
  }

  /** x comes strictly before y in the wanted direction. */
  predicate Before(x: int, y: int, ascending: bool) {
    if ascending then x < y else x > y
  }

  ghost predicate Ordered(s: seq<Picture>, byFrameIdx: bool, ascending: bool) {
    forall i, j :: 0 <= i < j < |s| ==> !Before(KeyOf(s[j], byFrameIdx), KeyOf(s[i], byFrameIdx), ascending)
  }

  ghost predicate StrictlyOrdered(s: seq<Picture>, byFrameIdx: bool, ascending: bool) {
    forall i, j :: 0 <= i < j < |s| ==> Before(KeyOf(s[i], byFrameIdx), KeyOf(s[j], byFrameIdx), ascending)
  }

  /** All keys on the near side of `key`, or equal to it. */
  ghost predicate NotAfter(s: seq<Picture>, key: int, byFrameIdx: bool, ascending: bool) {
    forall k :: 0 <= k < |s| ==> !Before(key, KeyOf(s[k], byFrameIdx), ascending)
  }

  ghost predicate NotBefore(s: seq<Picture>, key: int, byFrameIdx: bool, ascending: bool) {
    forall k :: 0 <= k < |s| ==> !Before(KeyOf(s[k], byFrameIdx), key, ascending)
  }

  /** The scans have something to stop at: a key not before `key`, and one not after it. */
  ghost predicate HasSentinels(s: seq<Picture>, key: int, byFrameIdx: bool, ascending: bool) {
    && (exists k :: 0 <= k < |s| && !Before(KeyOf(s[k], byFrameIdx), key, ascending))
    && (exists k :: 0 <= k < |s| && !Before(key, KeyOf(s[k], byFrameIdx), ascending))
  }

  /** `a` is `b` with the positions [lo, hi) permuted among themselves. */
  ghost predicate PermutedWithin(a: seq<Picture>, b: seq<Picture>, lo: nat, hi: nat) {
    && lo <= hi <= |a| == |b|
    && a[..lo] == b[..lo] && a[hi..] == b[hi..]
    && multiset(a[lo..hi]) == multiset(b[lo..hi])
  }

  // ---------------------------------------------------------------------------------------------
  // Permutations
  // ---------------------------------------------------------------------------------------------

  lemma SwapPermutes(a: seq<Picture>, i: nat, j: nat, lo: nat, hi: nat)
    requires lo <= i < hi <= |a| && lo <= j < hi
    ensures PermutedWithin(a[i := a[j]][j := a[i]], a, lo, hi)
  {
    var b := a[i := a[j]][j := a[i]];
    var s := a[lo..hi];
    assert b[lo..hi] == s[i - lo := s[j - lo]][j - lo := s[i - lo]];
    assert b[..lo] == a[..lo] && b[hi..] == a[hi..];
  }

  lemma PermutedTransitive(a: seq<Picture>, b: seq<Picture>, c: seq<Picture>, lo: nat, hi: nat)
    requires PermutedWithin(a, b, lo, hi) && PermutedWithin(b, c, lo, hi)
    ensures PermutedWithin(a, c, lo, hi)
  {
  }

  /** Permuting a part permutes the whole. */
  lemma PermutedWidens(a: seq<Picture>, b: seq<Picture>, lo: nat, hi: nat, lo': nat, hi': nat)
    requires PermutedWithin(a, b, lo, hi) && lo' <= lo && hi <= hi' <= |a|
    ensures PermutedWithin(a, b, lo', hi')
  {
    assert a[lo'..hi'] == a[..lo][lo'..] + a[lo..hi] + a[hi..][..hi' - hi];
    assert b[lo'..hi'] == b[..lo][lo'..] + b[lo..hi] + b[hi..][..hi' - hi];
    assert a[..lo'] == a[..lo][..lo'] && b[..lo'] == b[..lo][..lo'];
    assert a[hi'..] == a[hi..][hi' - hi..] && b[hi'..] == b[hi..][hi' - hi..];
  }

  /** A bound on all keys of a stretch survives a permutation of it. */
  lemma BoundsSurvive(a: seq<Picture>, b: seq<Picture>, key: int, byFrameIdx: bool, ascending: bool)
    requires multiset(a) == multiset(b)
    ensures NotAfter(b, key, byFrameIdx, ascending) ==> NotAfter(a, key, byFrameIdx, ascending)
    ensures NotBefore(b, key, byFrameIdx, ascending) ==> NotBefore(a, key, byFrameIdx, ascending)
  {
    forall k | 0 <= k < |a| ensures exists m :: 0 <= m < |b| && b[m] == a[k] {
      assert a[k] in multiset(a);
      assert a[k] in b;
    }
  }

  /** Of two strictly ordered lists with the same elements, one's first is not before the other's. */
  lemma FirstNotBefore(a: seq<Picture>, b: seq<Picture>, byFrameIdx: bool, ascending: bool)
    requires a != [] && b != [] && StrictlyOrdered(a, byFrameIdx, ascending) && multiset(a) == multiset(b)
    ensures !Before(KeyOf(b[0], byFrameIdx), KeyOf(a[0], byFrameIdx), ascending)
  {
    assert b[0] in multiset(b);
    assert b[0] in multiset(a);
    var n :| 0 <= n < |a| && a[n] == b[0];
  }

  lemma SameFirst(a: seq<Picture>, b: seq<Picture>, byFrameIdx: bool, ascending: bool)
    requires a != [] && b != [] && multiset(a) == multiset(b)
    requires StrictlyOrdered(a, byFrameIdx, ascending) && StrictlyOrdered(b, byFrameIdx, ascending)
    ensures a[0] == b[0]
  {
    FirstNotBefore(a, b, byFrameIdx, ascending);
    FirstNotBefore(b, a, byFrameIdx, ascending);
    assert a[0] in multiset(a);
    assert a[0] in multiset(b);
    var m :| 0 <= m < |b| && b[m] == a[0];
  }

  lemma TailElements(a: seq<Picture>)
    requires a != []
    ensures a == [a[0]] + a[1..] && multiset(a[1..]) == multiset(a) - multiset{a[0]}
  {
    assert a == [a[0]] + a[1..];
  }

  /** Strictly ordered lists of the same pictures are the same list. */
  lemma {:induction false} StrictOrderIsUnique(a: seq<Picture>, b: seq<Picture>, byFrameIdx: bool, ascending: bool)
    requires StrictlyOrdered(a, byFrameIdx, ascending) && StrictlyOrdered(b, byFrameIdx, ascending)
    requires multiset(a) == multiset(b)
    ensures a == b
  {
    assert |a| == |multiset(a)| == |multiset(b)| == |b|;
    if a != [] {
      SameFirst(a, b, byFrameIdx, ascending);
      TailElements(a);
      TailElements(b);
      StrictOrderIsUnique(a[1..], b[1..], byFrameIdx, ascending);
    }
  }

  // ---------------------------------------------------------------------------------------------
  // The partition macro
  // ---------------------------------------------------------------------------------------------

  /** Steps up over the elements that come before the key; stops at `stop` at the latest. */
  method ScanUp(a: array<Picture>, from: nat, ghost stop: nat, key: int, byFrameIdx: bool, ascending: bool)
      returns (i: nat)
    requires from <= stop < a.Length && !Before(KeyOf(a[stop], byFrameIdx), key, ascending)
    ensures from <= i <= stop && !Before(KeyOf(a[i], byFrameIdx), key, ascending)
    ensures forall k :: from <= k < i ==> Before(KeyOf(a[k], byFrameIdx), key, ascending)
  {
    i := from;
    while Before(KeyOf(a[i], byFrameIdx), key, ascending)
      invariant from <= i <= stop
      invariant forall k :: from <= k < i ==> Before(KeyOf(a[k], byFrameIdx), key, ascending)
      decreases stop - i
    {
      i := i + 1;
    }
  }

  /** Steps down over the elements that come behind the key; stops at `stop` at the latest. */
  method ScanDown(a: array<Picture>, from: nat, ghost stop: nat, key: int, byFrameIdx: bool, ascending: bool)
      returns (j: nat)
    requires stop <= from < a.Length && !Before(key, KeyOf(a[stop], byFrameIdx), ascending)
    ensures stop <= j <= from && !Before(key, KeyOf(a[j], byFrameIdx), ascending)
    ensures forall k :: j < k <= from ==> Before(key, KeyOf(a[k], byFrameIdx), ascending)
  {
    j := from;
    while Before(key, KeyOf(a[j], byFrameIdx), ascending)
      invariant stop <= j <= from
      invariant forall k :: j < k <= from ==> Before(key, KeyOf(a[k], byFrameIdx), ascending)
      decreases j
    {
      j := j - 1;
    }
  }

  method SwapElements(a: array<Picture>, i: nat, j: nat, ghost left: nat, ghost right: nat)
    requires left <= i <= j <= right < a.Length
    modifies a
    ensures a[i] == old(a[j]) && a[j] == old(a[i])
    ensures forall k :: 0 <= k < a.Length && k != i && k != j ==> a[k] == old(a[k])
    ensures PermutedWithin(a[..], old(a[..]), left, right + 1)
  {
    SwapPermutes(a[..], i, j, left, right + 1);
    a[i], a[j] := a[j], a[i];
    assert a[..] == old(a[..])[i := old(a[j])][j := old(a[i])];
  }

  method Partition(a: array<Picture>, left: nat, right: nat, key: int, byFrameIdx: bool, ascending: bool)
      returns (i: int, j: int)
    requires left <= right < a.Length
    requires HasSentinels(a[..][left..right + 1], key, byFrameIdx, ascending)
    modifies a
    ensures PermutedWithin(a[..], old(a[..]), left, right + 1)
    ensures left < i <= right + 1 && left - 1 <= j < right && j < i
    ensures forall k :: left <= k < i ==> !Before(key, KeyOf(a[k], byFrameIdx), ascending)
    ensures forall k :: j < k <= right ==> !Before(KeyOf(a[k], byFrameIdx), key, ascending)
  {
    i, j := left, right;
    ghost var stopI, stopJ := SentinelPositions(a[..], left, right, key, byFrameIdx, ascending);
    while i <= j
      invariant left <= i <= right + 1 && left - 1 <= j <= right
      invariant PermutedWithin(a[..], old(a[..]), left, right + 1)
      invariant Parted(a[..], left, i, j, right, key, byFrameIdx, ascending)
      invariant i <= j ==> i <= stopI <= right && !Before(KeyOf(a[stopI], byFrameIdx), key, ascending)
      invariant i <= j ==> left <= stopJ <= j && !Before(key, KeyOf(a[stopJ], byFrameIdx), ascending)
      invariant i > j ==> left < i && j < right
      decreases if i <= j then j - i + 1 else 0
    {
      ghost var before := a[..];
      i, j := PartitionStep(a, left, i, j, right, stopI, stopJ, key, byFrameIdx, ascending);
      PermutedTransitive(a[..], before, old(a[..]), left, right + 1);
      stopI, stopJ := if i <= j then j + 1 else stopI, if i <= j then i - 1 else stopJ;
    }
  }

  /** The scanned parts are on their sides of the key. */
  ghost predicate Parted(s: seq<Picture>, left: nat, i: int, j: int, right: int, key: int, byFrameIdx: bool, ascending: bool)
    requires right < |s| && i <= right + 1 && left - 1 <= j
  {
    && (forall k :: left <= k < i ==> !Before(key, KeyOf(s[k], byFrameIdx), ascending))
    && (forall k :: j < k <= right ==> !Before(KeyOf(s[k], byFrameIdx), key, ascending))
  }

  /** One round of the macro: both scans, and the swap if they have not met. */
  method PartitionStep(a: array<Picture>, left: nat, i0: nat, j0: nat, right: nat, ghost stopI: nat, ghost stopJ: nat,
                       key: int, byFrameIdx: bool, ascending: bool) returns (i: int, j: int)
    requires left <= i0 <= j0 <= right < a.Length
    requires i0 <= stopI <= right && !Before(KeyOf(a[stopI], byFrameIdx), key, ascending)
    requires left <= stopJ <= j0 && !Before(key, KeyOf(a[stopJ], byFrameIdx), ascending)
    requires Parted(a[..], left, i0, j0, right, key, byFrameIdx, ascending)
    modifies a
    ensures PermutedWithin(a[..], old(a[..]), left, right + 1)
    ensures i0 <= i <= right + 1 && left - 1 <= j <= j0 && (i <= j ==> i0 < i && j < j0)
    ensures Parted(a[..], left, i, j, right, key, byFrameIdx, ascending)
    ensures i <= j ==> !Before(KeyOf(a[j + 1], byFrameIdx), key, ascending) && !Before(key, KeyOf(a[i - 1], byFrameIdx), ascending)
    ensures i > j ==> left < i && j < right
  {
    i := ScanUp(a, i0, stopI, key, byFrameIdx, ascending);
    j := ScanDown(a, j0, stopJ, key, byFrameIdx, ascending);
    if i <= j {
      SwapElements(a, i, j, left, right);
      i := i + 1;
      j := j - 1;
    }
  }

  lemma SentinelPositions(s: seq<Picture>, left: nat, right: nat, key: int, byFrameIdx: bool, ascending: bool)
      returns (stopI: nat, stopJ: nat)
    requires left <= right < |s| && HasSentinels(s[left..right + 1], key, byFrameIdx, ascending)
    ensures left <= stopI <= right && !Before(KeyOf(s[stopI], byFrameIdx), key, ascending)
    ensures left <= stopJ <= right && !Before(key, KeyOf(s[stopJ], byFrameIdx), ascending)
  {
    var t := s[left..right + 1];
    var k1 :| 0 <= k1 < |t| && !Before(KeyOf(t[k1], byFrameIdx), key, ascending);
    var k2 :| 0 <= k2 < |t| && !Before(key, KeyOf(t[k2], byFrameIdx), ascending);
    assert t[k1] == s[left + k1] && t[k2] == s[left + k2];
    stopI, stopJ := left + k1, left + k2;
  }

  // ---------------------------------------------------------------------------------------------
  // sort_one and sort_two
  // ---------------------------------------------------------------------------------------------

  /** The index C computes as (left + right) / 2, also for the empty range 0..-1. */
  function Middle(left: int, right: int): int {
    if left + right >= 0 then (left + right) / 2 else -((-(left + right)) / 2)
  }

  lemma OrderedFromParts(s: seq<Picture>, left: nat, i: int, j: int, right: nat, key: int, byFrameIdx: bool, ascending: bool)
    requires left < i <= right + 1 <= |s| && left - 1 <= j < right && j < i
    requires NotAfter(s[left..i], key, byFrameIdx, ascending) && NotBefore(s[j + 1..right + 1], key, byFrameIdx, ascending)
    requires Ordered(s[left..j + 1], byFrameIdx, ascending) && Ordered(s[i..right + 1], byFrameIdx, ascending)
    ensures Ordered(s[left..right + 1], byFrameIdx, ascending)
  {
    var t := s[left..right + 1];
    forall m, n | 0 <= m < n < |t| ensures !Before(KeyOf(t[n], byFrameIdx), KeyOf(t[m], byFrameIdx), ascending) {
      var x, y := left + m, left + n;
      assert x < i ==> s[left..i][m] == t[m];
      assert y < i ==> s[left..i][n] == t[n];
      assert x > j ==> s[j + 1..right + 1][x - j - 1] == t[m];
      assert y > j ==> s[j + 1..right + 1][y - j - 1] == t[n];
      if y <= j {
        assert s[left..j + 1][m] == t[m] && s[left..j + 1][n] == t[n];
      } else if x >= i {
        assert s[i..right + 1][x - i] == t[m] && s[i..right + 1][y - i] == t[n];
      }
    }
  }

  /** `a` is `b` with the positions [left, right] put in order. */
  ghost predicate SortedWithin(a: seq<Picture>, b: seq<Picture>, left: nat, right: int, byFrameIdx: bool, ascending: bool) {
    left <= right + 1 && PermutedWithin(a, b, left, right + 1) && Ordered(a[left..right + 1], byFrameIdx, ascending)
  }

  /** sort_one: terminates, stays in its range, and leaves it ordered and permuted. */
  method SortOne(a: array<Picture>, left: nat, right: int, ascending: bool, byFrameIdx: bool)
    requires left <= right + 1 && right < a.Length && 0 < a.Length
    modifies a
    ensures SortedWithin(a[..], old(a[..]), left, right, byFrameIdx, ascending)
    decreases right - left + 1
  {
    var key := KeyOf(a[Middle(left, right)], byFrameIdx);
    if left > right {
      return;
    }
    assert HasSentinels(a[..][left..right + 1], key, byFrameIdx, ascending) by {
      assert a[..][left..right + 1][Middle(left, right) - left] == a[Middle(left, right)];
    }
    var i, j := Partition(a, left, right, key, byFrameIdx, ascending);
    ghost var s1 := a[..];
    if left < j {
      SortOne(a, left, j, ascending, byFrameIdx);
    }
    ghost var s2 := a[..];
    if i < right {
      SortOne(a, i, right, ascending, byFrameIdx);
    }
    SortsCombine(old(a[..]), s1, s2, a[..], left, i, j, right, key, byFrameIdx, ascending);
  }

  /** A partition, then both parts ordered, is the whole ordered. */
  lemma SortsCombine(s0: seq<Picture>, s1: seq<Picture>, s2: seq<Picture>, s3: seq<Picture>,
                     left: nat, i: int, j: int, right: nat, key: int, byFrameIdx: bool, ascending: bool)
    requires left < i <= right + 1 <= |s1| && left - 1 <= j < right && j < i
    requires PermutedWithin(s1, s0, left, right + 1)
    requires forall k :: left <= k < i ==> !Before(key, KeyOf(s1[k], byFrameIdx), ascending)
    requires forall k :: j < k <= right ==> !Before(KeyOf(s1[k], byFrameIdx), key, ascending)
    requires if left < j then SortedWithin(s2, s1, left, j, byFrameIdx, ascending) else s2 == s1
    requires if i < right then SortedWithin(s3, s2, i, right, byFrameIdx, ascending) else s3 == s2
    ensures SortedWithin(s3, s0, left, right, byFrameIdx, ascending)
  {
    PermutedStays(s1, left, j + 1);
    PermutedStays(s2, i, right + 1);
    SidesOfParts(s1, left, i, j, right, key, byFrameIdx, ascending);
    LeftSorted(s1, s2, left, i, j, right, key, byFrameIdx, ascending);
    RightSorted(s2, s3, left, i, j, right, key, byFrameIdx, ascending);
    PermutedTransitive(s3, s2, s1, left, right + 1);
    PermutedTransitive(s3, s1, s0, left, right + 1);
    OrderedFromParts(s3, left, i, j, right, key, byFrameIdx, ascending);
  }

  lemma SidesOfParts(s: seq<Picture>, left: nat, i: int, j: int, right: nat, key: int, byFrameIdx: bool, ascending: bool)
    requires left < i <= right + 1 <= |s| && left - 1 <= j < right && j < i
    requires forall k :: left <= k < i ==> !Before(key, KeyOf(s[k], byFrameIdx), ascending)
    requires forall k :: j < k <= right ==> !Before(KeyOf(s[k], byFrameIdx), key, ascending)
    ensures NotAfter(s[left..i], key, byFrameIdx, ascending) && NotBefore(s[j + 1..right + 1], key, byFrameIdx, ascending)
  {
  }

  /** Permuting the part in front keeps both sides on their sides. */
  lemma LeftSorted(s1: seq<Picture>, s2: seq<Picture>, left: nat, i: int, j: int, right: nat, key: int, byFrameIdx: bool, ascending: bool)
    requires left < i <= right + 1 <= |s1| && left - 1 <= j < right && j < i
    requires PermutedWithin(s2, s1, left, j + 1)
    requires NotAfter(s1[left..i], key, byFrameIdx, ascending) && NotBefore(s1[j + 1..right + 1], key, byFrameIdx, ascending)
    ensures PermutedWithin(s2, s1, left, right + 1)
    ensures NotAfter(s2[left..i], key, byFrameIdx, ascending) && NotBefore(s2[j + 1..right + 1], key, byFrameIdx, ascending)
  {
    PermutedWidens(s2, s1, left, j + 1, left, right + 1);
    PermutedWidens(s2, s1, left, j + 1, left, i);
    BoundsSurvive(s2[left..i], s1[left..i], key, byFrameIdx, ascending);
    assert s2[j + 1..right + 1] == s2[j + 1..][..right - j];
    assert s1[j + 1..right + 1] == s1[j + 1..][..right - j];
  }

  lemma RightSorted(s2: seq<Picture>, s3: seq<Picture>, left: nat, i: int, j: int, right: nat, key: int, byFrameIdx: bool, ascending: bool)
    requires left < i <= right + 1 <= |s2| && left - 1 <= j < right && j < i
    requires PermutedWithin(s3, s2, i, right + 1)
    requires NotAfter(s2[left..i], key, byFrameIdx, ascending) && NotBefore(s2[j + 1..right + 1], key, byFrameIdx, ascending)
    ensures PermutedWithin(s3, s2, left, right + 1) && s3[left..j + 1] == s2[left..j + 1]
    ensures NotAfter(s3[left..i], key, byFrameIdx, ascending) && NotBefore(s3[j + 1..right + 1], key, byFrameIdx, ascending)
  {
    PermutedWidens(s3, s2, i, right + 1, left, right + 1);
    PermutedWidens(s3, s2, i, right + 1, j + 1, right + 1);
    BoundsSurvive(s3[j + 1..right + 1], s2[j + 1..right + 1], key, byFrameIdx, ascending);
    assert s3[left..i] == s3[..i][left..] && s2[left..i] == s2[..i][left..];
    assert s3[left..j + 1] == s3[..i][left..j + 1] && s2[left..j + 1] == s2[..i][left..j + 1];
  }

  lemma PermutedStays(s: seq<Picture>, lo: int, hi: int)
    ensures 0 <= lo <= hi <= |s| ==> PermutedWithin(s, s, lo, hi)
  {
  }

  /** Some key on either side of `key`, and none equal to it. */
  ghost predicate Straddles(s: seq<Picture>, key: int, byFrameIdx: bool) {
    && (exists k :: 0 <= k < |s| && KeyOf(s[k], byFrameIdx) < key)
    && (exists k :: 0 <= k < |s| && KeyOf(s[k], byFrameIdx) > key)
    && (forall k :: 0 <= k < |s| ==> KeyOf(s[k], byFrameIdx) != key)
  }

  /** `near` then `far`: those before the key in one order, those behind it in the other. */
  ghost predicate TwoSided(s: seq<Picture>, k: nat, key: int, byFrameIdx: bool, ascending: bool, nearAscending: bool, farAscending: bool) {
    && k <= |s|
    && (forall m :: 0 <= m < k ==> Before(KeyOf(s[m], byFrameIdx), key, ascending))
    && (forall m :: k <= m < |s| ==> Before(key, KeyOf(s[m], byFrameIdx), ascending))
    && Ordered(s[..k], byFrameIdx, nearAscending)
    && Ordered(s[k..], byFrameIdx, farAscending)
  }

  lemma StraddlesHasSentinels(s: seq<Picture>, key: int, byFrameIdx: bool, ascending: bool)
    requires Straddles(s, key, byFrameIdx)
    ensures HasSentinels(s, key, byFrameIdx, ascending)
  {
    var k1 :| 0 <= k1 < |s| && KeyOf(s[k1], byFrameIdx) < key;
    var k2 :| 0 <= k2 < |s| && KeyOf(s[k2], byFrameIdx) > key;
    assert !Before(KeyOf(s[if ascending then k2 else k1], byFrameIdx), key, ascending);
    assert !Before(key, KeyOf(s[if ascending then k1 else k2], byFrameIdx), ascending);
  }

  /** sort_two: the key is not an element; the list must hold keys on both sides of it. */
  method SortTwo(a: array<Picture>, left: nat, right: nat, key: int, byFrameIdx: bool,
                 partitionAscending: bool, list0Ascending: bool, list1Ascending: bool) returns (ghost k: nat)
    requires left <= right < a.Length && Straddles(a[..][left..right + 1], key, byFrameIdx)
    modifies a
    ensures PermutedWithin(a[..], old(a[..]), left, right + 1)
    ensures 0 < k < right + 1 - left
    ensures TwoSided(a[..][left..right + 1], k, key, byFrameIdx, partitionAscending, list0Ascending, list1Ascending)
  {
    ghost var s0 := a[..];
    StraddlesHasSentinels(s0[left..right + 1], key, byFrameIdx, partitionAscending);
    var i, j := Partition(a, left, right, key, byFrameIdx, partitionAscending);
    ghost var s1 := a[..];
    SidesMeet(s1, s0, left, i, j, right, key, byFrameIdx, partitionAscending);
    ghost var s2 := SortSides(a, left, i, j, right, byFrameIdx, list0Ascending, list1Ascending);
    k := i - left;
    SidesSorted(s0, s1, s2, a[..], left, i, j, right, key, byFrameIdx, partitionAscending, list0Ascending, list1Ascending);
  }

  /** The two sort_one calls at the end of sort_two; `between` is the list after the first. */
  method SortSides(a: array<Picture>, left: nat, i: int, j: int, right: nat, byFrameIdx: bool, list0Ascending: bool, list1Ascending: bool)
      returns (ghost between: seq<Picture>)
    requires left < i == j + 1 <= right < a.Length
    modifies a
    ensures SortedWithin(between, old(a[..]), left, i - 1, byFrameIdx, list0Ascending)
    ensures SortedWithin(a[..], between, j + 1, right, byFrameIdx, list1Ascending)
  {
    SortOne(a, left, i - 1, list0Ascending, byFrameIdx);
    between := a[..];
    SortOne(a, j + 1, right, list1Ascending, byFrameIdx);
  }

  /** Without an element equal to the key the scans meet, and both sides are inhabited. */
  lemma SidesMeet(s1: seq<Picture>, s0: seq<Picture>, left: nat, i: int, j: int, right: nat, key: int, byFrameIdx: bool, ascending: bool)
    requires left < i <= right + 1 <= |s1| && left - 1 <= j < right && j < i
    requires PermutedWithin(s1, s0, left, right + 1) && Straddles(s0[left..right + 1], key, byFrameIdx)
    requires forall k :: left <= k < i ==> !Before(key, KeyOf(s1[k], byFrameIdx), ascending)
    requires forall k :: j < k <= right ==> !Before(KeyOf(s1[k], byFrameIdx), key, ascending)
    ensures i == j + 1 <= right
    ensures NotAfter(s1[left..i], key, byFrameIdx, ascending) && NotBefore(s1[i..right + 1], key, byFrameIdx, ascending)
  {
    NoneEqualSurvives(s1, s0, left, right, key, byFrameIdx);
    MeetInTheMiddle(s1, left, i, j, right, key, byFrameIdx, ascending);
  }

  lemma SidesSorted(s0: seq<Picture>, s1: seq<Picture>, s2: seq<Picture>, s3: seq<Picture>, left: nat, i: int, j: int, right: nat,
                    key: int, byFrameIdx: bool, ascending: bool, nearAscending: bool, farAscending: bool)
    requires left < i == j + 1 <= right < |s0| && Straddles(s0[left..right + 1], key, byFrameIdx)
    requires PermutedWithin(s1, s0, left, right + 1)
    requires NotAfter(s1[left..i], key, byFrameIdx, ascending) && NotBefore(s1[i..right + 1], key, byFrameIdx, ascending)
    requires SortedWithin(s2, s1, left, i - 1, byFrameIdx, nearAscending)
    requires SortedWithin(s3, s2, j + 1, right, byFrameIdx, farAscending)
    ensures PermutedWithin(s3, s0, left, right + 1)
    ensures TwoSided(s3[left..right + 1], i - left, key, byFrameIdx, ascending, nearAscending, farAscending)
  {
    LeftSorted(s1, s2, left, i, i - 1, right, key, byFrameIdx, ascending);
    RightSorted(s2, s3, left, i, i - 1, right, key, byFrameIdx, ascending);
    PermutedTransitive(s3, s2, s1, left, right + 1);
    PermutedTransitive(s3, s1, s0, left, right + 1);
    NoneEqualSurvives(s3, s0, left, right, key, byFrameIdx);
    TwoSidedFromParts(s3, left, i, right, key, byFrameIdx, ascending, nearAscending, farAscending);
  }

  lemma NoneEqualSurvives(a: seq<Picture>, b: seq<Picture>, left: nat, right: nat, key: int, byFrameIdx: bool)
    requires left <= right < |b| && PermutedWithin(a, b, left, right + 1)
    requires Straddles(b[left..right + 1], key, byFrameIdx)
    ensures forall k :: left <= k <= right ==> KeyOf(a[k], byFrameIdx) != key
  {
    forall k | left <= k <= right ensures KeyOf(a[k], byFrameIdx) != key {
      assert a[left..right + 1][k - left] == a[k];
      assert a[k] in multiset(a[left..right + 1]);
      assert a[k] in b[left..right + 1];
    }
  }

  /** Without an element equal to the key the scans leave no gap. */
  lemma MeetInTheMiddle(s: seq<Picture>, left: nat, i: int, j: int, right: nat, key: int, byFrameIdx: bool, ascending: bool)
    requires left < i <= right + 1 <= |s| && left - 1 <= j < right && j < i
    requires forall k :: left <= k < i ==> !Before(key, KeyOf(s[k], byFrameIdx), ascending)
    requires forall k :: j < k <= right ==> !Before(KeyOf(s[k], byFrameIdx), key, ascending)
    requires forall k :: left <= k <= right ==> KeyOf(s[k], byFrameIdx) != key
    ensures i == j + 1
    ensures NotAfter(s[left..i], key, byFrameIdx, ascending) && NotBefore(s[i..right + 1], key, byFrameIdx, ascending)
  {
    var gap := KeyOf(s[j + 1], byFrameIdx);
    assert j + 1 < i ==> gap == key;
  }

  lemma TwoSidedFromParts(s: seq<Picture>, left: nat, i: int, right: nat, key: int, byFrameIdx: bool,
                          ascending: bool, nearAscending: bool, farAscending: bool)
    requires left < i <= right < |s|
    requires NotAfter(s[left..i], key, byFrameIdx, ascending) && NotBefore(s[i..right + 1], key, byFrameIdx, ascending)
    requires forall k :: left <= k <= right ==> KeyOf(s[k], byFrameIdx) != key
    requires Ordered(s[left..i], byFrameIdx, nearAscending) && Ordered(s[i..right + 1], byFrameIdx, farAscending)
    ensures TwoSided(s[left..right + 1], i - left, key, byFrameIdx, ascending, nearAscending, farAscending)
  {
    var t, k := s[left..right + 1], i - left;
    assert t[..k] == s[left..i] && t[k..] == s[i..right + 1];
    forall m | 0 <= m < |t| ensures t[m] == s[left + m] {
    }
    forall m | 0 <= m < k ensures Before(KeyOf(t[m], byFrameIdx), key, ascending) {
      assert s[left..i][m] == t[m];
    }
    forall m | k <= m < |t| ensures Before(key, KeyOf(t[m], byFrameIdx), ascending) {
      assert s[i..right + 1][m - k] == t[m];
    }
  }
}
