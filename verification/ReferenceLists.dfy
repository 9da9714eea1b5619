/**
 * The reference picture lists built from the sorted references: the P list ordered by frame_idx and
 * the two B lists, which are those of section 8.2.4.2.3 of ITU-T H.264.
 */
module ReferenceLists {
  import opened ReferenceSort

  // ---------------------------------------------------------------------------------------------
  // The lists as section 8.2.4.2.3 words them, for frames
  // ---------------------------------------------------------------------------------------------

  ghost predicate PastNearestFirst(s: seq<Picture>, poc: int) {
    && (forall i :: 0 <= i < |s| ==> s[i].topFieldOrderCnt < poc)
    && (forall i, j :: 0 <= i < j < |s| ==> s[i].topFieldOrderCnt > s[j].topFieldOrderCnt)
  }

  ghost predicate FutureNearestFirst(s: seq<Picture>, poc: int) {
    && (forall i :: 0 <= i < |s| ==> s[i].topFieldOrderCnt > poc)
    && (forall i, j :: 0 <= i < j < |s| ==> s[i].topFieldOrderCnt < s[j].topFieldOrderCnt)
  }

  /** RefPicList0: the references before the current picture, then those after it, nearest first. */
  ghost predicate IsRefPicList0(s: seq<Picture>, references: multiset<Picture>, poc: int) {
    && multiset(s) == references
    && exists k :: 0 <= k <= |s| && PastNearestFirst(s[..k], poc) && FutureNearestFirst(s[k..], poc)
  }

  /** RefPicList1: the two groups the other way round. */
  ghost predicate IsRefPicList1(s: seq<Picture>, references: multiset<Picture>, poc: int) {
    && multiset(s) == references
    && exists k :: 0 <= k <= |s| && FutureNearestFirst(s[..k], poc) && PastNearestFirst(s[k..], poc)
  }

  ghost predicate DistinctPoc(s: seq<Picture>) {
    forall i, j :: 0 <= i < j < |s| ==> s[i].topFieldOrderCnt != s[j].topFieldOrderCnt
  }

  // ---------------------------------------------------------------------------------------------
  // Uniqueness
  // ---------------------------------------------------------------------------------------------

  /** Where a list is split around a POC is decided by its elements alone. */
  lemma SplitIsUnique(a: seq<Picture>, b: seq<Picture>, k: nat, n: nat, poc: int, pastFirst: bool)
    requires k <= |a| && n <= |b| && multiset(a) == multiset(b)
    requires forall i :: 0 <= i < k ==> Before(a[i].topFieldOrderCnt, poc, pastFirst)
    requires forall i :: k <= i < |a| ==> Before(poc, a[i].topFieldOrderCnt, pastFirst)
    requires forall i :: 0 <= i < n ==> Before(b[i].topFieldOrderCnt, poc, pastFirst)
    requires forall i :: n <= i < |b| ==> Before(poc, b[i].topFieldOrderCnt, pastFirst)
    ensures multiset(a[..k]) == multiset(b[..n]) && multiset(a[k..]) == multiset(b[n..])
  {
    assert a == a[..k] + a[k..] && b == b[..n] + b[n..];
    forall p: Picture ensures multiset(a[..k])[p] == multiset(b[..n])[p] {
      SideCount(a, k, p, poc, pastFirst);
      SideCount(b, n, p, poc, pastFirst);
    }
    assert multiset(a[..k]) == multiset(b[..n]);
    assert multiset(a) == multiset(a[..k]) + multiset(a[k..]);
    assert multiset(b) == multiset(b[..n]) + multiset(b[n..]);
    assert multiset(a[k..]) == multiset(a) - multiset(a[..k]);
    assert multiset(b[n..]) == multiset(b) - multiset(b[..n]);
  }

  lemma SideCount(s: seq<Picture>, k: nat, p: Picture, poc: int, pastFirst: bool)
    requires k <= |s|
    requires forall i :: 0 <= i < k ==> Before(s[i].topFieldOrderCnt, poc, pastFirst)
    requires forall i :: k <= i < |s| ==> Before(poc, s[i].topFieldOrderCnt, pastFirst)
    ensures multiset(s[..k])[p] == if Before(p.topFieldOrderCnt, poc, pastFirst) then multiset(s)[p] else 0
  {
    assert s == s[..k] + s[k..];
    assert multiset(s) == multiset(s[..k]) + multiset(s[k..]);
    if Before(p.topFieldOrderCnt, poc, pastFirst) {
      assert p !in s[k..];
    } else {
      assert p !in s[..k];
    }
  }

  lemma PartsAreUnique(a: seq<Picture>, b: seq<Picture>, k: nat, n: nat, poc: int, pastFirst: bool)
    requires k <= |a| && n <= |b| && multiset(a) == multiset(b)
    requires Sided(a, k, poc, pastFirst) && Sided(b, n, poc, pastFirst)
    ensures a == b
  {
    SplitIsUnique(a, b, k, n, poc, pastFirst);
    StrictOrderIsUnique(a[..k], b[..n], false, !pastFirst);
    StrictOrderIsUnique(a[k..], b[n..], false, pastFirst);
    assert a == a[..k] + a[k..] && b == b[..n] + b[n..];
  }

  /** Both lists of the section at once: the near side of the POC, then the far side. */
  ghost predicate Sided(s: seq<Picture>, k: nat, poc: int, pastFirst: bool)
    requires k <= |s|
  {
    && (forall i :: 0 <= i < k ==> Before(s[i].topFieldOrderCnt, poc, pastFirst))
    && (forall i :: k <= i < |s| ==> Before(poc, s[i].topFieldOrderCnt, pastFirst))
    && StrictlyOrdered(s[..k], false, !pastFirst) && StrictlyOrdered(s[k..], false, pastFirst)
  }

  lemma List0IsSided(s: seq<Picture>, references: multiset<Picture>, poc: int) returns (k: nat)
    requires IsRefPicList0(s, references, poc)
    ensures k <= |s| && Sided(s, k, poc, true)
  {
    k :| 0 <= k <= |s| && PastNearestFirst(s[..k], poc) && FutureNearestFirst(s[k..], poc);
    forall i | k <= i < |s| ensures s[i] == s[k..][i - k] {}
  }

  lemma List1IsSided(s: seq<Picture>, references: multiset<Picture>, poc: int) returns (k: nat)
    requires IsRefPicList1(s, references, poc)
    ensures k <= |s| && Sided(s, k, poc, false)
  {
    k :| 0 <= k <= |s| && FutureNearestFirst(s[..k], poc) && PastNearestFirst(s[k..], poc);
    forall i | k <= i < |s| ensures s[i] == s[k..][i - k] {}
  }

  /** Section 8.2.4.2.3 leaves no choice: there is one list 0 ... */
  lemma List0IsUnique(a: seq<Picture>, b: seq<Picture>, references: multiset<Picture>, poc: int)
    requires IsRefPicList0(a, references, poc) && IsRefPicList0(b, references, poc)
    ensures a == b
  {
    var k := List0IsSided(a, references, poc);
    var n := List0IsSided(b, references, poc);
    PartsAreUnique(a, b, k, n, poc, true);
  }

  /** ... and one list 1. */
  lemma List1IsUnique(a: seq<Picture>, b: seq<Picture>, references: multiset<Picture>, poc: int)
    requires IsRefPicList1(a, references, poc) && IsRefPicList1(b, references, poc)
    ensures a == b
  {
    var k := List1IsSided(a, references, poc);
    var n := List1IsSided(b, references, poc);
    PartsAreUnique(a, b, k, n, poc, false);
  }

  // ---------------------------------------------------------------------------------------------
  // update_RefPicList
  // ---------------------------------------------------------------------------------------------

  /** The first n pictures are copied. */
  method CopyPictures(to: array<Picture>, from: array<Picture>, n: nat)
    requires to != from && n <= from.Length && n <= to.Length
    modifies to
    ensures to[..] == from[..n] + old(to[..])[n..]
  {
    var i := 0;
    while i < n
      invariant i <= n
      invariant forall k :: 0 <= k < i ==> to[k] == from[k]
      invariant forall k :: i <= k < to.Length ==> to[k] == old(to[k])
    {
      to[i] := from[i];
      i := i + 1;
    }
    assert |to[..]| == |from[..n] + old(to[..])[n..]|;
  }

  /** Distinct POCs stay distinct under permutation. */
  lemma {:induction false} DistinctSurvives(a: seq<Picture>, b: seq<Picture>)
    requires multiset(a) == multiset(b) && DistinctPoc(b)
    ensures DistinctPoc(a)
  {
    forall i, j | 0 <= i < j < |a| ensures a[i].topFieldOrderCnt != a[j].topFieldOrderCnt {
      assert a[i] in multiset(a) && a[j] in multiset(a);
      assert a[i] in multiset(b) && a[j] in multiset(b);
      if a[i] == a[j] {
        TwiceInside(a, i, j);
        OnceInside(b, a[i]);
      } else {
        var m :| 0 <= m < |b| && b[m] == a[i];
        var n :| 0 <= n < |b| && b[n] == a[j];
        assert m != n;
      }
    }
  }

  lemma TwiceInside(s: seq<Picture>, i: nat, j: nat)
    requires i < j < |s| && s[i] == s[j]
    ensures multiset(s)[s[i]] >= 2
  {
    assert s == s[..j] + s[j..];
    assert s[j..][0] == s[i] && s[..j][i] == s[i];
    assert s[i] in multiset(s[..j]) && s[i] in multiset(s[j..]);
    assert multiset(s) == multiset(s[..j]) + multiset(s[j..]);
  }

  lemma {:induction false} OnceInside(s: seq<Picture>, p: Picture)
    requires DistinctPoc(s)
    ensures multiset(s)[p] <= 1
  {
    if s != [] {
      assert s == [s[0]] + s[1..];
      assert multiset(s) == multiset{s[0]} + multiset(s[1..]);
      if s[0] == p {
        assert p !in s[1..];
      } else {
        OnceInside(s[1..], p);
      }
    }
  }

  lemma SortedIsList0(s: seq<Picture>, k: nat, poc: int)
    requires TwoSided(s, k, poc, false, true, false, true) && DistinctPoc(s)
    ensures IsRefPicList0(s, multiset(s), poc)
  {
    StrictParts(s, k);
    assert PastNearestFirst(s[..k], poc) && FutureNearestFirst(s[k..], poc);
  }

  lemma SortedIsList1(s: seq<Picture>, k: nat, poc: int)
    requires TwoSided(s, k, poc, false, false, true, false) && DistinctPoc(s)
    ensures IsRefPicList1(s, multiset(s), poc)
  {
    StrictParts(s, k);
    assert FutureNearestFirst(s[..k], poc) && PastNearestFirst(s[k..], poc);
  }

  lemma StrictParts(s: seq<Picture>, k: nat)
    requires k <= |s| && DistinctPoc(s)
    ensures DistinctPoc(s[..k]) && DistinctPoc(s[k..])
  {
  }

  /** The branch FRAME_B for one list: a copy of the references, then sort_two around the POC. */
  method SortAroundPoc(list: array<Picture>, references: array<Picture>, numShortTerm: nat, poc: int, pastFirst: bool)
    requires list != references && 0 < numShortTerm <= references.Length && numShortTerm <= list.Length
    requires Straddles(references[..numShortTerm], poc, false) && DistinctPoc(references[..numShortTerm])
    modifies list
    ensures list[numShortTerm..] == old(list[numShortTerm..])
    ensures pastFirst ==> IsRefPicList0(list[..numShortTerm], multiset(references[..numShortTerm]), poc)
    ensures !pastFirst ==> IsRefPicList1(list[..numShortTerm], multiset(references[..numShortTerm]), poc)
  {
    CopyPictures(list, references, numShortTerm);
    ghost var copied := list[..];
    assert copied[0..numShortTerm - 1 + 1] == references[..numShortTerm];
    ghost var k := SortTwo(list, 0, numShortTerm - 1, poc, false, pastFirst, !pastFirst, pastFirst);
    assert list[..][0..numShortTerm - 1 + 1] == list[..numShortTerm];
    assert multiset(list[..numShortTerm]) == multiset(references[..numShortTerm]);
    DistinctSurvives(list[..numShortTerm], references[..numShortTerm]);
    if pastFirst {
      SortedIsList0(list[..numShortTerm], k, poc);
    } else {
      SortedIsList1(list[..numShortTerm], k, poc);
    }
    assert list[..][numShortTerm..] == copied[numShortTerm..];
  }

  /** The branch FRAME_P: a copy of the references, then sort_one by descending frame_idx. */
  method SortByFrameIdx(list: array<Picture>, references: array<Picture>, numShortTerm: nat)
    requires list != references && numShortTerm <= references.Length && numShortTerm <= list.Length && 0 < list.Length
    modifies list
    ensures list[numShortTerm..] == old(list[numShortTerm..])
    ensures multiset(list[..numShortTerm]) == multiset(references[..numShortTerm])
    ensures Ordered(list[..numShortTerm], true, false)
    ensures forall i, j :: 0 <= i < j < numShortTerm ==> list[i].frameIdx >= list[j].frameIdx
    ensures StrictlyOrdered(references[..numShortTerm], true, false) ==> list[..numShortTerm] == references[..numShortTerm]
  {
    CopyPictures(list, references, numShortTerm);
    ghost var copied := list[..];
    assert copied[0..numShortTerm - 1 + 1] == references[..numShortTerm];
    SortOne(list, 0, numShortTerm - 1, false, true);
    assert list[..][0..numShortTerm - 1 + 1] == list[..numShortTerm];
    assert list[..][numShortTerm..] == copied[numShortTerm..];
    SortKeepsStrict(list[..numShortTerm], references[..numShortTerm]);
    OrderedByFrameIdx(list[..numShortTerm]);
  }

  lemma OrderedByFrameIdx(s: seq<Picture>)
    requires Ordered(s, true, false)
    ensures forall i, j :: 0 <= i < j < |s| ==> s[i].frameIdx >= s[j].frameIdx
  {
    forall i, j | 0 <= i < j < |s| ensures s[i].frameIdx >= s[j].frameIdx {
      assert !Before(KeyOf(s[j], true), KeyOf(s[i], true), false);
    }
  }

  /** Sorting what is strictly ordered already is the identity. */
  lemma SortKeepsStrict(sorted: seq<Picture>, s: seq<Picture>)
    requires multiset(sorted) == multiset(s) && Ordered(sorted, true, false)
    ensures StrictlyOrdered(s, true, false) ==> sorted == s
  {
    if StrictlyOrdered(s, true, false) {
      StrictSurvives(sorted, s);
      StrictOrderIsUnique(sorted, s, true, false);
    }
  }

  /** An ordered permutation of a strictly ordered list is strictly ordered. */
  lemma StrictSurvives(a: seq<Picture>, b: seq<Picture>)
    requires multiset(a) == multiset(b) && StrictlyOrdered(b, true, false) && Ordered(a, true, false)
    ensures StrictlyOrdered(a, true, false)
  {
    forall i, j | 0 <= i < j < |a| ensures a[i].frameIdx != a[j].frameIdx {
      assert a[i] in multiset(a) && a[j] in multiset(a);
      assert a[i] in multiset(b) && a[j] in multiset(b);
      if a[i] == a[j] {
        TwiceInside(a, i, j);
        OnceInOrder(b, a[i]);
      } else {
        var m :| 0 <= m < |b| && b[m] == a[i];
        var n :| 0 <= n < |b| && b[n] == a[j];
        assert m < n || n < m;
      }
    }
  }

  lemma {:induction false} OnceInOrder(s: seq<Picture>, p: Picture)
    requires StrictlyOrdered(s, true, false)
    ensures multiset(s)[p] <= 1
  {
    if s != [] {
      assert s == [s[0]] + s[1..];
      assert multiset(s) == multiset{s[0]} + multiset(s[1..]);
      if s[0] == p {
        assert p !in s[1..];
      } else {
        OnceInOrder(s[1..], p);
      }
    }
  }
}
