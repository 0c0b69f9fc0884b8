/** Selection sort for short ranges, and a quicksort whose inner scans carry no bounds checks. */
module Sorting {

  /** A strict weak order: what the comparators of the solver are. */
  ghost predicate StrictWeak<T(!new)>(lt: (T, T) -> bool) {
    && (forall x :: !lt(x, x))
    && (forall x, y :: lt(x, y) ==> !lt(y, x))
    && (forall x, y, z :: !lt(x, y) && !lt(y, z) ==> !lt(x, z))
  }

  lemma Irreflexive<T(!new)>(x: T, lt: (T, T) -> bool)
    requires StrictWeak(lt)
    ensures !lt(x, x)
  {
  }

  ghost predicate Sorted<T>(s: seq<T>, lt: (T, T) -> bool) {
    forall i, j :: 0 <= i < j < |s| ==> !lt(s[j], s[i])
  }

  ghost predicate AllAtMost<T>(s: seq<T>, pivot: T, lt: (T, T) -> bool) {
    forall i :: 0 <= i < |s| ==> !lt(pivot, s[i])
  }

  ghost predicate AllAtLeast<T>(s: seq<T>, pivot: T, lt: (T, T) -> bool) {
    forall i :: 0 <= i < |s| ==> !lt(s[i], pivot)
  }

  /** Rearranged within lo..hi only. */
  ghost predicate Rearranged<T>(before: seq<T>, after: seq<T>, lo: nat, hi: nat) {
    && lo <= hi <= |before| == |after|
    && before[..lo] == after[..lo] && before[hi..] == after[hi..]
    && multiset(before[lo..hi]) == multiset(after[lo..hi])
  }

  lemma RearrangedRefl<T>(a: seq<T>, lo: nat, hi: nat)
    requires lo <= hi <= |a|
    ensures Rearranged(a, a, lo, hi)
  {
  }

  lemma RearrangedTrans<T>(a: seq<T>, b: seq<T>, c: seq<T>, lo: nat, hi: nat)
    requires Rearranged(a, b, lo, hi) && Rearranged(b, c, lo, hi)
    ensures Rearranged(a, c, lo, hi)
  {
  }

  /** Rearranging a part of a range rearranges the range. */
  lemma RearrangedWithin<T>(a: seq<T>, b: seq<T>, lo: nat, i: nat, j: nat, hi: nat)
    requires Rearranged(a, b, i, j) && lo <= i && j <= hi <= |a|
    ensures Rearranged(a, b, lo, hi)
  {
    assert a[lo..hi] == a[lo..i] + a[i..j] + a[j..hi];
    assert b[lo..hi] == b[lo..i] + b[i..j] + b[j..hi];
    assert a[lo..i] == a[..i][lo..] == b[..i][lo..] == b[lo..i];
    assert a[j..hi] == a[j..][..hi - j] == b[j..][..hi - j] == b[j..hi];
    assert a[..lo] == a[..i][..lo] == b[..i][..lo] == b[..lo];
    assert a[hi..] == a[j..][hi - j..] == b[j..][hi - j..] == b[hi..];
  }

  lemma SwapRearranges<T>(a: seq<T>, i: nat, j: nat, lo: nat, hi: nat)
    requires lo <= i < hi <= |a| && lo <= j < hi
    ensures Rearranged(a, a[i := a[j]][j := a[i]], lo, hi)
  {
    var b := a[i := a[j]][j := a[i]];
    assert b[lo..hi] == a[lo..hi][i - lo := a[lo..hi][j - lo]][j - lo := a[lo..hi][i - lo]];
  }

  /** A bound on all elements survives rearrangement. */
  lemma BoundsKept<T>(s: seq<T>, s': seq<T>, pivot: T, lt: (T, T) -> bool)
    requires multiset(s) == multiset(s')
    ensures AllAtMost(s, pivot, lt) ==> AllAtMost(s', pivot, lt)
    ensures AllAtLeast(s, pivot, lt) ==> AllAtLeast(s', pivot, lt)
  {
    forall i | 0 <= i < |s'|
      ensures s'[i] in s
    {
      assert s'[i] in multiset(s');
    }
  }

  lemma SortedConcat<T(!new)>(a: seq<T>, b: seq<T>, pivot: T, lt: (T, T) -> bool)
    requires StrictWeak(lt) && Sorted(a, lt) && Sorted(b, lt) && AllAtMost(a, pivot, lt) && AllAtLeast(b, pivot, lt)
    ensures Sorted(a + b, lt)
  {
  }

  method SwapAt<T>(a: array<T>, i: nat, j: nat, ghost before: seq<T>, ghost lo: nat, ghost hi: nat)
    requires lo <= i < hi <= a.Length && lo <= j < hi && Rearranged(before, a[..], lo, hi)
    modifies a
    ensures a[i] == old(a[j]) && a[j] == old(a[i]) && Rearranged(before, a[..], lo, hi)
    ensures forall k :: 0 <= k < a.Length && k != i && k != j ==> a[k] == old(a[k])
  {
    SwapRearranges(a[..], i, j, lo, hi);
    var tmp := a[i];
    a[i] := a[j];
    a[j] := tmp;
    RearrangedTrans(before, old(a[..]), a[..], lo, hi);
  }

  /** The first of the least elements from i on. */
  method Least<T(!new)>(a: array<T>, i: nat, hi: nat, lt: (T, T) -> bool) returns (best: nat)
    requires i < hi <= a.Length && StrictWeak(lt)
    ensures i <= best < hi && forall y :: i <= y < hi ==> !lt(a[y], a[best])
  {
    best := i;
    var j := i + 1;
    while j < hi
      invariant i <= best < hi && i < j <= hi
      invariant forall y :: i <= y < j ==> !lt(a[y], a[best])
    {
      if lt(a[j], a[best]) {
        best := j;
      }
      j := j + 1;
    }
  }

  method SelectionSort<T(!new)>(a: array<T>, lo: nat, hi: nat, lt: (T, T) -> bool)
    requires lo <= hi <= a.Length && StrictWeak(lt)
    modifies a
    ensures Rearranged(old(a[..]), a[..], lo, hi) && Sorted(a[lo..hi], lt)
  {
    hide Rearranged;
    RearrangedRefl(a[..], lo, hi);
    var i := lo;
    while i < hi - 1
      invariant lo <= i && (lo < hi ==> i < hi) && Rearranged(old(a[..]), a[..], lo, hi)
      invariant forall x, y :: lo <= x < i && x < y < hi ==> !lt(a[y], a[x])
    {
      var best := Least(a, i, hi, lt);
      SwapAt(a, i, best, old(a[..]), lo, hi);
      i := i + 1;
    }
  }

  /** Scans upwards while below the pivot; the element at stop ends the scan. */
  method ScanUp<T(!new)>(a: array<T>, from: nat, ghost stop: nat, p: T, lt: (T, T) -> bool) returns (up: nat)
    requires from <= stop < a.Length && !lt(a[stop], p) && StrictWeak(lt)
    ensures from <= up <= stop && !lt(a[up], p) && forall k :: from <= k < up ==> !lt(p, a[k])
  {
    up := from;
    while lt(a[up], p)
      invariant from <= up <= stop && forall k :: from <= k < up ==> lt(a[k], p)
      decreases stop - up
    {
      up := up + 1;
    }
  }

  /** Scans downwards while above the pivot; the element at stop ends the scan. */
  method ScanDown<T(!new)>(a: array<T>, from: nat, ghost stop: nat, p: T, lt: (T, T) -> bool) returns (down: nat)
    requires stop <= from < a.Length && !lt(p, a[stop]) && StrictWeak(lt)
    ensures stop <= down <= from && !lt(p, a[down]) && forall k :: down < k <= from ==> !lt(a[k], p)
  {
    down := from;
    while lt(p, a[down])
      invariant stop <= down <= from && forall k :: down < k <= from ==> lt(p, a[k])
      decreases down
    {
      down := down - 1;
    }
  }

  /** Splits lo..hi around a pivot. The scans of the two inner loops stop by themselves: upwards at an element
      not below the pivot, downwards at one not above it. Both parts are non-empty. */
  method Partition<T(!new)>(a: array<T>, lo: nat, hi: nat, lt: (T, T) -> bool) returns (i: nat, ghost pivot: T)
    requires lo + 1 < hi <= a.Length && StrictWeak(lt)
    modifies a
    ensures lo < i < hi && Rearranged(old(a[..]), a[..], lo, hi)
    ensures AllAtMost(a[lo..i], pivot, lt) && AllAtLeast(a[i..hi], pivot, lt)
  {
    hide Rearranged, StrictWeak;
    RearrangedRefl(a[..], lo, hi);
    Irreflexive(a[lo + (hi - lo) / 2], lt);
    var p := a[lo + (hi - lo) / 2];
    pivot := p;
    var up: int, down: int := lo - 1, hi;
    ghost var stopUp, stopDown := lo + (hi - lo) / 2, lo + (hi - lo) / 2;
    while true
      invariant lo - 1 <= up < down <= hi && Rearranged(old(a[..]), a[..], lo, hi)
      invariant forall k :: lo <= k <= up ==> !lt(p, a[k])
      invariant forall k :: down <= k < hi ==> !lt(a[k], p)
      invariant up < stopUp < hi && !lt(a[stopUp], p)
      invariant lo <= stopDown < down && !lt(p, a[stopDown])
      invariant up == lo - 1 ==> stopDown > lo
      decreases down - up
    {
      up := ScanUp(a, up + 1, stopUp, p, lt);
      down := ScanDown(a, down - 1, stopDown, p, lt);
      if up >= down {
        break;
      }
      SwapAt(a, up, down, old(a[..]), lo, hi);
      stopUp, stopDown := down, up;
    }
    i := up;
  }

  method Sort<T(!new)>(a: array<T>, lo: nat, hi: nat, lt: (T, T) -> bool)
    requires lo <= hi <= a.Length && StrictWeak(lt)
    modifies a
    ensures Rearranged(old(a[..]), a[..], lo, hi) && Sorted(a[lo..hi], lt)
    decreases hi - lo
  {
    if hi - lo <= 15 {
      SelectionSort(a, lo, hi, lt);
    } else {
      var i, pivot := Partition(a, lo, hi, lt);
      ghost var s0 := a[..];
      Sort(a, lo, i, lt);
      ghost var s1 := a[..];
      Sort(a, i, hi, lt);
      ghost var s2 := a[..];
      Joined(s0, s1, s2, lo, i, hi, pivot, lt);
      RearrangedTrans(old(a[..]), s0, s2, lo, hi);
    }
  }

  /** Sorting the two parts of a partition sorts the whole. */
  lemma Joined<T(!new)>(s0: seq<T>, s1: seq<T>, s2: seq<T>, lo: nat, i: nat, hi: nat, pivot: T, lt: (T, T) -> bool)
    requires lo <= i <= hi <= |s0| && StrictWeak(lt)
    requires Rearranged(s0, s1, lo, i) && Rearranged(s1, s2, i, hi)
    requires Sorted(s1[lo..i], lt) && Sorted(s2[i..hi], lt)
    requires AllAtMost(s0[lo..i], pivot, lt) && AllAtLeast(s0[i..hi], pivot, lt)
    ensures Rearranged(s0, s2, lo, hi) && Sorted(s2[lo..hi], lt)
  {
    RearrangedWithin(s0, s1, lo, lo, i, hi);
    RearrangedWithin(s1, s2, lo, i, hi, hi);
    RearrangedTrans(s0, s1, s2, lo, hi);
    assert s2[lo..i] == s2[..i][lo..] == s1[..i][lo..] == s1[lo..i];
    assert s1[i..hi] == s1[i..][..hi - i] == s0[i..][..hi - i] == s0[i..hi];
    BoundsKept(s0[lo..i], s1[lo..i], pivot, lt);
    BoundsKept(s1[i..hi], s2[i..hi], pivot, lt);
    SortedConcat(s2[lo..i], s2[i..hi], pivot, lt);
    assert s2[lo..hi] == s2[lo..i] + s2[i..hi];
  }
}
