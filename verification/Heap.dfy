/** A binary heap whose keys know their positions. */
module Heaps {
  import opened Sorting

  function Left(i: nat): nat {
    2 * i + 1
  }

  function Right(i: nat): nat {
    2 * (i + 1)
  }

  function Parent(i: nat): nat
    requires i > 0
  {
    (i - 1) / 2
  }

  // ---------- Heap order ----------

  predicate EdgeOk(h: seq<nat>, lt: (nat, nat) -> bool, j: nat)
    requires 0 < j < |h|
  {
    !lt(h[j], h[Parent(j)])
  }

  /** No key at or below the children of position lo is less than its parent. */
  ghost predicate OrderedFrom(h: seq<nat>, lt: (nat, nat) -> bool, lo: nat) {
    forall j :: 0 < j < |h| && Parent(j) >= lo ==> EdgeOk(h, lt, j)
  }

  ghost predicate Ordered(h: seq<nat>, lt: (nat, nat) -> bool) {
    OrderedFrom(h, lt, 0)
  }

  /** Heap order holds from lo on but for the key at position i. */
  ghost predicate BrokenAt(h: seq<nat>, lt: (nat, nat) -> bool, lo: nat, i: nat) {
    && lo <= i < |h|
    && (forall j :: 0 < j < |h| && Parent(j) >= lo && j != i && Parent(j) != i ==> EdgeOk(h, lt, j))
    && (i > 0 && Parent(i) >= lo ==> forall j :: 0 < j < |h| && Parent(j) == i ==> !lt(h[j], h[Parent(i)]))
  }

  ghost predicate UpOk(h: seq<nat>, lt: (nat, nat) -> bool, lo: nat, i: nat) {
    0 < i < |h| && Parent(i) >= lo ==> EdgeOk(h, lt, i)
  }

  ghost predicate DownOk(h: seq<nat>, lt: (nat, nat) -> bool, i: nat) {
    forall j :: 0 < j < |h| && Parent(j) == i ==> EdgeOk(h, lt, j)
  }

  lemma BrokenInside(h: seq<nat>, lt: (nat, nat) -> bool, lo: nat, i: nat)
    requires BrokenAt(h, lt, lo, i)
    ensures lo <= i < |h|
  {
  }

  lemma StillDown(h: seq<nat>, lt: (nat, nat) -> bool, i: nat, c: nat)
    requires i < |h| && 0 < c < |h| && Parent(c) == i && lt(h[c], h[i])
    ensures !DownOk(h, lt, i)
  {
    assert !EdgeOk(h, lt, c);
  }

  lemma UpDone(h: seq<nat>, lt: (nat, nat) -> bool, i: nat)
    requires i < |h| && (i == 0 || !lt(h[i], h[Parent(i)]))
    ensures UpOk(h, lt, 0, i)
  {
  }

  lemma Mended(h: seq<nat>, lt: (nat, nat) -> bool, lo: nat, i: nat)
    requires lo <= i < |h|
    ensures BrokenAt(h, lt, lo, i) && UpOk(h, lt, lo, i) && DownOk(h, lt, i) ==> OrderedFrom(h, lt, lo)
  {
  }

  lemma Breakable(h: seq<nat>, lt: (nat, nat) -> bool, lo: nat, i: nat)
    requires OrderedFrom(h, lt, lo) && lo <= i < |h| && StrictWeak(lt)
    ensures BrokenAt(h, lt, lo, i) && UpOk(h, lt, lo, i) && DownOk(h, lt, i)
  {
    forall j | i > 0 && Parent(i) >= lo && 0 < j < |h| && Parent(j) == i
      ensures !lt(h[j], h[Parent(i)])
    {
      assert EdgeOk(h, lt, j) && EdgeOk(h, lt, i);
    }
  }

  /** The root is a least key. */
  lemma {:induction false} RootLeast(h: seq<nat>, lt: (nat, nat) -> bool, j: nat)
    requires Ordered(h, lt) && StrictWeak(lt) && j < |h|
    ensures !lt(h[j], h[0])
  {
    if j > 0 {
      RootLeast(h, lt, Parent(j));
      assert EdgeOk(h, lt, j);
    }
  }

  function Exchange(h: seq<nat>, i: nat, j: nat): (r: seq<nat>)
    requires i < |h| && j < |h|
    ensures |r| == |h| && r[i] == h[j] && r[j] == h[i] && forall k :: 0 <= k < |h| && k != i && k != j ==> r[k] == h[k]
    ensures multiset(r) == multiset(h)
  {
    h[i := h[j]][j := h[i]]
  }

  /** Moving the key at i above its parent. */
  lemma UpStep(h: seq<nat>, lt: (nat, nat) -> bool, i: nat)
    requires BrokenAt(h, lt, 0, i) && StrictWeak(lt) && i > 0 && lt(h[i], h[Parent(i)])
    ensures BrokenAt(Exchange(h, i, Parent(i)), lt, 0, Parent(i)) && DownOk(Exchange(h, i, Parent(i)), lt, Parent(i))
  {
    var p := Parent(i);
    var h' := Exchange(h, i, p);
    forall j | 0 < j < |h'| && j != p
      ensures EdgeOk(h', lt, j)
      ensures p > 0 && Parent(j) == p ==> !lt(h'[j], h'[Parent(p)])
    {
      if j != i && Parent(j) != i {
        assert EdgeOk(h, lt, j);
      }
      if p > 0 {
        assert EdgeOk(h, lt, p);
      }
    }
  }

  /** Moving the key at i below its lesser child c. */
  lemma DownStep(h: seq<nat>, lt: (nat, nat) -> bool, lo: nat, i: nat, c: nat)
    requires BrokenAt(h, lt, lo, i) && StrictWeak(lt) && 0 < c < |h| && Parent(c) == i && lt(h[c], h[i])
    requires forall j :: 0 < j < |h| && Parent(j) == i ==> !lt(h[j], h[c])
    ensures BrokenAt(Exchange(h, i, c), lt, lo, c) && UpOk(Exchange(h, i, c), lt, lo, c)
  {
    var h' := Exchange(h, i, c);
    forall j | 0 < j < |h'| && Parent(j) >= lo && j != c && Parent(j) != c
      ensures EdgeOk(h', lt, j)
    {
      if j != i && Parent(j) != i {
        assert EdgeOk(h, lt, j);
      }
    }
    forall j | 0 < j < |h'| && Parent(j) == c
      ensures !lt(h'[j], h'[i])
    {
      assert EdgeOk(h, lt, j);
    }
  }

  /** The same keys, in some order. */
  ghost predicate SameKeys(h: seq<nat>, h': seq<nat>) {
    |h| == |h'| && multiset(h) == multiset(h')
  }

  lemma KeysRefl(h: seq<nat>)
    ensures SameKeys(h, h)
  {
  }

  lemma SameKeysExchange(h0: seq<nat>, h: seq<nat>, i: nat, j: nat)
    requires SameKeys(h0, h) && i < |h| && j < |h|
    ensures SameKeys(h0, Exchange(h, i, j))
  {
  }

  /** The key at position i0 of h0 has gone up to position i of h, which may still be wrong below i only if it has not
      moved. */
  ghost predicate Risen(h0: seq<nat>, h: seq<nat>, lt: (nat, nat) -> bool, i0: nat, i: int) {
    && i0 < |h0| == |h| && 0 <= i < |h| && h[i] == h0[i0]
    && BrokenAt(h, lt, 0, i) && UpOk(h, lt, 0, i)
    && (i != i0 || DownOk(h0, lt, i0) ==> Ordered(h, lt))
    && (i == i0 ==> h == h0)
  }

  /** The array with a hole at i, to be filled with x, after the hole has moved to j. */
  lemma HoleStep(a: seq<nat>, h: seq<nat>, i: nat, j: nat, x: nat)
    requires i < |a| && j < |a| && i != j && a[i := x] == h
    ensures a[i := a[j]][j := x] == Exchange(h, i, j) && a[j] == h[j]
  {
  }

  // ---------- Positions ----------

  /** Each key's index is its position; absent keys have index -1. */
  ghost predicate Inverse(h: seq<nat>, idx: seq<int>) {
    && (forall j :: 0 <= j < |h| ==> h[j] < |idx| && idx[h[j]] == j)
    && (forall k :: 0 <= k < |idx| ==> idx[k] == -1 || (0 <= idx[k] < |h| && h[idx[k]] == k))
  }

  /** As Inverse, but for the key at position i. */
  ghost predicate InverseBut(h: seq<nat>, idx: seq<int>, i: nat) {
    && i < |h| && h[i] < |idx|
    && (forall j :: 0 <= j < |h| && j != i ==> h[j] < |idx| && h[j] != h[i] && idx[h[j]] == j)
    && (forall k :: 0 <= k < |idx| && k != h[i] ==> idx[k] == -1 || (0 <= idx[k] < |h| && h[idx[k]] == k))
  }

  lemma HoleInside(h: seq<nat>, idx: seq<int>, i: nat)
    requires InverseBut(h, idx, i)
    ensures i < |h| && forall j :: 0 <= j < |h| ==> h[j] < |idx|
  {
  }

  lemma Settle(h: seq<nat>, idx: seq<int>, i: nat)
    requires InverseBut(h, idx, i)
    ensures Inverse(h, idx[h[i] := i])
  {
  }

  lemma Unsettle(h: seq<nat>, idx: seq<int>, i: nat)
    requires Inverse(h, idx) && i < |h|
    ensures InverseBut(h, idx, i)
  {
  }

  lemma MoveHole(h: seq<nat>, idx: seq<int>, i: nat, j: nat)
    requires InverseBut(h, idx, i) && j < |h| && i != j
    ensures InverseBut(Exchange(h, i, j), idx[h[j] := i], j)
  {
  }

  // ---------- Changed keys ----------

  /** The two orders agree on all keys but k. */
  ghost predicate OthersAgree(lt0: (nat, nat) -> bool, lt: (nat, nat) -> bool, k: nat) {
    forall a, b :: a != k && b != k ==> lt(a, b) == lt0(a, b)
  }

  /** k has become less. */
  ghost predicate Lowered(lt0: (nat, nat) -> bool, lt: (nat, nat) -> bool, k: nat) {
    OthersAgree(lt0, lt, k) && forall a :: a != k && lt(a, k) ==> lt0(a, k)
  }

  /** k has become greater. */
  ghost predicate Raised(lt0: (nat, nat) -> bool, lt: (nat, nat) -> bool, k: nat) {
    OthersAgree(lt0, lt, k) && forall a :: a != k && lt(k, a) ==> lt0(k, a)
  }

  /** Heap order is lost at most around the key that has changed; a lesser key is fine with its children, a greater
      one with its parent. */
  lemma Rekeyed(h: seq<nat>, idx: seq<int>, lt0: (nat, nat) -> bool, lt: (nat, nat) -> bool, k: nat)
    requires Inverse(h, idx) && k < |idx| && idx[k] >= 0 && Ordered(h, lt0) && StrictWeak(lt0)
    requires OthersAgree(lt0, lt, k)
    ensures BrokenAt(h, lt, 0, idx[k])
    ensures Lowered(lt0, lt, k) ==> DownOk(h, lt, idx[k])
    ensures Raised(lt0, lt, k) ==> UpOk(h, lt, 0, idx[k])
  {
    var i := idx[k];
    assert forall j :: 0 <= j < |h| && j != i ==> h[j] != k;
    Breakable(h, lt0, 0, i);
    forall j | 0 < j < |h| && j != i && Parent(j) != i
      ensures EdgeOk(h, lt, j)
    {
      assert EdgeOk(h, lt0, j);
    }
  }

  lemma StillOrdered(h: seq<nat>, lt0: (nat, nat) -> bool, lt: (nat, nat) -> bool, k: nat)
    requires Ordered(h, lt0) && OthersAgree(lt0, lt, k) && k !in h
    ensures Ordered(h, lt)
  {
    forall j | 0 < j < |h|
      ensures EdgeOk(h, lt, j)
    {
      assert EdgeOk(h, lt0, j);
    }
  }

  lemma Appended(h: seq<nat>, lt: (nat, nat) -> bool, k: nat)
    requires Ordered(h, lt)
    ensures BrokenAt(h + [k], lt, 0, |h|) && DownOk(h + [k], lt, |h|)
  {
    forall j | 0 < j < |h|
      ensures EdgeOk(h + [k], lt, j)
    {
      assert EdgeOk(h, lt, j);
    }
  }

  /** The last key takes the place of the one at position p. */
  function TakenOut(h: seq<nat>, p: nat): seq<nat>
    requires p < |h|
  {
    h[p := h[|h| - 1]][..|h| - 1]
  }

  lemma LastMoved(h: seq<nat>, p: nat)
    requires p < |h|
    ensures multiset(h) == multiset(TakenOut(h, p)) + multiset{h[p]}
  {
    var last := |h| - 1;
    assert h == h[..p] + [h[p]] + h[p + 1..];
    if p < last {
      assert h[p + 1..] == h[p + 1..last] + [h[last]];
      assert TakenOut(h, p) == h[..p] + [h[last]] + h[p + 1..last];
    } else {
      assert TakenOut(h, p) == h[..p];
    }
  }

  /** The key that takes the place of the one at position p is not less than its new parent. */
  predicate RemovesCleanly(h: seq<nat>, lt: (nat, nat) -> bool, p: nat)
    requires p < |h|
  {
    p == |h| - 1 || p == 0 || !lt(h[|h| - 1], h[Parent(p)])
  }

  lemma TakenOutBroken(h: seq<nat>, lt: (nat, nat) -> bool, p: nat)
    requires Ordered(h, lt) && StrictWeak(lt) && p < |h|
    ensures p < |h| - 1 ==> BrokenAt(TakenOut(h, p), lt, 0, p)
    ensures p < |h| - 1 && RemovesCleanly(h, lt, p) ==> UpOk(TakenOut(h, p), lt, 0, p)
    ensures p == |h| - 1 ==> Ordered(TakenOut(h, p), lt)
  {
    var h' := TakenOut(h, p);
    Breakable(h, lt, 0, p);
    forall j | 0 < j < |h'| && j != p && Parent(j) != p
      ensures EdgeOk(h', lt, j)
    {
      assert EdgeOk(h, lt, j);
    }
  }

  /** A key less than its new parent stays where it was put. */
  lemma TakenOutStuck(h: seq<nat>, lt: (nat, nat) -> bool, p: nat)
    requires Ordered(h, lt) && StrictWeak(lt) && p < |h| && !RemovesCleanly(h, lt, p)
    ensures DownOk(TakenOut(h, p), lt, p) && !Ordered(TakenOut(h, p), lt)
  {
    var h' := TakenOut(h, p);
    Breakable(h, lt, 0, p);
    forall j | 0 < j < |h'| && Parent(j) == p
      ensures EdgeOk(h', lt, j)
    {
      assert !lt(h[j], h[Parent(p)]);
    }
    assert !EdgeOk(h', lt, p);
  }

  lemma TakenOutParts(h: seq<nat>, p: nat)
    requires p < |h|
    ensures TakenOut(h, p) == h[p := h[|h| - 1]][..|h| - 1]
    ensures p == |h| - 1 ==> TakenOut(h, p) == h[..|h| - 1] && forall lt :: RemovesCleanly(h, lt, p)
  {
  }

  lemma RootUp(h: seq<nat>, lt: (nat, nat) -> bool)
    ensures UpOk(h, lt, 0, 0)
  {
  }

  lemma Inside(h: seq<nat>, idx: seq<int>)
    requires Inverse(h, idx)
    ensures forall j :: 0 <= j < |h| ==> h[j] < |idx|
  {
  }

  lemma KeyAt(h: seq<nat>, idx: seq<int>, k: nat)
    requires Inverse(h, idx) && k < |idx| && idx[k] >= 0
    ensures idx[k] < |h| && h[idx[k]] == k
  {
  }

  /** A key that has been taken out is gone. */
  lemma TakenOutGone(h: seq<nat>, idx: seq<int>, p: nat)
    requires Inverse(h, idx) && p < |h|
    ensures h[p] !in TakenOut(h, p)
  {
  }

  lemma KeysMember(h: seq<nat>, h': seq<nat>, x: nat)
    requires SameKeys(h, h') && x !in h
    ensures x !in h'
  {
    assert x in h' ==> multiset(h')[x] > 0;
  }

  lemma TakenOutInverse(h: seq<nat>, idx: seq<int>, p: nat)
    requires Inverse(h, idx) && p < |h|
    ensures p < |h| - 1 ==> Inverse(TakenOut(h, p), idx[h[p] := -1][h[|h| - 1] := p])
    ensures p == |h| - 1 ==> Inverse(TakenOut(h, p), idx[h[p] := -1])
    ensures Inverse(TakenOut(h, p), idx[h[|h| - 1] := p][h[p] := -1])
  {
  }

  lemma Small(h: seq<nat>, lt: (nat, nat) -> bool)
    requires |h| <= 1
    ensures Ordered(h, lt)
  {
  }

  lemma AllAbove(h: seq<nat>, lt: (nat, nat) -> bool)
    requires Ordered(h, lt) && StrictWeak(lt) && h != []
    ensures forall k :: k in h ==> !lt(k, h[0])
  {
    forall k | k in h
      ensures !lt(k, h[0])
    {
      var j :| 0 <= j < |h| && h[j] == k;
      RootLeast(h, lt, j);
    }
  }

  /** An ordered heap, the key 11 at position 3: the key 2 that replaces it is less than its parent, 10. */
  lemma RemoveExample()
    ensures var h: seq<nat>, lt := [0, 10, 1, 11, 12, 2], (a: nat, b: nat) => a < b;
            StrictWeak(lt) && Ordered(h, lt) && !RemovesCleanly(h, lt, 3) && !Ordered(TakenOut(h, 3), lt)
  {
    var h: seq<nat>, lt := [0, 10, 1, 11, 12, 2], (a: nat, b: nat) => a < b;
    assert !EdgeOk(TakenOut(h, 3), lt, 3);
  }

  class IndexedHeap {
    var heap: seq<nat>
    var indices: seq<int>

    constructor ()
      ensures Valid() && heap == []
    {
      heap, indices := [], [];
    }

    ghost predicate Valid()
      reads this
    {
      Inverse(heap, indices)
    }

    predicate InHeap(k: nat)
      reads this
    {
      k < |indices| && indices[k] >= 0
    }

    lemma InHeapExact(k: nat)
      requires Valid()
      ensures InHeap(k) <==> k in heap
    {
      if k in heap {
        var j :| 0 <= j < |heap| && heap[j] == k;
      }
    }

    /** Moves the key at position i up to where it is not less than its parent. */
    method PercolateUp(i0: nat, lt: (nat, nat) -> bool)
      requires Valid() && StrictWeak(lt) && BrokenAt(heap, lt, 0, i0)
      modifies this
      ensures Valid() && SameKeys(old(heap), heap) && |indices| == old(|indices|)
      ensures Risen(old(heap), heap, lt, i0, indices[old(heap)[i0]])
    {
      hide BrokenAt, UpOk, DownOk, OrderedFrom, Inverse, InverseBut, StrictWeak, SameKeys, Exchange, LeastChild;
      assert SameKeys(heap, heap) by {
        KeysRefl(heap);
      }
      BrokenInside(heap, lt, 0, i0);
      var i: nat, x: nat := i0, heap[i0];
      ghost var h := heap;
      Unsettle(h, indices, i);
      while i != 0 && lt(x, heap[Parent(i)])
        invariant i < |heap| == old(|heap|) && h == heap[i := x] && InverseBut(h, indices, i)
        invariant |indices| == old(|indices|) && SameKeys(old(heap), h) && BrokenAt(h, lt, 0, i)
        invariant i <= i0 && (i < i0 || old(DownOk(heap, lt, i0)) ==> DownOk(h, lt, i)) && (i == i0 ==> h == old(heap))
      {
        var p := Parent(i);
        HoleStep(heap, h, i, p, x);
        UpStep(h, lt, i);
        SameKeysExchange(old(heap), h, i, p);
        HoleInside(h, indices, i);
        MoveHole(h, indices, i, p);
        indices := indices[heap[p] := i];
        heap := heap[i := heap[p]];
        h := Exchange(h, i, p);
        i := p;
      }
      assert i > 0 ==> heap[Parent(i)] == h[Parent(i)];
      UpDone(h, lt, i);
      HoleInside(h, indices, i);
      Settle(h, indices, i);
      Mended(h, lt, 0, i);
      assert Risen(old(heap), h, lt, i0, i);
      heap := heap[i := x];
      indices := indices[x := i];
    }

    /** Moves the key at position i down to where none of its children is less. */
    method PercolateDown(i0: nat, lt: (nat, nat) -> bool, ghost lo: nat)
      requires Valid() && StrictWeak(lt) && BrokenAt(heap, lt, lo, i0)
      modifies this
      ensures Valid() && SameKeys(old(heap), heap) && |indices| == old(|indices|)
      ensures old(UpOk(heap, lt, lo, i0)) ==> OrderedFrom(heap, lt, lo)
      ensures old(DownOk(heap, lt, i0)) ==> heap == old(heap)
    {
      hide BrokenAt, UpOk, DownOk, OrderedFrom, Inverse, InverseBut, StrictWeak, SameKeys, Exchange, LeastChild;
      assert SameKeys(heap, heap) by {
        KeysRefl(heap);
      }
      BrokenInside(heap, lt, lo, i0);
      var i: nat, x: nat := i0, heap[i0];
      ghost var h := heap;
      Unsettle(h, indices, i);
      ghost var stuck := false;
      while Left(i) < |heap|
        invariant !stuck
        invariant i < |heap| == old(|heap|) && h == heap[i := x] && InverseBut(h, indices, i)
        invariant |indices| == old(|indices|) && SameKeys(old(heap), h)
        invariant BrokenAt(h, lt, lo, i) && (old(UpOk(heap, lt, lo, i0)) ==> UpOk(h, lt, lo, i))
        invariant old(DownOk(heap, lt, i0)) ==> i == i0 && h == old(heap)
        decreases |heap| - i
      {
        var child := LeastChild(heap, lt, i);
        SameChild(heap, h, lt, i);
        LesserChild(h, lt, i);
        if !lt(heap[child], x) {
          NoLesserChild(h, lt, i);
          stuck := true;
          break;
        }
        StillDown(h, lt, i, child);
        HoleStep(heap, h, i, child, x);
        DownStep(h, lt, lo, i, child);
        SameKeysExchange(old(heap), h, i, child);
        HoleInside(h, indices, i);
        MoveHole(h, indices, i, child);
        heap := heap[i := heap[child]];
        indices := indices[heap[i] := i];
        h := Exchange(h, i, child);
        i := child;
      }
      if !stuck {
        NoLesserChild(h, lt, i);
      }
      HoleInside(h, indices, i);
      Settle(h, indices, i);
      BrokenInside(h, lt, lo, i);
      Mended(h, lt, lo, i);
      heap := heap[i := x];
      indices := indices[x := i];
    }

    static function LeastChild(h: seq<nat>, lt: (nat, nat) -> bool, i: nat): nat
      requires Left(i) < |h|
    {
      if Right(i) < |h| && lt(h[Right(i)], h[Left(i)]) then Right(i) else Left(i)
    }

    static lemma SameChild(a: seq<nat>, h: seq<nat>, lt: (nat, nat) -> bool, i: nat)
      requires Left(i) < |a| == |h| && forall j :: 0 <= j < |a| && j != i ==> a[j] == h[j]
      ensures LeastChild(a, lt, i) == LeastChild(h, lt, i)
    {
    }

    static lemma LesserChild(h: seq<nat>, lt: (nat, nat) -> bool, i: nat)
      requires StrictWeak(lt) && Left(i) < |h|
      ensures 0 < LeastChild(h, lt, i) < |h| && Parent(LeastChild(h, lt, i)) == i
      ensures forall j :: 0 < j < |h| && Parent(j) == i ==> !lt(h[j], h[LeastChild(h, lt, i)])
    {
      forall j | 0 < j < |h| && Parent(j) == i
        ensures j == Left(i) || j == Right(i)
      {
      }
    }

    static lemma NoLesserChild(h: seq<nat>, lt: (nat, nat) -> bool, i: nat)
      requires StrictWeak(lt) && i < |h|
      requires Left(i) < |h| ==> !lt(h[LeastChild(h, lt, i)], h[i])
      ensures DownOk(h, lt, i)
    {
      if Left(i) < |h| {
        var c := LeastChild(h, lt, i);
        LesserChild(h, lt, i);
        forall j | 0 < j < |h| && Parent(j) == i
          ensures EdgeOk(h, lt, j)
        {
          assert !lt(h[j], h[c]) && !lt(h[c], h[i]);
        }
      }
    }

    // ---------- decrease, increase, update ----------

    /** The key k has become less. */
    method Decrease(k: nat, lt: (nat, nat) -> bool, ghost lt0: (nat, nat) -> bool)
      requires Valid() && InHeap(k) && StrictWeak(lt) && StrictWeak(lt0) && Ordered(heap, lt0) && Lowered(lt0, lt, k)
      modifies this
      ensures Valid() && Ordered(heap, lt) && SameKeys(old(heap), heap)
    {
      Rekeyed(heap, indices, lt0, lt, k);
      PercolateUp(indices[k], lt);
    }

    /** The key k has become greater. */
    method Increase(k: nat, lt: (nat, nat) -> bool, ghost lt0: (nat, nat) -> bool)
      requires Valid() && InHeap(k) && StrictWeak(lt) && StrictWeak(lt0) && Ordered(heap, lt0) && Raised(lt0, lt, k)
      modifies this
      ensures Valid() && Ordered(heap, lt) && SameKeys(old(heap), heap)
    {
      Rekeyed(heap, indices, lt0, lt, k);
      PercolateDown(indices[k], lt, 0);
    }

    /** The key k has changed in any way, or is new. */
    method Update(k: nat, lt: (nat, nat) -> bool, ghost lt0: (nat, nat) -> bool)
      requires Valid() && StrictWeak(lt) && StrictWeak(lt0) && Ordered(heap, lt0) && OthersAgree(lt0, lt, k)
      modifies this
      ensures Valid() && Ordered(heap, lt)
      ensures multiset(heap) == multiset(old(heap)) + if k in old(heap) then multiset{} else multiset{k}
    {
      InHeapExact(k);
      if !InHeap(k) {
        StillOrdered(heap, lt0, lt, k);
        Insert(k, lt);
      } else {
        Rekeyed(heap, indices, lt0, lt, k);
        ghost var i0 := indices[k];
        PercolateUp(indices[k], lt);
        ghost var i := indices[k];
        if i != i0 {
          Breakable(heap, lt, 0, i);
        }
        PercolateDown(indices[k], lt, 0);
      }
    }

    // ---------- insert, removeMin, remove, build ----------

    method Insert(k: nat, lt: (nat, nat) -> bool)
      requires Valid() && !InHeap(k) && StrictWeak(lt) && Ordered(heap, lt)
      modifies this
      ensures Valid() && Ordered(heap, lt) && multiset(heap) == multiset(old(heap)) + multiset{k}
    {
      InHeapExact(k);
      if k >= |indices| {
        indices := indices + seq(k + 1 - |indices|, _ => -1);
      }
      indices := indices[k := |heap|];
      heap := heap + [k];
      Appended(old(heap), lt, k);
      PercolateUp(indices[k], lt);
    }

    method RemoveMin(lt: (nat, nat) -> bool) returns (x: nat)
      requires Valid() && heap != [] && StrictWeak(lt) && Ordered(heap, lt)
      modifies this
      ensures Valid() && Ordered(heap, lt) && multiset(old(heap)) == multiset(heap) + multiset{x}
      ensures forall k :: k in old(heap) ==> !lt(k, x)
      ensures x !in heap && !InHeap(x)
    {
      hide OrderedFrom, Inverse, BrokenAt, UpOk, DownOk, StrictWeak, TakenOut;
      ghost var h0 := heap;
      AllAbove(heap, lt);
      Inside(heap, indices);
      TakenOutParts(h0, 0);
      x := heap[0];
      heap := heap[0 := heap[|heap| - 1]];
      indices := indices[heap[0] := 0];
      indices := indices[x := -1];
      heap := heap[..|heap| - 1];
      LastMoved(h0, 0);
      TakenOutInverse(h0, old(indices), 0);
      TakenOutBroken(h0, lt, 0);
      TakenOutGone(h0, old(indices), 0);
      if |heap| > 1 {
        RootUp(heap, lt);
        PercolateDown(0, lt, 0);
        KeysMember(TakenOut(h0, 0), heap, x);
      } else {
        Small(heap, lt);
      }
      InHeapExact(x);
    }

    /** Removes any key, but only sifts the key that takes its place down: the heap stays ordered exactly when that
        key is not less than its new parent. */
    method Remove(k: nat, lt: (nat, nat) -> bool)
      requires Valid() && InHeap(k) && StrictWeak(lt) && Ordered(heap, lt)
      modifies this
      ensures Valid() && multiset(old(heap)) == multiset(heap) + multiset{k} && !InHeap(k)
      ensures Ordered(heap, lt) <==> RemovesCleanly(old(heap), lt, old(indices)[k])
    {
      hide OrderedFrom, Inverse, BrokenAt, UpOk, DownOk, StrictWeak, TakenOut, RemovesCleanly;
      ghost var h0 := heap;
      var kPos := indices[k];
      Inside(heap, indices);
      KeyAt(heap, indices, k);
      TakenOutGone(heap, indices, kPos);
      TakenOutParts(h0, kPos);
      indices := indices[k := -1];
      LastMoved(h0, kPos);
      TakenOutInverse(h0, old(indices), kPos);
      if kPos < |heap| - 1 {
        heap := heap[kPos := heap[|heap| - 1]];
        indices := indices[heap[kPos] := kPos];
        heap := heap[..|heap| - 1];
        TakenOutBroken(h0, lt, kPos);
        if !RemovesCleanly(h0, lt, kPos) {
          TakenOutStuck(h0, lt, kPos);
        }
        PercolateDown(kPos, lt, 0);
        KeysMember(TakenOut(h0, kPos), heap, k);
      } else {
        heap := heap[..|heap| - 1];
        TakenOutBroken(h0, lt, kPos);
      }
      InHeapExact(k);
    }

    /** Starts over with the given keys. */
    method Build(ns: seq<nat>, lt: (nat, nat) -> bool)
      requires Valid() && StrictWeak(lt) && (forall i :: 0 <= i < |ns| ==> ns[i] < |indices|)
      requires forall i, j :: 0 <= i < j < |ns| ==> ns[i] != ns[j]
      modifies this
      ensures Valid() && Ordered(heap, lt) && multiset(heap) == multiset(ns)
    {
      Clear();
      Fill(ns);
      var i := |heap| / 2 - 1;
      Leaves(heap, lt);
      while i >= 0
        invariant -1 <= i && Valid() && |heap| == |ns| && SameKeys(ns, heap) && i < |heap|
        invariant OrderedFrom(heap, lt, i + 1)
      {
        OneMore(heap, lt, i);
        PercolateDown(i, lt, i);
        i := i - 1;
      }
    }

    method Clear()
      requires Valid()
      modifies this
      ensures Valid() && heap == [] && |indices| == old(|indices|)
    {
      var i := 0;
      while i < |heap|
        invariant 0 <= i <= |heap| && heap == old(heap) && |indices| == old(|indices|)
        invariant forall j :: 0 <= j < |heap| ==> heap[j] < |indices| && indices[heap[j]] == if j < i then -1 else j
        invariant forall k :: 0 <= k < |indices| && indices[k] != -1 ==>
                    0 <= indices[k] < |heap| && heap[indices[k]] == k
      {
        indices := indices[heap[i] := -1];
        i := i + 1;
      }
      heap := [];
    }

    /** Enters the keys in the order given. */
    method Fill(ns: seq<nat>)
      requires Valid() && heap == [] && (forall i :: 0 <= i < |ns| ==> ns[i] < |indices|)
      requires forall i, j :: 0 <= i < j < |ns| ==> ns[i] != ns[j]
      modifies this
      ensures Valid() && heap == ns
    {
      var i := 0;
      while i < |ns|
        invariant 0 <= i <= |ns| && Valid() && heap == ns[..i] && |indices| == old(|indices|)
      {
        indices := indices[ns[i] := i];
        heap := heap + [ns[i]];
        i := i + 1;
      }
    }

    static lemma Leaves(h: seq<nat>, lt: (nat, nat) -> bool)
      ensures OrderedFrom(h, lt, |h| / 2)
    {
    }

    static lemma OneMore(h: seq<nat>, lt: (nat, nat) -> bool, i: nat)
      requires OrderedFrom(h, lt, i + 1) && i < |h|
      ensures BrokenAt(h, lt, i, i) && UpOk(h, lt, i, i)
    {
    }
  }
}
