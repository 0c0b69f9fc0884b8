/** The exporter's clause store: buckets by size, and a selection of clauses within a budget of literals. */
module Sharing {
  import opened Numbers

  datatype ClauseExchange = ClauseExchange(lbd: int, lits: seq<int>) {
    function Size(): nat {
      |lits|
    }
  }

  /** The number of literals in a list of clauses. */
  function Weight(s: seq<ClauseExchange>): nat {
    if s == [] then 0 else s[0].Size() + Weight(s[1..])
  }

  function Flat(buckets: seq<seq<ClauseExchange>>): seq<ClauseExchange> {
    if buckets == [] then [] else buckets[0] + Flat(buckets[1..])
  }

  // ---------- Sums over lists ----------

  lemma {:induction false} WeightConcat(a: seq<ClauseExchange>, b: seq<ClauseExchange>)
    ensures Weight(a + b) == Weight(a) + Weight(b)
  {
    if a == [] {
      assert a + b == b;
    } else {
      WeightConcat(a[1..], b);
      assert (a + b)[1..] == a[1..] + b;
    }
  }

  lemma {:induction false} WeightUniform(s: seq<ClauseExchange>, size: nat)
    requires forall c :: c in s ==> c.Size() == size
    ensures Weight(s) == size * |s|
  {
    if s != [] {
      WeightUniform(s[1..], size);
      TimesNext(size, |s[1..]|);
      assert s[0].Size() == size && |s| == |s[1..]| + 1;
    }
  }

  /** The clauses' sizes below the threshold, summed up as what they save compared to it. */
  function Savings(s: seq<ClauseExchange>, threshold: nat): nat {
    if s == [] then 0
    else (if s[0].Size() < threshold then threshold - s[0].Size() else 0) + Savings(s[1..], threshold)
  }

  lemma {:induction false} SavingsConcat(a: seq<ClauseExchange>, b: seq<ClauseExchange>, threshold: nat)
    ensures Savings(a + b, threshold) == Savings(a, threshold) + Savings(b, threshold)
  {
    if a == [] {
      assert a + b == b;
    } else {
      SavingsConcat(a[1..], b, threshold);
      assert (a + b)[1..] == a[1..] + b;
    }
  }

  lemma OneOut(s: seq<ClauseExchange>, j: nat)
    requires j < |s|
    ensures multiset(s) == multiset(s[..j] + s[j + 1..]) + multiset{s[j]}
  {
    assert s == s[..j] + ([s[j]] + s[j + 1..]);
  }

  lemma OneLess(a: multiset<ClauseExchange>, b: multiset<ClauseExchange>, c: ClauseExchange)
    requires a + multiset{c} <= b + multiset{c}
    ensures a <= b
  {
    forall e
      ensures a[e] <= b[e]
    {
      assert (a + multiset{c})[e] <= (b + multiset{c})[e];
    }
  }

  lemma SavingsOneOut(s: seq<ClauseExchange>, j: nat, threshold: nat)
    requires j < |s|
    ensures Savings(s, threshold) == Savings([s[j]], threshold) + Savings(s[..j] + s[j + 1..], threshold)
  {
    assert s == s[..j] + ([s[j]] + s[j + 1..]);
    SavingsConcat(s[..j], [s[j]] + s[j + 1..], threshold);
    SavingsConcat([s[j]], s[j + 1..], threshold);
    SavingsConcat(s[..j], s[j + 1..], threshold);
  }

  /** A part of a list saves at most what the list saves. */
  lemma {:induction false} SavingsPart(s: seq<ClauseExchange>, all: seq<ClauseExchange>, threshold: nat)
    requires multiset(s) <= multiset(all)
    ensures Savings(s, threshold) <= Savings(all, threshold) && |s| <= |all|
  {
    hide Savings;
    if s == [] {
      NoneSaved(all, threshold);
    } else {
      var j := Elsewhere(s, all);
      RestPart(s, all, j);
      SavingsPart(s[1..], all[..j] + all[j + 1..], threshold);
      SavingsOneOut(all, j, threshold);
      SavingsOneOut(s, 0, threshold);
      assert s[..0] + s[1..] == s[1..];
    }
  }

  lemma NoneSaved(all: seq<ClauseExchange>, threshold: nat)
    ensures Savings([], threshold) == 0
  {
  }

  lemma Elsewhere(s: seq<ClauseExchange>, all: seq<ClauseExchange>) returns (j: nat)
    requires s != [] && multiset(s) <= multiset(all)
    ensures j < |all| && all[j] == s[0]
  {
    assert s[0] in multiset(s);
    j :| 0 <= j < |all| && all[j] == s[0];
  }

  lemma RestPart(s: seq<ClauseExchange>, all: seq<ClauseExchange>, j: nat)
    requires s != [] && multiset(s) <= multiset(all) && j < |all| && all[j] == s[0]
    ensures multiset(s[1..]) <= multiset(all[..j] + all[j + 1..])
  {
    OneOut(all, j);
    OneOut(s, 0);
    assert s[..0] + s[1..] == s[1..];
    OneLess(multiset(s[1..]), multiset(all[..j] + all[j + 1..]), s[0]);
  }

  /** Every clause costs the threshold, minus what it saves. */
  lemma {:induction false} CostAtLeast(s: seq<ClauseExchange>, threshold: nat)
    ensures Weight(s) + Savings(s, threshold) >= threshold * |s|
    ensures (forall c :: c in s ==> c.Size() <= threshold) ==> Weight(s) + Savings(s, threshold) == threshold * |s|
  {
    if s != [] {
      CostAtLeast(s[1..], threshold);
      TimesNext(threshold, |s[1..]|);
      assert |s| == |s[1..]| + 1;
    }
  }

  lemma {:induction false} NoSavings(s: seq<ClauseExchange>, threshold: nat)
    requires forall c :: c in s ==> c.Size() >= threshold
    ensures Savings(s, threshold) == 0
  {
    if s != [] {
      NoSavings(s[1..], threshold);
    }
  }

  /** Taking every clause below a size and none above, until less than that size is left, takes as many clauses as the
      budget allows. */
  lemma GreedyOptimal(all: seq<ClauseExchange>, picked: seq<ClauseExchange>, rest: seq<ClauseExchange>, threshold: nat,
                      budget: nat, s: seq<ClauseExchange>)
    requires multiset(all) == multiset(picked) + multiset(rest)
    requires (forall c :: c in picked ==> c.Size() <= threshold) && (forall c :: c in rest ==> c.Size() >= threshold)
    requires Weight(picked) <= budget < Weight(picked) + threshold
    requires multiset(s) <= multiset(all) && Weight(s) <= budget
    ensures |s| <= |picked|
  {
    assert multiset(picked + rest) == multiset(all);
    SavingsPart(s, picked + rest, threshold);
    SavingsConcat(picked, rest, threshold);
    NoSavings(rest, threshold);
    CostAtLeast(s, threshold);
    CostAtLeast(picked, threshold);
    TimesStep(threshold, |picked|, |s|);
  }

  // ---------- Buckets ----------

  lemma {:induction false} FlatMember(buckets: seq<seq<ClauseExchange>>, c: ClauseExchange)
    ensures c in Flat(buckets) <==> exists i :: 0 <= i < |buckets| && c in buckets[i]
  {
    if buckets != [] {
      FlatMember(buckets[1..], c);
      if i :| 0 <= i < |buckets| && c in buckets[i] {
        assert i > 0 ==> buckets[1..][i - 1] == buckets[i];
      }
      if i :| 0 <= i < |buckets| - 1 && c in buckets[1..][i] {
        assert buckets[i + 1] == buckets[1..][i];
      }
    }
  }

  /** Changing one bucket changes the contents by just that. */
  lemma {:induction false} FlatUpdate(buckets: seq<seq<ClauseExchange>>, i: nat, b: seq<ClauseExchange>)
    requires i < |buckets|
    ensures multiset(Flat(buckets[i := b])) + multiset(buckets[i]) == multiset(Flat(buckets)) + multiset(b)
  {
    if i == 0 {
      assert buckets[0 := b][1..] == buckets[1..];
    } else {
      FlatUpdate(buckets[1..], i - 1, b);
      assert buckets[i := b][1..] == buckets[1..][i - 1 := b];
    }
    FlatSplit(buckets[i := b]);
    FlatSplit(buckets);
    if i > 0 {
      CommonPart(multiset(buckets[0]), multiset(Flat(buckets[i := b][1..])), multiset(buckets[i]),
                 multiset(Flat(buckets[1..])),
                 multiset(b));
    }
  }

  lemma CommonPart(x: multiset<ClauseExchange>, a: multiset<ClauseExchange>, b: multiset<ClauseExchange>,
                   c: multiset<ClauseExchange>, d: multiset<ClauseExchange>)
    requires a + b == c + d
    ensures (x + a) + b == (x + c) + d
  {
    forall e
      ensures ((x + a) + b)[e] == ((x + c) + d)[e]
    {
      assert (a + b)[e] == (c + d)[e];
    }
  }

  lemma FlatSplit(buckets: seq<seq<ClauseExchange>>)
    requires buckets != []
    ensures multiset(Flat(buckets)) == multiset(buckets[0]) + multiset(Flat(buckets[1..]))
  {
  }

  lemma {:induction false} FlatExtend(buckets: seq<seq<ClauseExchange>>)
    ensures Flat(buckets + [[]]) == Flat(buckets)
  {
    if buckets == [] {
      assert buckets + [[]] == [[]];
    } else {
      FlatExtend(buckets[1..]);
      assert (buckets + [[]])[1..] == buckets[1..] + [[]];
    }
  }

  /** What the selection loop has reached before bucket i: either every earlier bucket has been emptied, or the budget
      no longer allows a clause of size i. */
  ghost predicate Selecting(before: seq<seq<ClauseExchange>>, now: seq<seq<ClauseExchange>>,
                            picked: seq<ClauseExchange>, i: nat, budget: nat) {
    && i <= |now| == |before| && now[i..] == before[i..] && Bucketed(now)
    && multiset(Flat(before)) == multiset(picked) + multiset(Flat(now))
    && Weight(picked) <= budget && (forall c :: c in picked ==> c.Size() <= i)
    && (forall j :: 0 <= j < i - 1 ==> now[j] == [])
    && (i > 0 ==> now[i - 1] == [] || budget < Weight(picked) + i)
  }

  /** Bucket i holds clauses of size i + 1, of less than 1000 literals in all. */
  ghost predicate Bucketed(buckets: seq<seq<ClauseExchange>>) {
    forall i :: 0 <= i < |buckets| ==>
      (forall c :: c in buckets[i] ==> c.Size() == i + 1) && |buckets[i]| * (i + 1) < 1000
  }

  /** No selection within the budget has more clauses. */
  ghost predicate Optimal(all: seq<ClauseExchange>, picked: seq<ClauseExchange>, budget: nat) {
    forall s :: multiset(s) <= multiset(all) && Weight(s) <= budget ==> |s| <= |picked|
  }

  lemma StopsOptimal(before: seq<seq<ClauseExchange>>, now: seq<seq<ClauseExchange>>, picked: seq<ClauseExchange>,
                     i: nat, budget: nat)
    requires Selecting(before, now, picked, i, budget)
    requires i == |now| || budget < Weight(picked) + i + 1
    ensures Optimal(Flat(before), picked, budget)
  {
    var threshold: nat := if i > 0 && now[i - 1] != [] then i else i + 1;
    forall c | c in Flat(now)
      ensures c.Size() >= threshold
    {
      FlatMember(now, c);
      var j :| 0 <= j < |now| && c in now[j];
      assert j >= i - 1 && (j == i - 1 ==> now[i - 1] != []);
    }
    forall s | multiset(s) <= multiset(Flat(before)) && Weight(s) <= budget
      ensures |s| <= |picked|
    {
      if budget < Weight(picked) + threshold {
        GreedyOptimal(Flat(before), picked, Flat(now), threshold, budget, s);
      } else {
        AllPicked(now);
        assert multiset(picked) == multiset(Flat(before));
        SavingsPart(s, picked, 0);
      }
    }
  }

  lemma {:induction false} AllPicked(now: seq<seq<ClauseExchange>>)
    requires forall j :: 0 <= j < |now| ==> now[j] == []
    ensures Flat(now) == []
  {
    if now != [] {
      AllPicked(now[1..]);
    }
  }

  lemma Division(left: nat, size: nat, n: nat)
    requires size > 0 && left < size * n
    ensures left / size < n && size * (left / size) <= left < size * (left / size) + size
  {
    var q := left / size;
    assert left == size * q + left % size;
    TimesStep(size, n, q + 1);
    TimesNext(size, q);
  }

  lemma SelectStart(before: seq<seq<ClauseExchange>>, budget: nat)
    requires Bucketed(before)
    ensures Selecting(before, before, [], 0, budget) && Weight([]) == 0
  {
  }

  lemma SelectNow(before: seq<seq<ClauseExchange>>, now: seq<seq<ClauseExchange>>, picked: seq<ClauseExchange>, i: nat,
                  budget: nat)
    requires Selecting(before, now, picked, i, budget)
    ensures Weight(picked) <= budget && i <= |now| && Bucketed(now)
    ensures multiset(Flat(before)) == multiset(picked) + multiset(Flat(now))
  {
  }

  /** Moving part b of bucket i to the selection. */
  lemma SelectMore(before: seq<seq<ClauseExchange>>, now: seq<seq<ClauseExchange>>, picked: seq<ClauseExchange>, i: nat,
                   budget: nat, kept: seq<ClauseExchange>, b: seq<ClauseExchange>)
    requires Selecting(before, now, picked, i, budget) && i < |now| && budget >= Weight(picked) + i + 1
    requires multiset(now[i]) == multiset(kept) + multiset(b) && |kept| <= |now[i]|
    requires Weight(picked) + (i + 1) * |b| <= budget
    requires kept == [] || budget < Weight(picked) + (i + 1) * |b| + i + 1
    ensures Selecting(before, now[i := kept], picked + b, i + 1, budget)
    ensures Weight(picked + b) == Weight(picked) + (i + 1) * |b|
  {
    hide Bucketed, Flat, Weight;
    TailAfter(now, before, i, kept);
    BucketPart(now, i, kept, b);
    MovedContents(multiset(Flat(before)), now, picked, i, kept, b);
    WeightConcat(picked, b);
    WeightUniform(b, i + 1);
  }

  lemma TailAfter<A>(now: seq<A>, before: seq<A>, i: nat, x: A)
    requires |now| == |before| && i < |now| && now[i..] == before[i..]
    ensures now[i] == before[i] && now[i := x][i + 1..] == before[i + 1..]
  {
    assert now[i] == now[i..][0] == before[i..][0];
    assert now[i := x][i + 1..] == now[i..][1..] == before[i..][1..];
  }

  /** The parts of a bucket hold clauses of its size. */
  lemma BucketPart(now: seq<seq<ClauseExchange>>, i: nat, kept: seq<ClauseExchange>, b: seq<ClauseExchange>)
    requires Bucketed(now) && i < |now| && multiset(now[i]) == multiset(kept) + multiset(b) && |kept| <= |now[i]|
    ensures (forall c :: c in b ==> c.Size() == i + 1) && Bucketed(now[i := kept])
  {
    forall c | c in b
      ensures c.Size() == i + 1
    {
      assert c in multiset(b);
      assert c in multiset(now[i]);
    }
    forall c | c in kept
      ensures c.Size() == i + 1
    {
      assert c in multiset(kept);
      assert c in multiset(now[i]);
    }
    FewerLits(|kept|, |now[i]|, i + 1);
  }

  lemma FewerLits(m: nat, n: nat, size: nat)
    requires m <= n
    ensures m * size <= n * size
  {
  }

  lemma MovedContents(all: multiset<ClauseExchange>, now: seq<seq<ClauseExchange>>, picked: seq<ClauseExchange>, i: nat,
                      kept: seq<ClauseExchange>, b: seq<ClauseExchange>)
    requires i < |now| && multiset(now[i]) == multiset(kept) + multiset(b)
    requires all == multiset(picked) + multiset(Flat(now))
    ensures all == multiset(picked + b) + multiset(Flat(now[i := kept]))
  {
    FlatUpdate(now, i, kept);
    MovedOver(multiset(picked), multiset(Flat(now)), multiset(Flat(now[i := kept])), multiset(kept), multiset(b));
    assert multiset(picked + b) == multiset(picked) + multiset(b);
  }

  lemma MovedOver(p: multiset<ClauseExchange>, flat: multiset<ClauseExchange>, flat': multiset<ClauseExchange>,
                  kept: multiset<ClauseExchange>, b: multiset<ClauseExchange>)
    requires flat' + (kept + b) == flat + kept
    ensures p + flat == (p + b) + flat'
  {
    forall e
      ensures (p + flat)[e] == ((p + b) + flat')[e]
    {
      assert (flat' + (kept + b))[e] == (flat + kept)[e];
    }
  }

  lemma PopStep(all: seq<ClauseExchange>, n: nat, popped: seq<ClauseExchange>)
    requires 0 < n <= |all| && multiset(all) == multiset(all[..n]) + multiset(popped)
    ensures multiset(all) == multiset(all[..n - 1]) + multiset(popped + [all[n - 1]])
  {
    assert all[..n] == all[..n - 1] + [all[n - 1]];
  }

  lemma EmptyBucket(buckets: seq<seq<ClauseExchange>>)
    requires Bucketed(buckets)
    ensures Bucketed(buckets + [[]])
  {
    assert 0 * (|buckets| + 1) == 0;
  }

  lemma Bucketful(buckets: seq<seq<ClauseExchange>>, clause: ClauseExchange)
    requires Bucketed(buckets) && 0 < clause.Size() <= |buckets|
    requires (|buckets[clause.Size() - 1]| + 1) * clause.Size() < 1000
    ensures Bucketed(buckets[clause.Size() - 1 := buckets[clause.Size() - 1] + [clause]])
    ensures multiset(Flat(buckets[clause.Size() - 1 := buckets[clause.Size() - 1] + [clause]]))
         == multiset(Flat(buckets)) + multiset{clause}
  {
    var i := clause.Size() - 1;
    FlatUpdate(buckets, i, buckets[i] + [clause]);
    OneMoreIn(multiset(Flat(buckets[i := buckets[i] + [clause]])), multiset(Flat(buckets)), multiset(buckets[i]),
              clause);
    assert multiset(buckets[i] + [clause]) == multiset(buckets[i]) + multiset{clause};
  }

  lemma OneMoreIn(flat': multiset<ClauseExchange>, flat: multiset<ClauseExchange>, b: multiset<ClauseExchange>,
                  c: ClauseExchange)
    requires flat' + b == flat + (b + multiset{c})
    ensures flat' == flat + multiset{c}
  {
    forall e
      ensures flat'[e] == (flat + multiset{c})[e]
    {
      assert (flat' + b)[e] == (flat + (b + multiset{c}))[e];
    }
  }

  class ClauseDatabase {
    var clauses: seq<seq<ClauseExchange>>

    constructor ()
      ensures Valid() && clauses == []
    {
      clauses := [];
    }

    ghost predicate Valid()
      reads this
    {
      Bucketed(clauses)
    }

    /** Stores a clause in the bucket of its size, unless that bucket would reach 1000 literals. */
    method AddClause(clause: ClauseExchange)
      requires Valid() && clause.Size() > 0
      modifies this
      ensures Valid() && |clauses| >= clause.Size()
      ensures var fits := (|Bucket(old(clauses), clause.Size())| + 1) * clause.Size() < 1000;
        multiset(Flat(clauses)) == multiset(Flat(old(clauses))) + if fits then multiset{clause} else multiset{}
    {
      hide Bucketed, Flat;
      var clsSize := clause.Size();
      while |clauses| < clsSize
        invariant Valid() && Flat(clauses) == Flat(old(clauses))
        invariant Bucket(clauses, clsSize) == Bucket(old(clauses), clsSize)
      {
        FlatExtend(clauses);
        EmptyBucket(clauses);
        clauses := clauses + [[]];
      }
      if (|clauses[clsSize - 1]| + 1) * clsSize < 1000 {
        Bucketful(clauses, clause);
        clauses := clauses[clsSize - 1 := clauses[clsSize - 1] + [clause]];
      }
    }

    static function Bucket(buckets: seq<seq<ClauseExchange>>, size: nat): seq<ClauseExchange>
      requires size > 0
    {
      if size <= |buckets| then buckets[size - 1] else []
    }

    /** Takes clauses out, shortest first, within the budget. */
    method GiveSelection(selected0: seq<ClauseExchange>, totalSize: nat)
      returns (selected: seq<ClauseExchange>, used: nat, selectCount: nat)
      requires Valid()
      modifies this
      ensures Valid() && selected0 <= selected && selectCount == |selected| - |selected0|
      ensures var picked := selected[|selected0|..];
        && used == Weight(picked) <= totalSize
        && multiset(Flat(old(clauses))) == multiset(picked) + multiset(Flat(clauses))
        && Optimal(Flat(old(clauses)), picked, totalSize)
    {
      hide Optimal, Selecting, Flat, Weight;
      SelectStart(clauses, totalSize);
      used, selectCount, selected := 0, 0, selected0;
      ghost var picked: seq<ClauseExchange> := [];
      var i := 0;
      while i < |clauses|
        invariant Selecting(old(clauses), clauses, picked, i, totalSize)
        invariant selected == selected0 + picked && selectCount == |picked| && used == Weight(picked)
      {
        SelectNow(old(clauses), clauses, picked, i, totalSize);
        var clsSize := i + 1;
        var left := totalSize - used;
        if left < clsSize {
          StopsOptimal(old(clauses), clauses, picked, i, totalSize);
          return;
        }
        ghost var now, taken := clauses, picked;
        if left >= clsSize * |clauses[i]| {
          SelectMore(old(clauses), now, taken, i, totalSize, [], now[i]);
          used := used + clsSize * |clauses[i]|;
          selected := selected + clauses[i];
          selectCount := selectCount + |clauses[i]|;
          picked := picked + clauses[i];
          clauses := clauses[i := []];
        } else {
          var nCls := left / clsSize;
          Division(left, clsSize, |clauses[i]|);
          used := used + clsSize * nCls;
          selected, selectCount := PopSome(i, nCls, selected, selectCount);
          ghost var b := selected[|selected0| + |picked|..];
          SelectMore(old(clauses), now, taken, i, totalSize, clauses[i], b);
          picked := picked + b;
        }
        i := i + 1;
      }
      SelectNow(old(clauses), clauses, picked, i, totalSize);
      StopsOptimal(old(clauses), clauses, picked, i, totalSize);
    }

    /** Moves n clauses from the end of bucket i to the selection. */
    method PopSome(i: nat, n: nat, selected0: seq<ClauseExchange>, count0: nat)
      returns (selected: seq<ClauseExchange>, count: nat)
      requires i < |clauses| && n <= |clauses[i]|
      modifies this
      ensures clauses == old(clauses)[i := old(clauses)[i][..|old(clauses)[i]| - n]]
      ensures selected0 <= selected && |selected| == |selected0| + n && count == count0 + n
      ensures multiset(old(clauses)[i]) == multiset(clauses[i]) + multiset(selected[|selected0|..])
    {
      var bucket, popped := PopBack(clauses[i], n);
      clauses := clauses[i := bucket];
      selected, count := selected0 + popped, count0 + n;
    }

    /** Moves n clauses, one by one, off the end of a bucket. */
    static method PopBack(all: seq<ClauseExchange>, n: nat)
      returns (bucket: seq<ClauseExchange>, popped: seq<ClauseExchange>)
      requires n <= |all|
      ensures bucket == all[..|all| - n] && |popped| == n && multiset(all) == multiset(bucket) + multiset(popped)
    {
      bucket, popped := all, [];
      var k := 0;
      while k < n
        invariant 0 <= k <= n && bucket == all[..|all| - k] && |popped| == k
        invariant multiset(all) == multiset(bucket) + multiset(popped)
      {
        PopStep(all, |all| - k, popped);
        popped := popped + [bucket[|bucket| - 1]];
        bucket := bucket[..|bucket| - 1];
        k := k + 1;
      }
    }
  }
}
