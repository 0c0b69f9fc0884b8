/** Reducing a formula to cubes: the assignments of backdoor sets that propagation does not refute, and their
    product. */
module Backdoors {
  import opened Cnf
  import opened Numbers
  import opened Enumeration
  import opened Counting

  /** What an evolutionary search came up with: some variables, and whether it saw all their assignments refuted under
      the base assumption. */
  datatype Backdoor = Backdoor(vars: seq<Var>, isSbs: bool)

  datatype Reduction = SbsFound | Reduced(search: Search)

  // ---------- What the oracles promise ----------

  /** Propagation reports a conflict only if the formula has no model with the assumptions. */
  ghost predicate SoundProp(f: set<Clause>, conf: seq<Lit> -> bool) {
    forall a :: conf(a) ==> UnsatUnder(f, a)
  }

  /** A set is taken for a strong backdoor only if the formula has no model with the base assumption. */
  /** Short enough to be enumerated with 64-bit counters. */
  predicate Enumerable(rbs: seq<Backdoor>) {
    forall i :: 0 <= i < |rbs| ==> |rbs[i].vars| < 64
  }

  ghost predicate SoundBackdoors(f: set<Clause>, base: seq<Lit>, rbs: seq<Backdoor>) {
    Enumerable(rbs) && forall i :: 0 <= i < |rbs| ==> (rbs[i].isSbs ==> UnsatUnder(f, base))
  }

  // ---------- Covering ----------

  /** Every model of the formula extends one of the cubes. */
  ghost predicate Covers(f: set<Clause>, cubes: seq<seq<Lit>>) {
    forall m :: Models(m, f) ==> exists i :: 0 <= i < |cubes| && AllHold(m, cubes[i])
  }

  /** Every model of the formula extends one of the assignments enumerated. */
  ghost predicate CoversBy(f: set<Clause>, kind: Kind)
    requires WellFormed(kind)
  {
    forall m :: Models(m, f) ==> exists k :: 0 <= k < Count(kind) && AllHold(m, Nth(kind, k))
  }

  ghost function SignsIn(m: Model, vars: seq<Var>): (r: seq<bool>)
    ensures |r| == |vars|
  {
    seq(|vars|, i requires 0 <= i < |vars| => vars[i] !in m)
  }

  /** Whatever the variables, one of their sign patterns fits. */
  lemma FullCovers(f: set<Clause>, vars: seq<Var>)
    requires |vars| < 64
    ensures CoversBy(f, Full(vars))
  {
    forall m | Models(m, f)
      ensures exists k :: 0 <= k < Pow2(|vars|) && AllHold(m, Nth(Full(vars), k))
    {
      var signs := SignsIn(m, vars);
      PatternIndex(vars, signs, 0);
      forall l | l in WithSigns(vars, signs)
        ensures Holds(m, l)
      {
        var i :| 0 <= i < |vars| && WithSigns(vars, signs)[i] == l;
      }
      assert AllHold(m, Nth(Full(vars), Number(signs)));
    }
  }

  /** The assignments that propagation did not refute, in order. */
  function NonConflict(calls: seq<Call>): seq<seq<Lit>> {
    if calls == [] then []
    else NonConflict(calls[..|calls| - 1]) + if calls[|calls| - 1].0 then [] else [calls[|calls| - 1].1]
  }

  lemma {:induction false} NonConflictExact(calls: seq<Call>, a: seq<Lit>)
    ensures a in NonConflict(calls) <==> (false, a) in calls
  {
    if calls != [] {
      var front, last := calls[..|calls| - 1], calls[|calls| - 1];
      NonConflictExact(front, a);
      assert calls == front + [last];
    }
  }

  lemma {:induction false} NonConflictFew(calls: seq<Call>)
    ensures |NonConflict(calls)| <= |calls|
  {
    if calls != [] {
      NonConflictFew(calls[..|calls| - 1]);
    }
  }

  /** Dropping refuted assignments loses no model. */
  lemma FilteredCovers(f: set<Clause>, conf: seq<Lit> -> bool, kind: Kind)
    requires SoundProp(f, conf) && WellFormed(kind) && CoversBy(f, kind)
    ensures Covers(f, NonConflict(AllCalls(conf, [], kind, 0, Count(kind))))
  {
    hide AllCalls, NonConflict, Nth, WellFormed, UnsatUnder;
    var cubes := NonConflict(AllCalls(conf, [], kind, 0, Count(kind)));
    forall m | Models(m, f)
      ensures exists i :: 0 <= i < |cubes| && AllHold(m, cubes[i])
    {
      var k :| 0 <= k < Count(kind) && AllHold(m, Nth(kind, k));
      NotRefuted(f, conf, m, Nth(kind, k));
      KeptAt(conf, kind, Count(kind), k);
      var i :| 0 <= i < |cubes| && cubes[i] == Nth(kind, k);
    }
  }

  lemma NotRefuted(f: set<Clause>, conf: seq<Lit> -> bool, m: Model, a: seq<Lit>)
    requires SoundProp(f, conf) && Models(m, f) && AllHold(m, a)
    ensures !conf(a)
  {
  }

  lemma KeptAt(conf: seq<Lit> -> bool, kind: Kind, n: nat, k: nat)
    requires WellFormed(kind) && k < n && !conf(Nth(kind, k))
    ensures Nth(kind, k) in NonConflict(AllCalls(conf, [], kind, 0, n))
  {
    hide Nth, AllCalls, NonConflict;
    var calls, a := AllCalls(conf, [], kind, 0, n), Nth(kind, k);
    AllCallsAt(conf, [], kind, 0, n, k);
    assert [] + a == a;
    assert calls[k] == (false, a);
    NonConflictExact(calls, a);
  }

  /** A product of covering sets covers. */
  lemma ProductCovers(f: set<Clause>, sets: seq<seq<seq<Lit>>>)
    requires Uniform(sets) && forall i :: 0 <= i < |sets| ==> Covers(f, sets[i])
    ensures CoversBy(f, Cartesian(sets))
  {
    forall m | Models(m, f)
      ensures exists k :: 0 <= k < Count(Cartesian(sets)) && AllHold(m, Nth(Cartesian(sets), k))
    {
      var d := Choices(m, f, sets, |sets|);
      DigitsValue(Sizes(sets), d);
      JoinedHolds(m, sets, d, |sets|);
      assert AllHold(m, Nth(Cartesian(sets), Value(Sizes(sets), d)));
    }
  }

  /** In each of the first n sets, a block that holds. */
  lemma {:induction false} Choices(m: Model, f: set<Clause>, sets: seq<seq<seq<Lit>>>, n: nat) returns (d: seq<nat>)
    requires Models(m, f) && n <= |sets| && forall i :: 0 <= i < |sets| ==> Covers(f, sets[i])
    ensures |d| == n && forall i :: 0 <= i < n ==> d[i] < |sets[i]| && AllHold(m, sets[i][d[i]])
  {
    if n == 0 {
      return [];
    }
    d := Choices(m, f, sets, n - 1);
    assert Covers(f, sets[n - 1]);
    var j :| 0 <= j < |sets[n - 1]| && AllHold(m, sets[n - 1][j]);
    d := d + [j];
  }

  lemma {:induction false} JoinedHolds(m: Model, sets: seq<seq<seq<Lit>>>, d: seq<nat>, n: nat)
    requires n <= |sets| && InRange(Sizes(sets), d)
    requires forall i :: 0 <= i < |sets| ==> d[i] < |sets[i]| && AllHold(m, sets[i][d[i]])
    ensures AllHold(m, Joined(sets, d, n))
  {
    if n > 0 {
      JoinedHolds(m, sets, d, n - 1);
    }
  }

  // ---------- Collecting what is not refuted ----------

  /** What the callbacks of the searches do: keep the assignments without conflict. */
  method CollectNonConflict(calls: seq<Call>) returns (nonConflict: seq<seq<Lit>>)
    ensures nonConflict == NonConflict(calls)
  {
    nonConflict := [];
    for i := 0 to |calls|
      invariant nonConflict == NonConflict(calls[..i])
    {
      assert calls[..i + 1][..i] == calls[..i];
      if !calls[i].0 {
        nonConflict := nonConflict + [calls[i].1];
      }
    }
    assert calls[..|calls|] == calls;
  }

  function BaseVars(base: seq<Lit>): set<Var> {
    set l | l in base :: l.v
  }

  function FilterVars(vars: seq<Var>, drop: set<Var>): (r: seq<Var>)
    ensures |r| <= |vars| && forall v :: v in r <==> v in vars && v !in drop
  {
    if vars == [] then [] else (if vars[0] in drop then [] else [vars[0]]) + FilterVars(vars[1..], drop)
  }

  /** Non-refuted assignments of one set of variables: none is lost, and all have the same length. */
  ghost predicate Reduces(f: set<Clause>, cubes: seq<seq<Lit>>) {
    Covers(f, cubes) && |cubes| < Pow2(64) && forall j :: 0 <= j < |cubes| ==> |cubes[j]| == |cubes[0]|
  }

  lemma {:induction false} Pow2Grows(a: nat, b: nat)
    requires a <= b
    ensures Pow2(a) <= Pow2(b)
  {
    if a < b {
      Pow2Grows(a, b - 1);
    }
  }

  lemma FilteredReduces(f: set<Clause>, conf: seq<Lit> -> bool, vars: seq<Var>)
    requires SoundProp(f, conf) && |vars| < 64
    ensures Reduces(f, NonConflict(AllCalls(conf, [], Full(vars), 0, Pow2(|vars|))))
  {
    hide Covers, SoundProp, Pow2, AllCalls, NonConflict;
    var calls := AllCalls(conf, [], Full(vars), 0, Pow2(|vars|));
    FullCovers(f, vars);
    FilteredCovers(f, conf, Full(vars));
    NonConflictFew(calls);
    Pow2Grows(|vars|, 63);
    Pow2Next(63);
    forall j | 0 <= j < |NonConflict(calls)|
      ensures |NonConflict(calls)[j]| == |vars|
    {
      SameLength(conf, vars, Pow2(|vars|), NonConflict(calls)[j]);
    }
  }

  lemma SameLength(conf: seq<Lit> -> bool, vars: seq<Var>, n: nat, a: seq<Lit>)
    requires |vars| < 64 && a in NonConflict(AllCalls(conf, [], Full(vars), 0, n))
    ensures |a| == |vars|
  {
    hide AllCalls, NonConflict;
    var calls := AllCalls(conf, [], Full(vars), 0, n);
    NonConflictExact(calls, a);
    var k :| 0 <= k < |calls| && calls[k] == (false, a);
    AllCallsAt(conf, [], Full(vars), 0, n, k);
  }

  lemma Pow2Next(n: nat)
    ensures Pow2(n + 1) == 2 * Pow2(n)
  {
  }

  /** The sign patterns of the variables without conflict. */
  function Unrefuted(vars: seq<Var>, conf: seq<Lit> -> bool): seq<seq<Lit>>
    requires |vars| < 64
  {
    NonConflict(AllCalls(conf, [], Full(vars), 0, Pow2(|vars|)))
  }

  /** For every algorithm's set of variables, outside the base assumption, the sign patterns without conflict. */
  function Remaining(base: seq<Lit>, rbs: seq<Backdoor>, conf: seq<Lit> -> bool): (r: seq<seq<seq<Lit>>>)
    requires Enumerable(rbs)
    ensures |r| == |rbs|
    ensures forall i :: 0 <= i < |rbs| ==> r[i] == Unrefuted(FilterVars(rbs[i].vars, BaseVars(base)), conf)
  {
    seq(|rbs|, i requires 0 <= i < |rbs| => Unrefuted(FilterVars(rbs[i].vars, BaseVars(base)), conf))
  }

  /** A set that is not known as a strong backdoor and leaves some assignment. */
  predicate Leaves(base: seq<Lit>, rb: Backdoor, conf: seq<Lit> -> bool)
    requires |rb.vars| < 64
  {
    !rb.isSbs && Unrefuted(FilterVars(rb.vars, BaseVars(base)), conf) != []
  }

  predicate AllLeave(base: seq<Lit>, rbs: seq<Backdoor>, conf: seq<Lit> -> bool)
    requires Enumerable(rbs)
  {
    forall i :: 0 <= i < |rbs| ==> Leaves(base, rbs[i], conf)
  }

  /** Every algorithm's set of variables gives the assignments that propagation does not refute; a set without any, like
      one known to be a strong backdoor, refutes the base assumption. */
  method PreSolve(ghost f: set<Clause>, base: seq<Lit>, rbs: seq<Backdoor>, conf: seq<Lit> -> bool,
                  seqSplitSamples: nat, maxThreads: nat) returns (sbsFound: bool, nca: seq<seq<seq<Lit>>>)
    requires SoundProp(f, conf) && SoundBackdoors(f, base, rbs) && seqSplitSamples > 0 && maxThreads > 0
    ensures sbsFound ==> UnsatUnder(f, base)
    ensures sbsFound <==> !AllLeave(base, rbs, conf)
    ensures !sbsFound ==> AllReduce(f, nca) && nca == Remaining(base, rbs, conf)
  {
    hide SoundProp, UnsatUnder, Reduces, Pow2, Unrefuted, FilterVars;
    sbsFound, nca := false, [];
    var baseVars := BaseVars(base);
    for i := 0 to |rbs|
      invariant |nca| == i && forall j :: 0 <= j < i ==> Reduces(f, nca[j]) && nca[j] != []
      invariant forall j :: 0 <= j < i ==>
                  !rbs[j].isSbs && nca[j] == Unrefuted(FilterVars(rbs[j].vars, BaseVars(base)), conf)
    {
      if rbs[i].isSbs {
        assert !Leaves(base, rbs[i], conf);
        return true, nca;
      }
      var nonConflict := FilterPatterns(f, FilterVars(rbs[i].vars, baseVars), conf, seqSplitSamples, maxThreads);
      if nonConflict == [] {
        NothingLeft(f, base, nonConflict);
        assert !Leaves(base, rbs[i], conf);
        return true, nca;
      }
      nca := nca + [nonConflict];
    }
  }

  /** The sign patterns of the variables that propagation does not refute. */
  method FilterPatterns(ghost f: set<Clause>, vars: seq<Var>, conf: seq<Lit> -> bool, seqSplitSamples: nat,
                        maxThreads: nat)
    returns (nonConflict: seq<seq<Lit>>)
    requires SoundProp(f, conf) && |vars| < 64 && seqSplitSamples > 0 && maxThreads > 0
    ensures Reduces(f, nonConflict) && nonConflict == Unrefuted(vars, conf)
  {
    hide SoundProp, Reduces, Pow2, Nth, AllCalls;
    var search := new Search.FullSearch(vars);
    var count, calls := PropSearch(search, [], conf, (c, a) => true, seqSplitSamples, maxThreads);
    nonConflict := CollectNonConflict(calls);
    FilteredReduces(f, conf, vars);
  }

  lemma NothingLeft(f: set<Clause>, base: seq<Lit>, cubes: seq<seq<Lit>>)
    requires Reduces(f, cubes) && cubes == []
    ensures UnsatUnder(f, base) && forall m :: !Models(m, f)
  {
    forall m
      ensures !Models(m, f)
    {
    }
  }

  // ---------- The product ----------

  ghost predicate AllReduce(f: set<Clause>, sets: seq<seq<seq<Lit>>>) {
    forall i :: 0 <= i < |sets| ==> Reduces(f, sets[i]) && sets[i] != []
  }

  lemma ReducedUniform(f: set<Clause>, sets: seq<seq<seq<Lit>>>)
    requires AllReduce(f, sets)
    ensures Uniform(sets) && CoversBy(f, Cartesian(sets))
  {
    assert Uniform(sets) by {
      assert forall i :: 0 <= i < |sets| ==> Reduces(f, sets[i]);
    }
    ProductCovers(f, sets);
  }

  /** Of the first n sets, in order: those that are not too large, while the product stays within bounds. */
  function Picked(sets: seq<seq<seq<Lit>>>, n: nat, maxUnpropagated: nat, maxCartesianSize: nat): seq<seq<seq<Lit>>>
    requires n <= |sets|
  {
    if n == 0 then []
    else
      var before := Picked(sets, n - 1, maxUnpropagated, maxCartesianSize);
      if |sets[n - 1]| <= maxUnpropagated && |sets[n - 1]| * Product(Sizes(before)) <= maxCartesianSize
      then before + [sets[n - 1]] else before
  }

  /** The first of the smallest sets is at `it`. */
  ghost predicate FirstLeast(sets: seq<seq<seq<Lit>>>, it: nat) {
    it < |sets| && forall i :: 0 <= i < |sets| ==> |sets[it]| <= |sets[i]| && (i < it ==> |sets[it]| < |sets[i]|)
  }

  /** What is multiplied: the sets picked, or the first of the smallest ones if that is too large already. */
  ghost predicate Selection(sets: seq<seq<seq<Lit>>>, chosen: seq<seq<seq<Lit>>>, maxUnpropagated: nat,
                            maxCartesianSize: nat) {
    exists it: nat :: FirstLeast(sets, it)
                 && chosen == if |sets[it]| > maxUnpropagated then [sets[it]]
                              else Picked(sets, |sets|, maxUnpropagated, maxCartesianSize)
  }

  /** Takes the sets that are not too large while their product stays within bounds; the smallest one if all are too
      large. Whatever is dropped, no model is lost. */
  method PrepareCartesian(ghost f: set<Clause>, sets: seq<seq<seq<Lit>>>, maxUnpropagated: nat, maxCartesianSize: nat)
    returns (search: Search)
    requires sets != [] && AllReduce(f, sets)
    ensures fresh(search) && search.Whole() && search.done == 0 && search.kind.Cartesian? && CoversBy(f, search.kind)
    ensures forall i :: 0 <= i < |search.kind.sets| ==> search.kind.sets[i] in sets
    ensures |search.kind.sets| > 1 ==> Count(search.kind) <= maxCartesianSize
    ensures (forall i :: 0 <= i < |sets| ==> |sets[i]| > maxUnpropagated) ==>
              |search.kind.sets| == 1 && forall i :: 0 <= i < |sets| ==> |search.kind.sets[0]| <= |sets[i]|
    ensures (exists i :: 0 <= i < |sets| && |sets[i]| <= maxUnpropagated) ==>
              forall i :: 0 <= i < |sets| ==>
                sets[i] in search.kind.sets || |sets[i]| > maxUnpropagated
                || Count(search.kind) * |sets[i]| > maxCartesianSize
    ensures Count(search.kind) <= maxCartesianSize || Count(search.kind) < Pow2(64)
    ensures Selection(sets, search.kind.sets, maxUnpropagated, maxCartesianSize)
  {
    hide AllReduce, CoversBy, Product, Pow2, Uniform, Picked;
    var result: seq<seq<seq<Lit>>>;
    var it := MinElement(sets);
    if |sets[it]| > maxUnpropagated {
      result := [sets[it]];
      OneSet(f, sets, it);
    } else {
      result := TakeSets(f, sets, maxUnpropagated, maxCartesianSize);
    }
    ReducedUniform(f, result);
    search := new Search.CartesianSearch(result);
  }

  /** The first of the smallest sets. */
  method MinElement(sets: seq<seq<seq<Lit>>>) returns (it: nat)
    requires sets != []
    ensures FirstLeast(sets, it)
  {
    it := 0;
    for i := 1 to |sets|
      invariant it < i && forall j :: 0 <= j < i ==> |sets[it]| <= |sets[j]| && (j < it ==> |sets[it]| < |sets[j]|)
    {
      if |sets[i]| < |sets[it]| {
        it := i;
      }
    }
  }

  method TakeSets(ghost f: set<Clause>, sets: seq<seq<seq<Lit>>>, maxUnpropagated: nat, maxCartesianSize: nat)
    returns (result: seq<seq<seq<Lit>>>)
    requires AllReduce(f, sets)
    ensures AllReduce(f, result) && forall i :: 0 <= i < |result| ==> result[i] in sets
    ensures result != [] ==> Product(Sizes(result)) <= maxCartesianSize
    ensures forall i :: 0 <= i < |sets| ==>
              sets[i] in result || |sets[i]| > maxUnpropagated || Product(Sizes(result)) * |sets[i]| > maxCartesianSize
    ensures Product(Sizes(result)) <= maxCartesianSize || Product(Sizes(result)) < Pow2(64)
    ensures result == Picked(sets, |sets|, maxUnpropagated, maxCartesianSize)
  {
    hide Taking;
    var size: nat := 1;
    result := [];
    TakingStart(f, sets, maxUnpropagated, maxCartesianSize);
    for i := 0 to |sets|
      invariant Taking(f, sets, i, result, size, maxUnpropagated, maxCartesianSize)
    {
      var curSize := |sets[i]|;
      if curSize <= maxUnpropagated && curSize * size <= maxCartesianSize {
        TakingMore(f, sets, i, result, size, maxUnpropagated, maxCartesianSize);
        result := result + [sets[i]];
        size := size * curSize;
      } else {
        TakingSkip(f, sets, i, result, size, maxUnpropagated, maxCartesianSize);
      }
    }
    TakingEnd(f, sets, result, size, maxUnpropagated, maxCartesianSize);
  }

  /** The loop of _prepare_cartesian has come to set n. */
  ghost predicate Taking(f: set<Clause>, sets: seq<seq<seq<Lit>>>, n: nat, result: seq<seq<seq<Lit>>>, size: nat,
                         maxUnpropagated: nat, maxCartesianSize: nat) {
    && n <= |sets| && result == Picked(sets, n, maxUnpropagated, maxCartesianSize)
    && AllReduce(f, result) && size == Product(Sizes(result)) && (result == [] ==> size == 1)
    && (result != [] ==> size <= maxCartesianSize)
    && (forall j :: 0 <= j < |result| ==> result[j] in sets)
    && Chosen(sets, n, result, size, maxUnpropagated, maxCartesianSize)
  }

  lemma TakingStart(f: set<Clause>, sets: seq<seq<seq<Lit>>>, maxUnpropagated: nat, maxCartesianSize: nat)
    ensures Taking(f, sets, 0, [], 1, maxUnpropagated, maxCartesianSize)
  {
    hide Product, Sizes, Pow2;
    NoSets();
  }

  lemma TakingMore(f: set<Clause>, sets: seq<seq<seq<Lit>>>, i: nat, result: seq<seq<seq<Lit>>>, size: nat,
                   maxUnpropagated: nat, maxCartesianSize: nat)
    requires AllReduce(f, sets) && i < |sets| && Taking(f, sets, i, result, size, maxUnpropagated, maxCartesianSize)
    requires |sets[i]| <= maxUnpropagated && |sets[i]| * size <= maxCartesianSize
    ensures Taking(f, sets, i + 1, result + [sets[i]], size * |sets[i]|, maxUnpropagated, maxCartesianSize)
  {
    hide Product, Sizes, AllReduce, Chosen;
    ReducesMore(f, sets, i, result);
    OneMoreSet(result, sets[i]);
    ChosenTaken(sets, i, result, size, maxUnpropagated, maxCartesianSize);
    assert size * |sets[i]| == |sets[i]| * size;
  }

  lemma TakingSkip(f: set<Clause>, sets: seq<seq<seq<Lit>>>, i: nat, result: seq<seq<seq<Lit>>>, size: nat,
                   maxUnpropagated: nat, maxCartesianSize: nat)
    requires i < |sets| && Taking(f, sets, i, result, size, maxUnpropagated, maxCartesianSize)
    requires |sets[i]| > maxUnpropagated || |sets[i]| * size > maxCartesianSize
    ensures Taking(f, sets, i + 1, result, size, maxUnpropagated, maxCartesianSize)
  {
    hide Product, Sizes, AllReduce, Chosen;
    ChosenSkipped(sets, i, result, size, maxUnpropagated, maxCartesianSize);
  }

  lemma TakingEnd(f: set<Clause>, sets: seq<seq<seq<Lit>>>, result: seq<seq<seq<Lit>>>, size: nat, maxUnpropagated: nat,
                  maxCartesianSize: nat)
    requires Taking(f, sets, |sets|, result, size, maxUnpropagated, maxCartesianSize)
    ensures AllReduce(f, result) && forall i :: 0 <= i < |result| ==> result[i] in sets
    ensures result != [] ==> Product(Sizes(result)) <= maxCartesianSize
    ensures forall i :: 0 <= i < |sets| ==>
              sets[i] in result || |sets[i]| > maxUnpropagated || Product(Sizes(result)) * |sets[i]| > maxCartesianSize
    ensures Product(Sizes(result)) <= maxCartesianSize || Product(Sizes(result)) < Pow2(64)
    ensures result == Picked(sets, |sets|, maxUnpropagated, maxCartesianSize)
  {
    hide Product, Sizes, AllReduce, Chosen, Pow2, Picked;
    NoSets();
    ChosenAll(sets, result, size, maxUnpropagated, maxCartesianSize);
  }

  /** The first n sets have been taken, or are too large, on their own or together with what has been taken. */
  ghost predicate Chosen(sets: seq<seq<seq<Lit>>>, n: nat, result: seq<seq<seq<Lit>>>, size: nat, maxUnpropagated: nat,
                         maxCartesianSize: nat) {
    forall j :: 0 <= j < n && j < |sets| ==>
      sets[j] in result || |sets[j]| > maxUnpropagated || size * |sets[j]| > maxCartesianSize
  }

  lemma ChosenTaken(sets: seq<seq<seq<Lit>>>, i: nat, result: seq<seq<seq<Lit>>>, size: nat, maxUnpropagated: nat,
                    maxCartesianSize: nat)
    requires i < |sets| && sets[i] != [] && Chosen(sets, i, result, size, maxUnpropagated, maxCartesianSize)
    ensures Chosen(sets, i + 1, result + [sets[i]], size * |sets[i]|, maxUnpropagated, maxCartesianSize)
  {
    assert sets[i] in result + [sets[i]];
    forall j | 0 <= j < i && sets[j] !in result && |sets[j]| <= maxUnpropagated
      ensures size * |sets[i]| * |sets[j]| > maxCartesianSize
    {
      Larger(size, |sets[i]|, |sets[j]|);
    }
  }

  lemma ChosenSkipped(sets: seq<seq<seq<Lit>>>, i: nat, result: seq<seq<seq<Lit>>>, size: nat, maxUnpropagated: nat,
                      maxCartesianSize: nat)
    requires i < |sets| && Chosen(sets, i, result, size, maxUnpropagated, maxCartesianSize)
    requires |sets[i]| > maxUnpropagated || |sets[i]| * size > maxCartesianSize
    ensures Chosen(sets, i + 1, result, size, maxUnpropagated, maxCartesianSize)
  {
    assert size * |sets[i]| == |sets[i]| * size;
  }

  lemma ChosenAll(sets: seq<seq<seq<Lit>>>, result: seq<seq<seq<Lit>>>, size: nat, maxUnpropagated: nat,
                  maxCartesianSize: nat)
    requires Chosen(sets, |sets|, result, size, maxUnpropagated, maxCartesianSize)
    ensures forall i :: 0 <= i < |sets| ==>
              sets[i] in result || |sets[i]| > maxUnpropagated || size * |sets[i]| > maxCartesianSize
  {
  }

  lemma ReducesMore(f: set<Clause>, sets: seq<seq<seq<Lit>>>, i: nat, result: seq<seq<seq<Lit>>>)
    requires AllReduce(f, sets) && AllReduce(f, result) && i < |sets|
    ensures sets[i] != [] && AllReduce(f, result + [sets[i]])
  {
    hide Reduces;
  }

  /** The product only grows. */
  lemma Larger(size: nat, factor: nat, other: nat)
    requires factor > 0
    ensures size * factor * other >= size * other
  {
    TimesStep(size, 1, factor);
    assert size * factor >= size * 1;
    assert other * (size * factor) == size * factor * other && other * size == size * other;
    TimesStep(other, size, size * factor);
  }

  lemma NoSets()
    ensures Product(Sizes([])) == 1 && 1 < Pow2(64)
  {
    Pow2Grows(1, 64);
  }

  lemma OneMoreSet(sets: seq<seq<seq<Lit>>>, s: seq<seq<Lit>>)
    ensures Product(Sizes(sets + [s])) == Product(Sizes(sets)) * |s|
  {
    var r := Sizes(sets + [s]);
    assert r[..|sets|] == Sizes(sets);
  }

  lemma OneSet(f: set<Clause>, sets: seq<seq<seq<Lit>>>, it: nat)
    requires AllReduce(f, sets) && it < |sets|
    ensures AllReduce(f, [sets[it]]) && Product(Sizes([sets[it]])) == |sets[it]| < Pow2(64)
  {
    hide Covers;
    assert Reduces(f, sets[it]);
    OneMoreSet([], sets[it]);
    assert [] + [sets[it]] == [sets[it]];
    NoSets();
  }

  /** The search is over the product of what is selected from the assignments that remain. */
  ghost predicate ReducedTo(base: seq<Lit>, rbs: seq<Backdoor>, conf: seq<Lit> -> bool, maxUnpropagated: nat,
                            maxCartesianSize: nat, kind: Kind) {
    && Enumerable(rbs) && kind.Cartesian?
    && Selection(Remaining(base, rbs, conf), kind.sets, maxUnpropagated, maxCartesianSize)
  }

  /** Reduces the formula, under a base assumption, to the assignments of a search, or finds that nothing is left. */
  method FindRb(ghost f: set<Clause>, base: seq<Lit>, rbs: seq<Backdoor>, conf: seq<Lit> -> bool, seqSplitSamples: nat,
                maxThreads: nat, maxUnpropagated: nat, maxCartesianSize: nat) returns (r: Reduction)
    requires SoundProp(f, conf) && SoundBackdoors(f, base, rbs) && rbs != [] && seqSplitSamples > 0 && maxThreads > 0
    ensures r.SbsFound? ==> UnsatUnder(f, base)
    ensures r.SbsFound? <==> !AllLeave(base, rbs, conf)
    ensures r.Reduced? ==> ReducedTo(base, rbs, conf, maxUnpropagated, maxCartesianSize, r.search.kind)
    ensures r.Reduced? ==> fresh(r.search) && r.search.Whole() && r.search.done == 0 && CoversBy(f, r.search.kind)
                           && (Count(r.search.kind) <= maxCartesianSize || Count(r.search.kind) < Pow2(64))
  {
    hide SoundProp, Covers, CoversBy, Reduces, Pow2, Selection, AllLeave, Remaining, Picked;
    var sbsFound, nca := PreSolve(f, base, rbs, conf, seqSplitSamples, maxThreads);
    if sbsFound {
      return SbsFound;
    }
    var search := PrepareCartesian(f, nca, maxUnpropagated, maxCartesianSize);
    return Reduced(search);
  }
}
