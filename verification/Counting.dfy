/** Counting the assignments that unit propagation refutes: in sequence, split over workers, and by subtrees. */
module Counting {
  import opened Cnf
  import opened Numbers
  import opened Enumeration

  /** What the propagation callback is told: whether there was a conflict, and the assumptions. */
  type Call = (bool, seq<Lit>)

  // ---------- Runs over a search ----------

  function CallAt(conf: seq<Lit> -> bool, base: seq<Lit>, kind: Kind, k: nat): Call
    requires WellFormed(kind)
  {
    (conf(base + Nth(kind, k)), base + Nth(kind, k))
  }

  /** The calls for n assignments from index lo on, each once and in order. */
  function AllCalls(conf: seq<Lit> -> bool, base: seq<Lit>, kind: Kind, lo: nat, n: nat): (r: seq<Call>)
    requires WellFormed(kind)
    ensures |r| == n
  {
    if n == 0 then [] else AllCalls(conf, base, kind, lo, n - 1) + [CallAt(conf, base, kind, lo + n - 1)]
  }

  lemma {:induction false} AllCallsAt(conf: seq<Lit> -> bool, base: seq<Lit>, kind: Kind, lo: nat, n: nat, i: nat)
    requires WellFormed(kind) && i < n
    ensures AllCalls(conf, base, kind, lo, n)[i] == CallAt(conf, base, kind, lo + i)
  {
    hide CallAt;
    if i < n - 1 {
      AllCallsAt(conf, base, kind, lo, n - 1, i);
    }
  }

  function Conflicts(calls: seq<Call>): nat {
    if calls == [] then 0 else Conflicts(calls[..|calls| - 1]) + if calls[|calls| - 1].0 then 1 else 0
  }

  /** Up to and including the first call that the callback answers with false. */
  function Until(goOn: (bool, seq<Lit>) -> bool, calls: seq<Call>): seq<Call> {
    if calls == [] then []
    else if !goOn(calls[0].0, calls[0].1) then [calls[0]]
    else [calls[0]] + Until(goOn, calls[1..])
  }

  lemma {:induction false} UntilStops(goOn: (bool, seq<Lit>) -> bool, calls: seq<Call>, n: nat)
    requires n < |calls| && forall i :: 0 <= i < n ==> goOn(calls[i].0, calls[i].1)
    ensures !goOn(calls[n].0, calls[n].1) || n == |calls| - 1 ==> Until(goOn, calls) == calls[..n + 1]
  {
    if n == 0 {
      assert calls[..1] == [calls[0]];
      assert |calls| == 1 ==> calls[1..] == [];
    } else {
      UntilStops(goOn, calls[1..], n - 1);
      assert calls[..n + 1] == [calls[0]] + calls[1..][..n];
    }
  }

  lemma {:induction false} UntilAll(goOn: (bool, seq<Lit>) -> bool, calls: seq<Call>)
    requires forall i :: 0 <= i < |calls| ==> goOn(calls[i].0, calls[i].1)
    ensures Until(goOn, calls) == calls
  {
    if calls != [] {
      UntilAll(goOn, calls[1..]);
    }
  }

  lemma {:induction false} ConflictsConcat(a: seq<Call>, b: seq<Call>)
    ensures Conflicts(a + b) == Conflicts(a) + Conflicts(b)
  {
    if b == [] {
      assert a + b == a;
    } else {
      ConflictsConcat(a, b[..|b| - 1]);
      assert (a + b)[..|a + b| - 1] == a + b[..|b| - 1];
    }
  }

  lemma {:induction false} AllCallsSplit(conf: seq<Lit> -> bool, base: seq<Lit>, kind: Kind, lo: nat, n: nat, m: nat)
    requires WellFormed(kind)
    ensures AllCalls(conf, base, kind, lo, n) + AllCalls(conf, base, kind, lo + n, m)
         == AllCalls(conf, base, kind, lo, n + m)
  {
    hide CallAt;
    if m > 0 {
      AllCallsSplit(conf, base, kind, lo, n, m - 1);
      assert lo + n + m - 1 == lo + (n + m) - 1;
    }
  }

  /** Propagates the base assumptions together with each assignment of the search, until the callback has enough; an
      empty search is still propagated once. */
  method SequentialPropagate(search: Search, base: seq<Lit>, conf: seq<Lit> -> bool, goOn: (bool, seq<Lit>) -> bool)
    returns (conflicts: nat, calls: seq<Call>)
    requires search.Valid()
    modifies search
    ensures conflicts == Conflicts(calls)
    ensures var left := if old(search.total) == 0 then 1 else old(search.total) - old(search.done);
      calls == Until(goOn, AllCalls(conf, base, search.kind, old(search.first) + old(search.done), left))
  {
    hide AllCalls, WellFormed, CallAt, Conflicts, Search.Valid, Until, Called;
    Current(search, conf, base);
    ghost var start, left := search.first + search.done, if search.total == 0 then 1 else search.total - search.done;
    ghost var all := AllCalls(conf, base, search.kind, start, left);
    conflicts, calls := 0, [];
    CalledNone(goOn, all);
    while true
      invariant search.Valid() && search.first == old(search.first) && search.total == old(search.total)
      invariant search.first + search.done == start + |calls| && |calls| < left
      invariant Called(goOn, all, calls, conflicts)
      decreases left - |calls|
    {
      AllCallsAt(conf, base, search.kind, start, left, |calls|);
      Current(search, conf, base);
      var assumptions := base + search.assignment;
      var conflict := conf(assumptions);
      CalledOne(goOn, all, calls, conflicts, conflict, assumptions);
      if conflict {
        conflicts := conflicts + 1;
      }
      calls := calls + [(conflict, assumptions)];
      if !goOn(conflict, assumptions) {
        return;
      }
      var more := search.Next();
      if !more {
        return;
      }
    }
  }

  /** The callback has been given the first of all calls, and has asked for more each time. */
  ghost predicate Called(goOn: (bool, seq<Lit>) -> bool, all: seq<Call>, calls: seq<Call>, conflicts: nat) {
    && |calls| <= |all| && calls == all[..|calls|] && conflicts == Conflicts(calls)
    && (forall i :: 0 <= i < |calls| ==> goOn(calls[i].0, calls[i].1))
  }

  lemma CalledNone(goOn: (bool, seq<Lit>) -> bool, all: seq<Call>)
    ensures Called(goOn, all, [], 0)
  {
  }

  lemma CalledOne(goOn: (bool, seq<Lit>) -> bool, all: seq<Call>, calls: seq<Call>, conflicts: nat, conflict: bool,
                  a: seq<Lit>)
    requires Called(goOn, all, calls, conflicts) && |calls| < |all| && all[|calls|] == (conflict, a)
    ensures var calls', conflicts' := calls + [(conflict, a)], if conflict then conflicts + 1 else conflicts;
      && conflicts' == Conflicts(calls')
      && (goOn(conflict, a) ==> Called(goOn, all, calls', conflicts'))
      && (!goOn(conflict, a) || |calls'| == |all| ==> Until(goOn, all) == calls')
  {
    hide Until;
    var calls' := calls + [(conflict, a)];
    assert calls' == all[..|calls| + 1] && calls'[..|calls'| - 1] == calls;
    UntilStops(goOn, all, |calls|);
  }

  lemma Current(search: Search, conf: seq<Lit> -> bool, base: seq<Lit>)
    requires search.Valid()
    ensures WellFormed(search.kind) && (search.total > 0 ==> search.done < search.total)
    ensures CallAt(conf, base, search.kind, search.first + search.done)
         == (conf(base + search.assignment), base + search.assignment)
  {
  }

  predicate AlwaysOn(goOn: (bool, seq<Lit>) -> bool, calls: seq<Call>) {
    forall i :: 0 <= i < |calls| ==> goOn(calls[i].0, calls[i].1)
  }

  lemma AlwaysAll(goOn: (bool, seq<Lit>) -> bool, calls: seq<Call>)
    requires AlwaysOn(goOn, calls)
    ensures Until(goOn, calls) == calls
  {
    UntilAll(goOn, calls);
  }

  // ---------- Splitting ----------

  /** The assignments part i of an unsplit search is given; an empty part is still given the one, number at, where the
      search stands. */
  function PartAll(conf: seq<Lit> -> bool, base: seq<Lit>, kind: Kind, total: nat, numSplit: nat, at: nat,
                   i: nat): seq<Call>
    requires WellFormed(kind) && numSplit > 0
  {
    if PartSize(total, numSplit, i) == 0 then AllCalls(conf, base, kind, at, 1)
    else AllCalls(conf, base, kind, PartStart(total, numSplit, i), PartSize(total, numSplit, i))
  }

  /** The calls made for the first n parts, each until the callback has enough. */
  function SplitCalls(goOn: (bool, seq<Lit>) -> bool, conf: seq<Lit> -> bool, base: seq<Lit>, kind: Kind, total: nat,
                      numSplit: nat, at: nat, n: nat): seq<Call>
    requires WellFormed(kind) && numSplit > 0
  {
    if n == 0 then []
    else
      var before := SplitCalls(goOn, conf, base, kind, total, numSplit, at, n - 1);
      before + Until(goOn, PartAll(conf, base, kind, total, numSplit, at, n - 1))
  }

  /** As many workers as there are, but none without its share of samples. */
  function Threads(total: nat, samples: nat, maxThreads: nat): (n: nat)
    requires total > samples > 0 && maxThreads > 0
    ensures 1 <= n <= total && n <= maxThreads
  {
    Workers(total, samples);
    if total / samples <= maxThreads then total / samples else maxThreads
  }

  /** Splits the search over workers if it is large, and adds up what they count. If the callback always asks for more,
      every assignment is propagated exactly once and in order. */
  method PropSearch(search: Search, base: seq<Lit>, conf: seq<Lit> -> bool, goOn: (bool, seq<Lit>) -> bool,
                    seqSplitSamples: nat, maxThreads: nat) returns (conflicts: nat, calls: seq<Call>)
    requires search.Whole() && search.done == 0 && seqSplitSamples > 0 && maxThreads > 0
    modifies search
    ensures conflicts == Conflicts(calls)
    ensures old(search.total) <= seqSplitSamples ==>
              calls == Until(goOn, AllCalls(conf, base, search.kind, 0, old(search.total)))
    ensures old(search.total) > seqSplitSamples ==>
              var n := Threads(old(search.total), seqSplitSamples, maxThreads);
              calls == SplitCalls(goOn, conf, base, search.kind, old(search.total), n, 0, n)
    ensures AlwaysOn(goOn, AllCalls(conf, base, search.kind, 0, old(search.total))) ==>
              calls == AllCalls(conf, base, search.kind, 0, old(search.total))
  {
    hide AllCalls, Until, WellFormed, PartStart, PartSize, Conflicts, AlwaysOn, SplitCalls;
    CountPositive(search.kind);
    ghost var total, all := search.total, AllCalls(conf, base, search.kind, 0, search.total);
    if search.total <= seqSplitSamples {
      conflicts, calls := SequentialPropagate(search, base, conf, goOn);
      if AlwaysOn(goOn, all) {
        AlwaysAll(goOn, all);
      }
      return;
    }
    var numThreads := Threads(search.total, seqSplitSamples, maxThreads);
    conflicts, calls := PropParts(search, base, conf, goOn, numThreads);
    if AlwaysOn(goOn, all) {
      SplitCallsAll(goOn, conf, base, search.kind, total, numThreads, 0, numThreads);
      PartsCover(total, numThreads);
    }
  }

  /** One worker for each of the parts; their counts are added up. */
  method PropParts(search: Search, base: seq<Lit>, conf: seq<Lit> -> bool, goOn: (bool, seq<Lit>) -> bool,
                   numThreads: nat)
    returns (conflicts: nat, calls: seq<Call>)
    requires search.Whole() && numThreads > 0
    ensures conflicts == Conflicts(calls)
    ensures calls == SplitCalls(goOn, conf, base, search.kind, search.total, numThreads,
                                if search.kind.Cartesian? then 0 else search.done, numThreads)
  {
    hide AllCalls, Until, WellFormed, PartStart, PartSize, Conflicts, Sum, PartAll;
    var futures: seq<nat> := [];
    calls := [];
    NothingCounted();
    ghost var at := if search.kind.Cartesian? then 0 else search.done;
    for index := 0 to numThreads
      invariant search.Whole() && |futures| == index && Sum(futures) == Conflicts(calls)
      invariant calls == SplitCalls(goOn, conf, base, search.kind, search.total, numThreads, at, index)
    {
      var count, partCalls := PropPart(search, base, conf, goOn, numThreads, index);
      SumPush(futures, count);
      ConflictsConcat(calls, partCalls);
      futures := futures + [count];
      calls := calls + partCalls;
    }
    conflicts := SumFutures(futures);
  }

  lemma NothingCounted()
    ensures Sum([]) == 0 && Conflicts([]) == 0
  {
  }

  /** What one worker does. */
  method PropPart(search: Search, base: seq<Lit>, conf: seq<Lit> -> bool, goOn: (bool, seq<Lit>) -> bool,
                  numThreads: nat, index: nat) returns (count: nat, calls: seq<Call>)
    requires search.Whole() && index < numThreads
    ensures count == Conflicts(calls)
    ensures calls == Until(goOn, PartAll(conf, base, search.kind, search.total, numThreads,
                                         if search.kind.Cartesian? then 0 else search.done, index))
  {
    hide AllCalls, Until, PartStart, PartSize, Conflicts;
    var part := search.SplitSearch(numThreads, index);
    count, calls := SequentialPropagate(part, base, conf, goOn);
  }

  /** If the callback always asks for more and no part is empty, the parts make the calls of the whole search. */
  lemma {:induction false} SplitCallsAll(goOn: (bool, seq<Lit>) -> bool, conf: seq<Lit> -> bool, base: seq<Lit>,
                                         kind: Kind, total: nat, numSplit: nat, at: nat, n: nat)
    requires WellFormed(kind) && 0 < numSplit <= total && n <= numSplit
    requires AlwaysOn(goOn, AllCalls(conf, base, kind, 0, total))
    ensures SplitCalls(goOn, conf, base, kind, total, numSplit, at, n)
         == AllCalls(conf, base, kind, 0, PartStart(total, numSplit, n))
  {
    hide AllCalls, Until, PartStart, PartSize, AlwaysOn;
    if n == 0 {
      NoCalls(conf, base, kind, total, numSplit);
    } else {
      SplitCallsAll(goOn, conf, base, kind, total, numSplit, at, n - 1);
      PartsCover(total, numSplit);
      PartWithin(total, numSplit, n - 1);
      ghost var lo, size := PartStart(total, numSplit, n - 1), PartSize(total, numSplit, n - 1);
      PartCalls(goOn, conf, base, kind, total, lo, size);
      AllCallsSplit(conf, base, kind, 0, lo, size);
      NextPart(total, numSplit, n - 1);
    }
  }

  lemma NoCalls(conf: seq<Lit> -> bool, base: seq<Lit>, kind: Kind, total: nat, numSplit: nat)
    requires WellFormed(kind) && numSplit > 0
    ensures PartStart(total, numSplit, 0) == 0 && AllCalls(conf, base, kind, 0, 0) == [] && Sum([]) == 0
    ensures Conflicts([]) == 0
  {
  }

  lemma Workers(total: nat, samples: nat)
    requires total > samples > 0
    ensures 1 <= total / samples <= total
  {
    TimesStep(samples, total / samples, 1);
    assert total == samples * (total / samples) + total % samples;
    TimesStep(total / samples, 0, samples);
    assert (total / samples) * samples == samples * (total / samples);
  }

  lemma PartCalls(goOn: (bool, seq<Lit>) -> bool, conf: seq<Lit> -> bool, base: seq<Lit>, kind: Kind, total: nat,
                  lo: nat, n: nat)
    requires WellFormed(kind) && lo + n <= total && AlwaysOn(goOn, AllCalls(conf, base, kind, 0, total))
    ensures Until(goOn, AllCalls(conf, base, kind, lo, n)) == AllCalls(conf, base, kind, lo, n)
  {
    hide CallAt, AllCalls, Until;
    var all, part := AllCalls(conf, base, kind, 0, total), AllCalls(conf, base, kind, lo, n);
    forall i | 0 <= i < n
      ensures goOn(part[i].0, part[i].1)
    {
      AllCallsAt(conf, base, kind, lo, n, i);
      AllCallsAt(conf, base, kind, 0, total, lo + i);
    }
    UntilAll(goOn, part);
  }

  function Sum(s: seq<nat>): nat {
    if s == [] then 0 else Sum(s[..|s| - 1]) + s[|s| - 1]
  }

  lemma SumPush(s: seq<nat>, n: nat)
    ensures Sum(s + [n]) == Sum(s) + n
  {
    assert (s + [n])[..|s|] == s;
  }

  method SumFutures(futures: seq<nat>) returns (result: nat)
    ensures result == Sum(futures)
  {
    result := 0;
    for i := 0 to |futures|
      invariant result == Sum(futures[..i])
    {
      assert futures[..i + 1] == futures[..i] + [futures[i]];
      SumPush(futures[..i], futures[i]);
      result := result + futures[i];
    }
    assert futures[..|futures|] == futures;
  }

  /** The counts of the first n parts, added up. */
  function SplitCount(conf: seq<Lit> -> bool, base: seq<Lit>, kind: Kind, total: nat, numSplit: nat, at: nat,
                      n: nat): nat
    requires WellFormed(kind) && numSplit > 0
  {
    if n == 0 then 0
    else
      var before := SplitCount(conf, base, kind, total, numSplit, at, n - 1);
      before + Conflicts(PartAll(conf, base, kind, total, numSplit, at, n - 1))
  }

  lemma {:induction false} SplitCallsCount(goOn: (bool, seq<Lit>) -> bool, conf: seq<Lit> -> bool, base: seq<Lit>,
                                           kind: Kind, total: nat, numSplit: nat, at: nat, n: nat)
    requires WellFormed(kind) && numSplit > 0 && n <= numSplit
    requires AlwaysOn(goOn, AllCalls(conf, base, kind, 0, total))
    ensures Conflicts(SplitCalls(goOn, conf, base, kind, total, numSplit, at, n))
         == SplitCount(conf, base, kind, total, numSplit, at, n)
  {
    hide AllCalls, Until, PartStart, PartSize, AlwaysOn, Conflicts, PartAll;
    if n == 0 {
      NothingCounted();
    } else {
      SplitCallsCount(goOn, conf, base, kind, total, numSplit, at, n - 1);
      PartUntil(goOn, conf, base, kind, total, numSplit, at, n - 1);
      ConflictsConcat(SplitCalls(goOn, conf, base, kind, total, numSplit, at, n - 1),
                      PartAll(conf, base, kind, total, numSplit, at, n - 1));
    }
  }

  lemma PartUntil(goOn: (bool, seq<Lit>) -> bool, conf: seq<Lit> -> bool, base: seq<Lit>, kind: Kind, total: nat,
                  numSplit: nat, at: nat, i: nat)
    requires WellFormed(kind) && i < numSplit && AlwaysOn(goOn, AllCalls(conf, base, kind, 0, total))
    ensures Until(goOn, PartAll(conf, base, kind, total, numSplit, at, i))
         == PartAll(conf, base, kind, total, numSplit, at, i)
  {
    hide AllCalls, PartStart, PartSize, AlwaysOn;
    if PartSize(total, numSplit, i) == 0 {
      var one := AllCalls(conf, base, kind, at, 1);
      assert one[1..] == [] && [one[0]] + [] == one;
    } else {
      PartWithin(total, numSplit, i);
      PartCalls(goOn, conf, base, kind, total, PartStart(total, numSplit, i), PartSize(total, numSplit, i));
    }
  }

  /** With a callback that always asks for more, the counts of the parts add up to that of the whole search exactly when
      no part is empty, or the assignment number at, where empty parts stand, is not in conflict. */
  lemma SplitCountExact(goOn: (bool, seq<Lit>) -> bool, conf: seq<Lit> -> bool, base: seq<Lit>, kind: Kind, total: nat,
                        numSplit: nat, at: nat)
    requires WellFormed(kind) && numSplit > 0 && AlwaysOn(goOn, AllCalls(conf, base, kind, 0, total))
    ensures Conflicts(SplitCalls(goOn, conf, base, kind, total, numSplit, at, numSplit))
            == Conflicts(AllCalls(conf, base, kind, 0, total))
       <==> numSplit <= total || !conf(base + Nth(kind, at))
  {
    hide AllCalls, Conflicts, PartStart, PartSize, SplitCount, Nth, SplitCalls, AlwaysOn;
    SplitCallsCount(goOn, conf, base, kind, total, numSplit, at, numSplit);
    PartsCover(total, numSplit);
    SplitCountIs(conf, base, kind, total, numSplit, at, numSplit);
    if total < numSplit {
      LastEmpty(total, numSplit);
    }
  }

  /** Two workers for a single assignment, which is in conflict, count two conflicts. */
  lemma OverSplitExample()
    ensures var goOn, conf := (_: bool, _: seq<Lit>) => true, (_: seq<Lit>) => true;
      && Conflicts(SplitCalls(goOn, conf, [], Single, 1, 2, 0, 2)) != Conflicts(AllCalls(conf, [], Single, 0, 1))
  {
    var goOn, conf := (_: bool, _: seq<Lit>) => true, (_: seq<Lit>) => true;
    SplitCountExact(goOn, conf, [], Single, 1, 2, 0);
  }

  lemma LastEmpty(total: nat, numSplit: nat)
    requires total < numSplit
    ensures PartSize(total, numSplit, numSplit - 1) == 0
  {
    assert total / numSplit == 0 && total % numSplit == total;
  }

  lemma OneCall(conf: seq<Lit> -> bool, base: seq<Lit>, kind: Kind, at: nat)
    requires WellFormed(kind)
    ensures Conflicts(AllCalls(conf, base, kind, at, 1)) == if conf(base + Nth(kind, at)) then 1 else 0
  {
    var calls := AllCalls(conf, base, kind, at, 1);
    AllCallsAt(conf, base, kind, at, 1, 0);
    assert calls[..0] == [];
  }

  /** The count of everything before part n. */
  function CountBefore(conf: seq<Lit> -> bool, base: seq<Lit>, kind: Kind, total: nat, numSplit: nat, n: nat): nat
    requires WellFormed(kind) && numSplit > 0
  {
    Conflicts(AllCalls(conf, base, kind, 0, PartStart(total, numSplit, n)))
  }

  lemma CountNext(conf: seq<Lit> -> bool, base: seq<Lit>, kind: Kind, total: nat, numSplit: nat, at: nat, n: nat)
    requires WellFormed(kind) && numSplit > 0
    ensures SplitCount(conf, base, kind, total, numSplit, at, n + 1)
         == SplitCount(conf, base, kind, total, numSplit, at, n)
          + Conflicts(PartAll(conf, base, kind, total, numSplit, at, n))
    ensures CountBefore(conf, base, kind, total, numSplit, n + 1)
         == CountBefore(conf, base, kind, total, numSplit, n)
          + Conflicts(AllCalls(conf, base, kind, PartStart(total, numSplit, n), PartSize(total, numSplit, n)))
    ensures Conflicts(PartAll(conf, base, kind, total, numSplit, at, n))
         == if PartSize(total, numSplit, n) > 0
            then Conflicts(AllCalls(conf, base, kind, PartStart(total, numSplit, n), PartSize(total, numSplit, n)))
            else if conf(base + Nth(kind, at)) then 1 else 0
    ensures Conflicts(AllCalls(conf, base, kind, PartStart(total, numSplit, n), 0)) == 0
  {
    hide AllCalls, PartStart, PartSize, Nth;
    var lo, size := PartStart(total, numSplit, n), PartSize(total, numSplit, n);
    OneCall(conf, base, kind, at);
    NextPart(total, numSplit, n);
    AllCallsSplit(conf, base, kind, 0, lo, size);
    ConflictsConcat(AllCalls(conf, base, kind, 0, lo), AllCalls(conf, base, kind, lo, size));
  }

  lemma {:induction false} SplitCountIs(conf: seq<Lit> -> bool, base: seq<Lit>, kind: Kind, total: nat, numSplit: nat,
                                        at: nat, n: nat)
    requires WellFormed(kind) && numSplit > 0
    ensures var split := SplitCount(conf, base, kind, total, numSplit, at, n);
      var whole := CountBefore(conf, base, kind, total, numSplit, n);
      && split >= whole
      && (!conf(base + Nth(kind, at)) || (forall i :: 0 <= i < n ==> PartSize(total, numSplit, i) > 0)
          ==> split == whole)
      && (conf(base + Nth(kind, at)) && n > 0 && PartSize(total, numSplit, n - 1) == 0 ==> split > whole)
  {
    hide AllCalls, PartStart, PartSize, Nth, SplitCount, CountBefore, PartAll, Conflicts;
    if n == 0 {
      NothingBefore(conf, base, kind, total, numSplit, at);
    } else {
      SplitCountIs(conf, base, kind, total, numSplit, at, n - 1);
      CountNext(conf, base, kind, total, numSplit, at, n - 1);
    }
  }

  lemma NothingBefore(conf: seq<Lit> -> bool, base: seq<Lit>, kind: Kind, total: nat, numSplit: nat, at: nat)
    requires WellFormed(kind) && numSplit > 0
    ensures SplitCount(conf, base, kind, total, numSplit, at, 0) == 0
    ensures CountBefore(conf, base, kind, total, numSplit, 0) == 0
  {
    NoCalls(conf, base, kind, total, numSplit);
  }

  // ---------- Counting by subtrees ----------

  /** The number of sign patterns of vars that, following the given literals, are in conflict. */
  function CountTree(conf: seq<Lit> -> bool, prefix: seq<Lit>, vars: seq<Var>): nat
    decreases |vars|
  {
    if vars == [] then if conf(prefix) then 1 else 0
    else
      var low := CountTree(conf, prefix + [Lit(vars[0], false)], vars[1..]);
      var high := CountTree(conf, prefix + [Lit(vars[0], true)], vars[1..]);
      low + high
  }

  /** The counts below the first n sign patterns of some variables that are fixed first. */
  function FixedSum(conf: seq<Lit> -> bool, base: seq<Lit>, fixed: seq<Var>, rest: seq<Var>, n: nat): nat {
    if n == 0 then 0 else FixedSum(conf, base, fixed, rest, n - 1) + CountTree(conf, base + Pattern(fixed, n - 1), rest)
  }

  lemma PatternSplit(vars: seq<Var>, k: nat)
    requires vars != []
    ensures Pattern(vars, k) == [Lit(vars[0], k % 2 == 1)] + Pattern(vars[1..], k / 2)
  {
  }

  /** Even numbers leave the first variable positive, odd ones make it negative. */
  lemma {:induction false} FixedPairs(conf: seq<Lit> -> bool, base: seq<Lit>, fixed: seq<Var>, rest: seq<Var>, m: nat)
    requires fixed != []
    ensures FixedSum(conf, base, fixed, rest, 2 * m)
         == FixedSum(conf, base + [Lit(fixed[0], false)], fixed[1..], rest, m)
          + FixedSum(conf, base + [Lit(fixed[0], true)], fixed[1..], rest, m)
  {
    hide CountTree, Pattern, FixedSum;
    var low, high := base + [Lit(fixed[0], false)], base + [Lit(fixed[0], true)];
    if m == 0 {
      FixedNone(conf, base, fixed, rest);
      FixedNone(conf, low, fixed[1..], rest);
      FixedNone(conf, high, fixed[1..], rest);
    } else {
      FixedPairs(conf, base, fixed, rest, m - 1);
      var e := 2 * (m - 1);
      PairPrefix(base, fixed, e);
      PairPrefix(base, fixed, e + 1);
      FixedNext(conf, base, fixed, rest, e);
      FixedNext(conf, base, fixed, rest, e + 1);
      FixedNext(conf, low, fixed[1..], rest, m - 1);
      FixedNext(conf, high, fixed[1..], rest, m - 1);
      assert e / 2 == m - 1 && (e + 1) / 2 == m - 1 && e + 1 + 1 == 2 * m;
    }
  }

  lemma FixedNone(conf: seq<Lit> -> bool, base: seq<Lit>, fixed: seq<Var>, rest: seq<Var>)
    ensures FixedSum(conf, base, fixed, rest, 0) == 0
  {
  }

  lemma PairPrefix(base: seq<Lit>, fixed: seq<Var>, k: nat)
    requires fixed != []
    ensures base + Pattern(fixed, k) == base + [Lit(fixed[0], k % 2 == 1)] + Pattern(fixed[1..], k / 2)
  {
    hide Pattern;
    PatternSplit(fixed, k);
  }

  lemma FixedNext(conf: seq<Lit> -> bool, base: seq<Lit>, fixed: seq<Var>, rest: seq<Var>, n: nat)
    ensures FixedSum(conf, base, fixed, rest, n + 1)
         == FixedSum(conf, base, fixed, rest, n) + CountTree(conf, base + Pattern(fixed, n), rest)
  {
  }

  /** Fixing some variables in all ways and counting below each misses nothing and counts nothing twice. */
  lemma {:induction false} FixedSumIsTree(conf: seq<Lit> -> bool, base: seq<Lit>, fixed: seq<Var>, rest: seq<Var>)
    ensures FixedSum(conf, base, fixed, rest, Pow2(|fixed|)) == CountTree(conf, base, fixed + rest)
    decreases |fixed|
  {
    hide FixedSum, Pattern, CountTree;
    if fixed == [] {
      NothingFixed(base);
      FixedNone(conf, base, fixed, rest);
      FixedNext(conf, base, fixed, rest, 0);
      assert fixed + rest == rest;
    } else {
      FixedPairs(conf, base, fixed, rest, Pow2(|fixed| - 1));
      FixedSumIsTree(conf, base + [Lit(fixed[0], false)], fixed[1..], rest);
      FixedSumIsTree(conf, base + [Lit(fixed[0], true)], fixed[1..], rest);
      assert (fixed + rest)[1..] == fixed[1..] + rest;
      BothSigns(conf, base, fixed + rest);
    }
  }

  lemma NothingFixed(base: seq<Lit>)
    ensures base + Pattern([], 0) == base
  {
  }

  lemma BothSigns(conf: seq<Lit> -> bool, prefix: seq<Lit>, vars: seq<Var>)
    requires vars != []
    ensures CountTree(conf, prefix, vars) == CountTree(conf, prefix + [Lit(vars[0], false)], vars[1..])
                                           + CountTree(conf, prefix + [Lit(vars[0], true)], vars[1..])
  {
  }

  /** A full search, sequential or split, counts exactly the conflicting sign patterns. */
  lemma FullSearchCounts(conf: seq<Lit> -> bool, base: seq<Lit>, vars: seq<Var>)
    requires |vars| < 64
    ensures Conflicts(AllCalls(conf, base, Full(vars), 0, Pow2(|vars|))) == CountTree(conf, base, vars)
  {
    CallsAreFixed(conf, base, vars, Pow2(|vars|));
    FixedSumIsTree(conf, base, vars, []);
    assert vars + [] == vars;
  }

  lemma {:induction false} CallsAreFixed(conf: seq<Lit> -> bool, base: seq<Lit>, vars: seq<Var>, n: nat)
    requires |vars| < 64
    ensures Conflicts(AllCalls(conf, base, Full(vars), 0, n)) == FixedSum(conf, base, vars, [], n)
  {
    if n > 0 {
      CallsAreFixed(conf, base, vars, n - 1);
      var calls := AllCalls(conf, base, Full(vars), 0, n);
      assert calls[..n - 1] == AllCalls(conf, base, Full(vars), 0, n - 1);
    }
  }

  /** Each sign pattern has exactly one index. */
  lemma PatternIndex(vars: seq<Var>, signs: seq<bool>, k: nat)
    requires |signs| == |vars| && k < Pow2(|vars|)
    ensures Number(signs) < Pow2(|vars|) && Pattern(vars, Number(signs)) == WithSigns(vars, signs)
    ensures Pattern(vars, k) == WithSigns(vars, signs) ==> k == Number(signs)
  {
    BitsNumber(signs);
    NumberBits(k, |vars|);
    if Pattern(vars, k) == WithSigns(vars, signs) {
      forall i | 0 <= i < |vars|
        ensures Bits(k, |vars|)[i] == signs[i]
      {
        assert Pattern(vars, k)[i] == WithSigns(vars, signs)[i];
      }
      assert Bits(k, |vars|) == signs;
    }
  }

  function VarsOf(a: seq<Lit>): (r: seq<Var>)
    ensures |r| == |a| && forall i :: 0 <= i < |a| ==> r[i] == a[i].v
  {
    seq(|a|, i requires 0 <= i < |a| => a[i].v)
  }

  /** What prop_check_subtree promises: the conflicting sign patterns of all but the first head literals. */
  function Subtree(conf: seq<Lit> -> bool, asgn: seq<Lit>, head: nat): nat
    requires head <= |asgn|
  {
    CountTree(conf, asgn[..head], VarsOf(asgn[head..]))
  }

  /** Gives the literals from position base on the signs that the bits of thread say. */
  method FixHead(vars: seq<Lit>, base: nat, fixedVars: nat, thread: nat) returns (asgn: seq<Lit>)
    requires base + fixedVars <= |vars|
    ensures asgn == vars[..base] + Pattern(VarsOf(vars[base..base + fixedVars]), thread) + vars[base + fixedVars..]
  {
    hide Pattern;
    asgn := vars;
    var headAsgn := thread;
    ghost var fixed := VarsOf(vars[base..base + fixedVars]);
    HeadStart(vars, base, fixed, thread);
    for i := 0 to fixedVars
      invariant HeadFixed(vars, asgn, base, fixed, i, thread, headAsgn)
    {
      HeadStep(vars, asgn, base, fixed, i, thread, headAsgn);
      asgn := asgn[base + i := Lit(asgn[base + i].v, headAsgn % 2 == 1)];
      headAsgn := headAsgn / 2;
    }
    HeadEnd(vars, asgn, base, fixed, thread, headAsgn);
  }

  /** The first i of the variables to fix have their signs; the bits for the others are still in bits. */
  ghost predicate HeadFixed(vars: seq<Lit>, asgn: seq<Lit>, base: nat, fixed: seq<Var>, i: nat, thread: nat,
                            bits: nat) {
    && base + |fixed| <= |vars| == |asgn| && i <= |fixed|
    && asgn[..base] == vars[..base] && asgn[base + i..] == vars[base + i..]
    && asgn[base..base + i] + Pattern(fixed[i..], bits) == Pattern(fixed, thread)
  }

  lemma HeadStart(vars: seq<Lit>, base: nat, fixed: seq<Var>, thread: nat)
    requires base + |fixed| <= |vars|
    ensures HeadFixed(vars, vars, base, fixed, 0, thread, thread)
  {
    hide Pattern;
    assert fixed[0..] == fixed;
  }

  lemma HeadStep(vars: seq<Lit>, asgn: seq<Lit>, base: nat, fixed: seq<Var>, i: nat, thread: nat, bits: nat)
    requires HeadFixed(vars, asgn, base, fixed, i, thread, bits) && i < |fixed|
    requires fixed == VarsOf(vars[base..base + |fixed|])
    ensures HeadFixed(vars, asgn[base + i := Lit(asgn[base + i].v, bits % 2 == 1)], base, fixed, i + 1, thread,
                      bits / 2)
  {
    hide Pattern;
    var asgn' := asgn[base + i := Lit(asgn[base + i].v, bits % 2 == 1)];
    assert asgn[base + i] == asgn[base + i..][0] == vars[base + i] && fixed[i] == vars[base + i].v;
    assert fixed[i..][1..] == fixed[i + 1..];
    PairPrefix(asgn[base..base + i], fixed[i..], bits);
    assert asgn'[base..base + (i + 1)] == asgn[base..base + i] + [asgn'[base + i]];
    assert asgn'[base + (i + 1)..] == asgn[base + i..][1..] == vars[base + (i + 1)..];
  }

  lemma HeadEnd(vars: seq<Lit>, asgn: seq<Lit>, base: nat, fixed: seq<Var>, thread: nat, bits: nat)
    requires HeadFixed(vars, asgn, base, fixed, |fixed|, thread, bits)
    ensures asgn == vars[..base] + Pattern(fixed, thread) + vars[base + |fixed|..]
  {
    assert fixed[|fixed|..] == [] && Pattern([], bits) == [];
    assert asgn == asgn[..base] + asgn[base..base + |fixed|] + asgn[base + |fixed|..];
  }

  /** Counts the conflicts below the first headSize literals, splitting the tree over workers by fixing more of it. */
  method PropTree(vars: seq<Lit>, headSize: nat, conf: seq<Lit> -> bool, treeMaxFixedVars: nat, treeSplitVars: nat)
    returns (conflicts: nat)
    requires headSize <= |vars|
    ensures conflicts == Subtree(conf, vars, headSize)
  {
    hide CountTree, FixedSum, Bits;
    var varsLeft := |vars| - headSize;
    if varsLeft <= treeSplitVars {
      return Subtree(conf, vars, headSize);
    }
    var mayBeFixed := varsLeft - treeSplitVars;
    var fixedVars := if treeMaxFixedVars <= mayBeFixed then treeMaxFixedVars else mayBeFixed;
    var threads := Pow2(fixedVars);
    var futures: seq<nat> := [];
    ghost var base, rest := vars[..headSize], VarsOf(vars[headSize + fixedVars..]);
    ghost var fixed := VarsOf(vars[headSize..headSize + fixedVars]);
    FixedNone(conf, base, fixed, rest);
    for thread := 0 to threads
      invariant Sum(futures) == FixedSum(conf, base, fixed, rest, thread)
    {
      var asgn := FixHead(vars, headSize, fixedVars, thread);
      assert asgn[..headSize + fixedVars] == base + Pattern(fixed, thread);
      assert asgn[headSize + fixedVars..] == vars[headSize + fixedVars..];
      var count := Subtree(conf, asgn, headSize + fixedVars);
      SumPush(futures, count);
      FixedNext(conf, base, fixed, rest, thread);
      futures := futures + [count];
    }
    conflicts := SumFutures(futures);
    FixedSumIsTree(conf, base, fixed, rest);
    assert VarsOf(vars[headSize..]) == fixed + rest;
  }

  /** The number of binary digits. */
  method Ilog2(x: nat) returns (result: nat)
    ensures x < Pow2(result) && (x > 0 ==> result > 0 && Pow2(result - 1) <= x)
  {
    hide Band;
    result := 0;
    var y := x;
    BandStart(x);
    while y != 0
      invariant Band(x, y, result) && (x > 0 && y == 0 ==> result > 0 && Pow2(result - 1) <= x)
    {
      BandHalf(x, y, result);
      result := result + 1;
      y := y / 2;
    }
    BandEnd(x, result);
  }

  /** After e halvings x has become y. */
  ghost predicate Band(x: nat, y: nat, e: nat) {
    y * Pow2(e) <= x < (y + 1) * Pow2(e)
  }

  lemma BandStart(x: nat)
    ensures Band(x, x, 0)
  {
    assert Pow2(0) == 1;
  }

  lemma BandEnd(x: nat, e: nat)
    requires Band(x, 0, e)
    ensures x < Pow2(e)
  {
  }

  lemma BandHalf(x: nat, y: nat, e: nat)
    requires y > 0 && Band(x, y, e)
    ensures Band(x, y / 2, e + 1) && (y / 2 == 0 ==> Pow2(e) <= x)
  {
    var p, h := Pow2(e), y / 2;
    assert Pow2(e + 1) == 2 * p;
    Doubled(h, p);
    assert y == 2 * h || y == 2 * h + 1;
  }

  lemma Doubled(h: nat, p: nat)
    ensures (2 * h) * p == h * (2 * p) && (2 * h + 1) * p == h * (2 * p) + p && (2 * h + 2) * p == (h + 1) * (2 * p)
  {
  }
}
