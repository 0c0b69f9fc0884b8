/** addClause_: normalising a problem clause under the level-0 assignment and storing what is left. */
module Adding {
  import opened Cnf
  import opened Trails
  import opened Watching
  import opened Database
  import opened Kernel
  import opened Steps
  import opened Sorting

  function LitLess(a: Lit, b: Lit): bool {
    a.ToInt() < b.ToInt()
  }

  lemma LitLessIsStrictWeak()
    ensures StrictWeak(LitLess)
  {
  }

  /** A literal is true, or two literals are complementary: the clause says nothing new. */
  ghost predicate Redundant(t: Trail, c: Clause) {
    || (exists l :: l in c && t.True(l))
    || (exists l :: l in c && Neg(l) in c && t.Undef(l))
  }

  /** d is c without its false literals and repetitions. */
  ghost predicate Reduces(t: Trail, c: Clause, d: Clause) {
    && Distinct(d)
    && (forall l :: l in d <==> l in c && !t.False(l))
    && (forall l :: l in d ==> t.Undef(l) && Neg(l) !in d)
  }

  /** The pass over the sorted literals has come to index i: the first j entries are what it keeps. */
  ghost predicate Normalising(t: Trail, s: Clause, i: nat, kept: Clause) {
    && i <= |s|
    && (forall a, b :: 0 <= a < b < |kept| ==> kept[a].ToInt() < kept[b].ToInt())
    && (forall l :: l in kept ==> l in s[..i] && t.Undef(l) && Neg(l) !in kept)
    && (forall l :: l in s[..i] ==> t.False(l) || l in kept)
  }

  lemma NormaliseKeep(t: Trail, s: Clause, i: nat, kept: Clause)
    requires Normalising(t, s, i, kept) && i < |s| && Sorted(s, LitLess)
    requires !t.True(s[i]) && !t.False(s[i])
    requires kept != [] ==> s[i] != kept[|kept| - 1] && s[i] != Neg(kept[|kept| - 1])
    ensures Normalising(t, s, i + 1, kept + [s[i]])
  {
    var x := s[i];
    assert s[..i + 1] == s[..i] + [x];
    if kept != [] {
      var p := kept[|kept| - 1];
      assert p in s[..i];
      var k :| 0 <= k < i && s[k] == p;
      assert !LitLess(s[i], s[k]);
      assert p.ToInt() < x.ToInt();
      forall a | 0 <= a < |kept|
        ensures kept[a].ToInt() < x.ToInt() && kept[a] != Neg(x)
      {
        assert kept[a].ToInt() <= p.ToInt();
      }
    }
  }

  lemma NormaliseSkip(t: Trail, s: Clause, i: nat, kept: Clause)
    requires Normalising(t, s, i, kept) && i < |s| && (t.False(s[i]) || (kept != [] && s[i] == kept[|kept| - 1]))
    ensures Normalising(t, s, i + 1, kept)
  {
    assert s[..i + 1] == s[..i] + [s[i]];
  }

  lemma NormaliseEnd(t: Trail, c: Clause, s: Clause, kept: Clause)
    requires Normalising(t, s, |s|, kept) && multiset(s) == multiset(c)
    ensures Reduces(t, c, kept) && !Redundant(t, c)
  {
    assert s[..|s|] == s;
    SameElements(s, c);
    forall a, b | 0 <= a < b < |kept|
      ensures kept[a].v != kept[b].v
    {
      assert kept[a].ToInt() < kept[b].ToInt() && kept[a] in kept && kept[b] in kept;
      assert kept[b] != Neg(kept[a]);
    }
    forall l | l in c
      ensures t.False(l) || l in kept
    {
      assert l in s;
    }
  }

  lemma SameElements(s: Clause, c: Clause)
    requires multiset(s) == multiset(c)
    ensures forall l :: l in s <==> l in c
  {
    forall l
      ensures l in s <==> l in c
    {
      assert l in s <==> l in multiset(s);
      assert l in c <==> l in multiset(c);
    }
  }

  lemma EarlyReturn(t: Trail, c: Clause, s: Clause, i: nat, kept: Clause)
    requires Normalising(t, s, i, kept) && i < |s| && multiset(s) == multiset(c)
    requires t.True(s[i]) || (kept != [] && s[i] == Neg(kept[|kept| - 1]))
    ensures Redundant(t, c)
  {
    SameElements(s, c);
    assert s[i] in c;
    if !t.True(s[i]) {
      var p := kept[|kept| - 1];
      assert p in kept && p in s[..i];
      assert p in s && p in c;
    }
  }

  // ---------- What each outcome means for the formula ----------

  /** Every literal of level 0 is on the trail, and nothing else is. */
  ghost predicate AtRoot(t: Trail) {
    |t.lim| == 0
  }

  lemma RootLevels(t: Trail)
    requires Consistent(t) && Leveled(t) && AtRoot(t)
    ensures forall l :: t.True(l) || t.False(l) ==> t.Level(l.v) == 0
  {
    forall l | t.True(l) || t.False(l)
      ensures t.Level(l.v) == 0
    {
      assert t.OnTrail(l.v);
      var j :| 0 <= j < |t.lits| && t.lits[j].v == l.v;
      assert t.LevelAt(j) <= 0;
    }
  }

  lemma RootHolds(m: Model, t: Trail, ca: seq<Clause>, refs: set<int>, l: Lit)
    requires Consistent(t) && Leveled(t) && AtRoot(t) && MeetsDb(m, t, ca, refs)
    ensures t.True(l) ==> Holds(m, l)
    ensures t.False(l) ==> !Holds(m, l)
  {
    RootLevels(t);
    if t.True(l) || t.False(l) {
      assert t.OnTrail(l.v);
      var j :| 0 <= j < |t.lits| && t.lits[j].v == l.v;
      assert t.True(t.lits[j]) && t.LevelAt(j) == 0;
    }
  }

  lemma EntailsMore(f: set<Clause>, f': set<Clause>, c: Clause)
    requires Entails(f, c) && f <= f'
    ensures Entails(f', c)
  {
  }

  lemma DerivedMore(t: Trail, ca: seq<Clause>, live: set<int>, f: set<Clause>, c: Clause)
    requires Derived(t, ca, live, f)
    ensures Derived(t, ca, live, f + {c})
  {
    forall d | Entails(f, d)
      ensures Entails(f + {c}, d)
    {
      EntailsMore(f, f + {c}, d);
    }
  }

  /** A redundant clause adds nothing to the formula. */
  lemma RedundantAdds(s: State, qhead: nat, c: Clause)
    requires Ready(s, qhead) && AtRoot(s.t) && Redundant(s.t, c)
    ensures Ready(s.(f := s.f + {c}), qhead)
  {
    hide Lists01, WatchInv, ClausesOk, Justified, LevelsMaximal;
    DerivedMore(s.t, s.ca, s.live, s.f, c);
    forall m | MeetsDb(m, s.t, s.ca, s.problem)
      ensures Models(m, s.f + {c})
    {
      RedundantHolds(m, s.t, s.ca, s.problem, c);
    }
  }

  lemma RedundantHolds(m: Model, t: Trail, ca: seq<Clause>, refs: set<int>, c: Clause)
    requires Consistent(t) && Leveled(t) && AtRoot(t) && MeetsDb(m, t, ca, refs) && Redundant(t, c)
    ensures Satisfies(m, c)
  {
    if l :| l in c && t.True(l) {
      RootHolds(m, t, ca, refs, l);
    } else {
      var l :| l in c && Neg(l) in c && t.Undef(l);
      assert Holds(m, l) || Holds(m, Neg(l));
    }
  }

  /** Under the literals of level 0 the stored clause and the given one are equivalent. */
  lemma ReducedEquivalent(m: Model, t: Trail, ca: seq<Clause>, refs: set<int>, c: Clause, d: Clause)
    requires Consistent(t) && Leveled(t) && AtRoot(t) && MeetsDb(m, t, ca, refs) && Reduces(t, c, d)
    ensures Satisfies(m, c) <==> Satisfies(m, d)
  {
    if Satisfies(m, c) {
      var l :| l in c && Holds(m, l);
      RootHolds(m, t, ca, refs, l);
      assert l in d;
    }
  }

  lemma ReducedEntailed(t: Trail, ca: seq<Clause>, live: set<int>, f: set<Clause>, c: Clause, d: Clause)
    requires Consistent(t) && Leveled(t) && AtRoot(t) && Derived(t, ca, live, f) && Reduces(t, c, d)
    ensures Entails(f + {c}, d)
  {
    forall m | Models(m, f + {c})
      ensures Satisfies(m, d)
    {
      ModelMeetsDb(m, t, ca, live, f);
      ReducedEquivalent(m, t, ca, live, c, d);
    }
  }

  /** Storing the reduced clause as a problem clause. */
  lemma StoreReady(s: State, qhead: nat, c: Clause, d: Clause)
    requires Ready(s, qhead) && AtRoot(s.t) && Reduces(s.t, c, d) && |d| >= 2
    requires (forall q :: q in d ==> q.v < |s.t.vardata|)
    ensures Ready(Attached(s, d).(f := s.f + {c}, problem := s.problem + {|s.ca|}), qhead)
  {
    hide Derived, Covering, Lists01, WatchInv, ClausesOk, Consistent, Leveled, Justified, LevelsMaximal;
    ArenaTrail(s.t, s.ca, s.live, d);
    ArenaClauses(s.ca, s.live, |s.t.vardata|, d);
    AttachListing(s, d);
    ReducedEntailed(s.t, s.ca, s.live, s.f, c, d);
    StoreCovering(s, c, d);
    DerivedMore(s.t, s.ca, s.live, s.f, c);
    StoreDerived(s.t, s.ca, s.live, s.f + {c}, d);
    forall i: nat | i < qhead
      ensures WatchedOk(s.t, d, i)
    {
      UndefWatched(s.t, d, i);
    }
    ArenaWatchInv(s.t, s.ca, s.live, d, qhead);
  }

  lemma StoreDerived(t: Trail, ca: seq<Clause>, live: set<int>, f: set<Clause>, d: Clause)
    requires Derived(t, ca, live, f) && Entails(f, d)
    ensures Derived(t, ca + [d], live + {|ca|}, f)
  {
  }

  lemma StoreCovering(s: State, c: Clause, d: Clause)
    requires Covering(s.t, s.ca, s.problem, s.f) && (forall cr :: cr in s.problem ==> 0 <= cr < |s.ca|)
    requires Reduces(s.t, c, d)
    ensures Covering(s.t, s.ca + [d], s.problem + {|s.ca|}, s.f + {c})
  {
    forall m | MeetsDb(m, s.t, s.ca + [d], s.problem + {|s.ca|})
      ensures Models(m, s.f + {c})
    {
      forall cr | cr in s.problem && 0 <= cr < |s.ca|
        ensures Satisfies(m, s.ca[cr])
      {
        assert Satisfies(m, (s.ca + [d])[cr]);
      }
      assert Satisfies(m, (s.ca + [d])[|s.ca|]);
      assert MeetsDb(m, s.t, s.ca, s.problem);
    }
  }

  lemma UndefWatched(t: Trail, d: Clause, i: nat)
    requires Consistent(t) && forall l :: l in d ==> t.Undef(l)
    ensures WatchedOk(t, d, i)
  {
    if |d| >= 2 && i < |t.lits| {
      assert d[0] in d && d[1] in d && t.True(t.lits[i]);
    }
  }

  /** Enqueueing the reduced clause as a unit. */
  lemma UnitAdds(s: State, qhead: nat, c: Clause, p: Lit)
    requires Ready(s, qhead) && AtRoot(s.t) && Reduces(s.t, c, [p]) && p.v < |s.t.vardata|
    ensures Ready(s.(t := Enqueue(s.t, p, 0, UNDEF), f := s.f + {c}), qhead) && s.t.Undef(p)
  {
    hide Derived, Covering, Lists01, WatchInv, ClausesOk, Consistent, Leveled, Justified, LevelsMaximal;
    assert p in [p];
    ReducedEntailed(s.t, s.ca, s.live, s.f, c, [p]);
    var t' := Enqueue(s.t, p, 0, UNDEF);
    EnqueueKeepsInv(s.t, p, 0, UNDEF, s.ca, s.live);
    EnqueueWatchInv(s.t, p, 0, UNDEF, s.ca, s.live, qhead);
    SameSize(s.ca, s.live, |s.t.vardata|, |t'.vardata|);
    UnitDerived(s, c, p);
  }

  lemma UnitDerived(s: State, c: Clause, p: Lit)
    requires Consistent(s.t) && Stored(s) && p.v < |s.t.vardata| && s.t.Undef(p) && Entails(s.f + {c}, [p]) && p in c
    ensures Derived(Enqueue(s.t, p, 0, UNDEF), s.ca, s.live, s.f + {c})
    ensures Covering(Enqueue(s.t, p, 0, UNDEF), s.ca, s.problem, s.f + {c})
  {
    var t' := Enqueue(s.t, p, 0, UNDEF);
    forall i | 0 <= i < |s.t.lits|
      ensures t'.lits[i] == s.t.lits[i] && t'.LevelAt(i) == s.t.LevelAt(i)
    {
      assert s.t.True(s.t.lits[i]);
    }
    DerivedMore(s.t, s.ca, s.live, s.f, c);
    forall m | MeetsDb(m, t', s.ca, s.problem)
      ensures Models(m, s.f + {c})
    {
      assert t'.LevelAt(|s.t.lits|) == 0 && t'.lits[|s.t.lits|] == p;
      forall i | 0 <= i < |s.t.lits| && s.t.LevelAt(i) == 0
        ensures Holds(m, s.t.lits[i])
      {
        assert t'.LevelAt(i) == 0;
      }
      assert MeetsDb(m, s.t, s.ca, s.problem);
    }
  }

  /** Reduced to nothing, the clause refutes the formula. */
  lemma EmptyRefutes(s: State, qhead: nat, c: Clause)
    requires Ready(s, qhead) && AtRoot(s.t) && Reduces(s.t, c, [])
    ensures forall m :: !Models(m, s.f + {c})
  {
    hide Lists01, WatchInv, ClausesOk, Justified, LevelsMaximal, Covering;
    ReducedEntailed(s.t, s.ca, s.live, s.f, c, []);
    forall m
      ensures !Models(m, s.f + {c})
    {
      assert !Satisfies(m, []);
    }
  }

  lemma SortedWhole(c: Clause, s: Clause)
    requires Rearranged(c, s, 0, |c|) && Sorted(s[0..|c|], LitLess)
    ensures multiset(s) == multiset(c) && Sorted(s, LitLess) && |s| == |c|
  {
    assert s[0..|c|] == s && c[0..|c|] == c;
  }

  lemma NormaliseStart(t: Trail, s: Clause)
    ensures Normalising(t, s, 0, s[..0])
  {
  }

  lemma ReducedVars(t: Trail, c: Clause, d: Clause, n: nat)
    requires Reduces(t, c, d) && forall q :: q in c ==> q.v < n
    ensures forall q :: q in d ==> q.v < n
  {
  }

  lemma StillUnsat(f: set<Clause>, c: Clause)
    requires forall m :: !Models(m, f)
    ensures forall m :: !Models(m, f + {c})
  {
    forall m
      ensures !Models(m, f + {c})
    {
      assert Models(m, f + {c}) ==> Models(m, f);
    }
  }
}
