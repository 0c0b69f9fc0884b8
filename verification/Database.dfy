/** What the clauses and the trail say about the formula they came from. */
module Database {
  import opened Cnf
  import opened Trails
  import opened Backtracking

  /** Everything stored, and every literal of level 0, follows from the formula. */
  ghost predicate Derived(t: Trail, ca: seq<Clause>, live: set<int>, f: set<Clause>) {
    && (forall cr :: cr in live && 0 <= cr < |ca| ==> Entails(f, ca[cr]))
    && (forall i :: 0 <= i < |t.lits| && t.LevelAt(i) == 0 ==> Entails(f, [t.lits[i]]))
  }

  ghost predicate MeetsDb(m: Model, t: Trail, ca: seq<Clause>, refs: set<int>) {
    && (forall cr :: cr in refs && 0 <= cr < |ca| ==> Satisfies(m, ca[cr]))
    && (forall i :: 0 <= i < |t.lits| && t.LevelAt(i) == 0 ==> Holds(m, t.lits[i]))
  }

  /** The problem clauses and the literals of level 0 say all that the formula says. */
  ghost predicate Covering(t: Trail, ca: seq<Clause>, problem: set<int>, f: set<Clause>) {
    forall m :: MeetsDb(m, t, ca, problem) ==> Models(m, f)
  }

  lemma ModelMeetsDb(m: Model, t: Trail, ca: seq<Clause>, live: set<int>, f: set<Clause>)
    requires Derived(t, ca, live, f) && Models(m, f)
    ensures MeetsDb(m, t, ca, live)
  {
    forall i | 0 <= i < |t.lits| && t.LevelAt(i) == 0
      ensures Holds(m, t.lits[i])
    {
      assert Satisfies(m, [t.lits[i]]);
    }
  }

  /** v is forced by hypothesis, or its reason speaks only of variables in the cone and of true literals. */
  ghost predicate InCone(t: Trail, ca: seq<Clause>, m: Model, cone: set<Var>, x: Lit) {
    || Holds(m, x)
    || (t.Reason(x.v) != UNDEF && 0 <= t.Reason(x.v) < |ca|
        && forall q :: q in ca[t.Reason(x.v)] && q != x ==> q.v in cone || Holds(m, Neg(q)))
  }

  /** Implication along the trail: in a model of the clauses, every trail literal in a set closed under
      reasons is true. This one induction over trail positions carries conflict analysis, minimisation,
      the final conflict and vivification. */
  lemma {:induction false} ConeTrue(t: Trail, ca: seq<Clause>, live: set<int>, m: Model, cone: set<Var>, k: nat)
    requires Consistent(t) && Justified(t, ca, live) && k <= |t.lits|
    requires forall cr :: cr in live && 0 <= cr < |ca| ==> Satisfies(m, ca[cr])
    requires forall i :: 0 <= i < |t.lits| && t.lits[i].v in cone ==> InCone(t, ca, m, cone, t.lits[i])
    ensures forall i :: 0 <= i < k && t.lits[i].v in cone ==> Holds(m, t.lits[i])
  {
    if k > 0 {
      ConeTrue(t, ca, live, m, cone, k - 1);
      var x := t.lits[k - 1];
      if x.v in cone && t.Reason(x.v) != UNDEF {
        assert InCone(t, ca, m, cone, x) && Antecedents(t, ca, live, k - 1);
        var c := ca[t.Reason(x.v)];
        if !Holds(m, x) {
          forall q | q in c && q != x
            ensures !Holds(m, q)
          {
            var j :| 0 <= j < k - 1 && t.lits[j] == Neg(q);
          }
        }
      }
    }
  }

  /** All the literals of c are false on the trail, above level 0 only within the cone: then no model of the
      clauses makes every hypothesis of the cone true. */
  lemma FalseClauseRefutes(t: Trail, ca: seq<Clause>, live: set<int>, m: Model, cone: set<Var>, c: Clause)
    requires Consistent(t) && Justified(t, ca, live)
    requires forall cr :: cr in live && 0 <= cr < |ca| ==> Satisfies(m, ca[cr])
    requires forall i :: 0 <= i < |t.lits| && t.lits[i].v in cone ==> InCone(t, ca, m, cone, t.lits[i])
    requires t.AllFalse(c) && forall q :: q in c ==> q.v in cone || Holds(m, Neg(q))
    ensures !Satisfies(m, c)
  {
    ConeTrue(t, ca, live, m, cone, |t.lits|);
    forall q | q in c
      ensures !Holds(m, q)
    {
      FalseIsBefore(t, q);
      var j :| 0 <= j < |t.lits| && t.lits[j] == Neg(q);
    }
  }

  // ---------- What keeps the database sound ----------

  lemma EnqueueDerived(t: Trail, p: Lit, level: nat, from: int, ca: seq<Clause>, live: set<int>, problem: set<int>,
                       f: set<Clause>)
    requires Consistent(t) && p.v < |t.vardata| && t.Undef(p) && Derived(t, ca, live, f) && Covering(t, ca, problem, f)
    requires level == 0 ==> Entails(f, [p])
    ensures Derived(Enqueue(t, p, level, from), ca, live, f) && Covering(Enqueue(t, p, level, from), ca, problem, f)
  {
    var t' := Enqueue(t, p, level, from);
    forall i | 0 <= i < |t.lits|
      ensures t'.lits[i] == t.lits[i] && t'.LevelAt(i) == t.LevelAt(i)
    {
      assert t.True(t.lits[i]);
    }
    forall m | MeetsDb(m, t', ca, problem)
      ensures MeetsDb(m, t, ca, problem)
    {
      forall i | 0 <= i < |t.lits| && t.LevelAt(i) == 0
        ensures Holds(m, t.lits[i])
      {
        assert t'.LevelAt(i) == 0;
      }
    }
  }

  /** Enqueueing what a clause implies. */
  lemma ImpliedDerived(t: Trail, cr: int, p: Lit, level: nat, ca: seq<Clause>, live: set<int>, problem: set<int>,
                       f: set<Clause>)
    requires Consistent(t) && p.v < |t.vardata| && t.Undef(p) && Derived(t, ca, live, f) && Covering(t, ca, problem, f)
    requires cr in live && 0 <= cr < |ca| && Implies(t, ca[cr], p, level)
    ensures Derived(Enqueue(t, p, level, cr), ca, live, f) && Covering(Enqueue(t, p, level, cr), ca, problem, f)
  {
    if level == 0 {
      UnitEntailed(t, ca, live, f, cr, p);
    }
    EnqueueDerived(t, p, level, cr, ca, live, problem, f);
  }

  /** A clause all of whose other literals are false at level 0 entails its last one. */
  lemma UnitEntailed(t: Trail, ca: seq<Clause>, live: set<int>, f: set<Clause>, cr: int, p: Lit)
    requires Consistent(t) && Derived(t, ca, live, f) && cr in live && 0 <= cr < |ca|
    requires forall q :: q in ca[cr] && q != p ==> t.False(q) && t.Level(q.v) == 0
    ensures Entails(f, [p])
  {
    forall m | Models(m, f)
      ensures Satisfies(m, [p])
    {
      assert Satisfies(m, ca[cr]);
      var q :| q in ca[cr] && Holds(m, q);
      if q != p {
        FalseIsBefore(t, q);
        var i :| 0 <= i < |t.lits| && t.lits[i] == Neg(q);
        assert t.LevelAt(i) == 0 && Satisfies(m, [t.lits[i]]);
      }
      assert p in [p];
    }
  }

  lemma FalseInModel(m: Model, t: Trail, ca: seq<Clause>, live: set<int>, f: set<Clause>, c: Clause)
    requires Consistent(t) && Derived(t, ca, live, f) && Models(m, f)
    requires forall q :: q in c ==> t.False(q) && t.Level(q.v) == 0
    ensures !Satisfies(m, c)
  {
    forall q | q in c
      ensures !Holds(m, q)
    {
      FalseIsBefore(t, q);
      var i :| 0 <= i < |t.lits| && t.lits[i] == Neg(q);
      assert t.LevelAt(i) == 0 && Satisfies(m, [t.lits[i]]);
    }
  }

  /** A clause false at level 0 refutes the formula. */
  lemma FalseAtRoot(t: Trail, ca: seq<Clause>, live: set<int>, f: set<Clause>, cr: int)
    requires Consistent(t) && Derived(t, ca, live, f) && cr in live && 0 <= cr < |ca|
    requires forall q :: q in ca[cr] ==> t.False(q) && t.Level(q.v) == 0
    ensures forall m :: !Models(m, f)
  {
    forall m
      ensures !Models(m, f)
    {
      if Models(m, f) {
        FalseInModel(m, t, ca, live, f, ca[cr]);
      }
    }
  }

  lemma RearrangeDerived(t: Trail, ca: seq<Clause>, live: set<int>, problem: set<int>, f: set<Clause>, cr: int,
                         c: Clause)
    requires 0 <= cr < |ca| && SameLits(c, ca[cr])
    requires Derived(t, ca, live, f) && Covering(t, ca, problem, f)
    ensures Derived(t, ca[cr := c], live, f) && Covering(t, ca[cr := c], problem, f)
  {
    var ca' := ca[cr := c];
    assert forall m :: Satisfies(m, ca[cr]) <==> Satisfies(m, c);
    forall m | MeetsDb(m, t, ca', problem)
      ensures MeetsDb(m, t, ca, problem)
    {
      forall cr2 | cr2 in problem && 0 <= cr2 < |ca|
        ensures Satisfies(m, ca[cr2])
      {
        assert Satisfies(m, ca'[cr2]);
      }
    }
  }

  lemma CancelDerived(t: Trail, ca: seq<Clause>, live: set<int>, problem: set<int>, f: set<Clause>, b: nat)
    requires Derived(t, ca, live, f) && Covering(t, ca, problem, f) && b < |t.lim|
    ensures Derived(CancelUntil(t, b), ca, live, f) && Covering(CancelUntil(t, b), ca, problem, f)
  {
    var t' := CancelUntil(t, b);
    var kept := Kept(t, b, |t.lits|);
    KeptIsExact(t, b, |t.lits|);
    forall i | 0 <= i < |t'.lits| && t'.LevelAt(i) == 0
      ensures Entails(f, [t'.lits[i]])
    {
      assert t.LevelAt(kept[i]) == 0;
    }
    forall m | MeetsDb(m, t', ca, problem)
      ensures MeetsDb(m, t, ca, problem)
    {
      forall p | 0 <= p < |t.lits| && t.LevelAt(p) == 0
        ensures Holds(m, t.lits[p])
      {
        var i := NewPosition(t, b, p);
        assert t'.lits[i] == t.lits[p] && t'.LevelAt(i) == 0;
      }
    }
  }

  lemma LearnDerived(t: Trail, ca: seq<Clause>, live: set<int>, problem: set<int>, f: set<Clause>, c: Clause)
    requires Derived(t, ca, live, f) && Covering(t, ca, problem, f) && Entails(f, c)
    requires forall cr :: cr in problem ==> 0 <= cr < |ca|
    ensures Derived(t, ca + [c], live + {|ca|}, f) && Covering(t, ca + [c], problem, f)
  {
    forall m | MeetsDb(m, t, ca + [c], problem)
      ensures MeetsDb(m, t, ca, problem)
    {
      forall cr | cr in problem && 0 <= cr < |ca|
        ensures Satisfies(m, ca[cr])
      {
        assert Satisfies(m, (ca + [c])[cr]);
      }
    }
  }
}
