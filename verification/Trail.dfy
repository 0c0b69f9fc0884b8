/** The assignment stack of the solver, whose levels need not be sorted (chronological backtracking). */
module Trails {
  import opened Cnf

  /** CRef_Undef: no reason clause. Every other reference is an index into the clause arena. */
  const UNDEF: int := -1

  datatype VarData = VarData(reason: int, level: nat)

  /** A variable outside assigns has value l_Undef. */
  datatype Trail = Trail(lits: seq<Lit>, lim: seq<nat>, assigns: map<Var, bool>, vardata: seq<VarData>) {
    function Level(v: Var): nat {
      if v < |vardata| then vardata[v].level else 0
    }

    function Reason(v: Var): int {
      if v < |vardata| then vardata[v].reason else UNDEF
    }

    predicate True(l: Lit) {
      l.v in assigns && assigns[l.v] != l.neg
    }

    predicate False(l: Lit) {
      l.v in assigns && assigns[l.v] == l.neg
    }

    predicate Undef(l: Lit) {
      l.v !in assigns
    }

    predicate AllFalse(c: Clause) {
      forall q :: q in c ==> False(q)
    }

    /** The level of the literal at position i of the trail. */
    function LevelAt(i: nat): nat
      requires i < |lits|
    {
      Level(lits[i].v)
    }

    ghost predicate Before(l: Lit, i: int) {
      exists j :: 0 <= j < i && j < |lits| && lits[j] == l
    }

    ghost predicate OnTrail(v: Var) {
      exists j :: 0 <= j < |lits| && lits[j].v == v
    }
  }

  /** The trail lists each assigned variable once, with its value. */
  ghost predicate Consistent(t: Trail) {
    && (forall i :: 0 <= i < |t.lits| ==> t.lits[i].v < |t.vardata| && t.True(t.lits[i]))
    && (forall i, j :: 0 <= i < j < |t.lits| ==> t.lits[i].v != t.lits[j].v)
    && (forall v :: v in t.assigns ==> t.OnTrail(v))
  }

  ghost predicate LimSorted(t: Trail) {
    && (forall a, b :: 0 <= a <= b < |t.lim| ==> t.lim[a] <= t.lim[b])
    && (forall a :: 0 <= a < |t.lim| ==> t.lim[a] <= |t.lits|)
  }

  ghost predicate LevelsOpened(t: Trail) {
    forall i :: 0 <= i < |t.lits| ==> t.LevelAt(i) <= |t.lim|
  }

  /** No literal before the start of level b + 1 lies above level b. */
  ghost predicate BlocksLow(t: Trail) {
    forall b, i :: 0 <= b < |t.lim| && 0 <= i < t.lim[b] && i < |t.lits| ==> t.LevelAt(i) <= b
  }

  /** Only the first literal of a level above 0 can lack a reason. */
  ghost predicate OneDecision(t: Trail) {
    forall i, j :: 0 <= i < j < |t.lits| && t.LevelAt(i) == t.LevelAt(j) > 0 ==> t.Reason(t.lits[j].v) != UNDEF
  }

  /** The levels along the trail, which need not be sorted. */
  ghost predicate Leveled(t: Trail) {
    LimSorted(t) && LevelsOpened(t) && BlocksLow(t) && OneDecision(t)
  }

  /** The reason clause of position i implies its literal from literals falsified before it. */
  ghost predicate Antecedents(t: Trail, ca: seq<Clause>, live: set<int>, i: nat)
    requires i < |t.lits|
  {
    var x := t.lits[i];
    var r := t.Reason(x.v);
    r != UNDEF ==>
      && r in live && 0 <= r < |ca|
      && x in ca[r] && (|ca[r]| > 2 ==> ca[r][0] == x)
      && (forall q :: q in ca[r] && q != x ==> t.Before(Neg(q), i))
  }

  /** The literal at position i has the highest level among the other literals of its reason. */
  ghost predicate LevelIsMax(t: Trail, ca: seq<Clause>, i: nat)
    requires i < |t.lits|
  {
    var x := t.lits[i];
    var r := t.Reason(x.v);
    0 <= r < |ca| ==>
      && (forall q :: q in ca[r] ==> t.Level(q.v) <= t.Level(x.v))
      && (exists q :: q in ca[r] && q != x && t.Level(q.v) == t.Level(x.v))
  }

  ghost predicate Justified(t: Trail, ca: seq<Clause>, live: set<int>) {
    forall i :: 0 <= i < |t.lits| ==> Antecedents(t, ca, live, i)
  }

  ghost predicate LevelsMaximal(t: Trail, ca: seq<Clause>) {
    forall i :: 0 <= i < |t.lits| ==> LevelIsMax(t, ca, i)
  }

  ghost predicate TrailInv(t: Trail, ca: seq<Clause>, live: set<int>) {
    Consistent(t) && Leveled(t) && Justified(t, ca, live) && LevelsMaximal(t, ca)
  }

  // ---------- uncheckedEnqueue and newDecisionLevel ----------

  function Enqueue(t: Trail, p: Lit, level: nat, from: int): Trail
    requires p.v < |t.vardata|
  {
    Trail(t.lits + [p], t.lim, t.assigns[p.v := !p.neg], t.vardata[p.v := VarData(from, level)])
  }

  lemma EnqueuedValue(t: Trail, p: Lit, level: nat, from: int)
    requires p.v < |t.vardata|
    ensures Enqueue(t, p, level, from).assigns == t.assigns[p.v := !p.neg]
  {
  }

  function NewLevel(t: Trail): Trail {
    t.(lim := t.lim + [|t.lits|])
  }

  /** The clause `from` implies p at the given level: all else in it is false, at that level or below. */
  ghost predicate Implies(t: Trail, c: Clause, p: Lit, level: nat) {
    && p in c && (|c| > 2 ==> c[0] == p)
    && (forall q :: q in c && q != p ==> t.False(q) && t.Level(q.v) <= level)
    && (exists q :: q in c && q != p && t.Level(q.v) == level)
  }

  lemma FalseIsBefore(t: Trail, q: Lit)
    requires Consistent(t) && t.False(q)
    ensures t.Before(Neg(q), |t.lits|)
  {
    var j :| 0 <= j < |t.lits| && t.lits[j].v == q.v;
    assert t.True(t.lits[j]);
    assert t.lits[j] == Neg(q);
  }

  lemma EnqueueConsistent(t: Trail, p: Lit, level: nat, from: int)
    requires Consistent(t) && p.v < |t.vardata| && t.Undef(p)
    ensures Consistent(Enqueue(t, p, level, from))
    ensures forall i :: 0 <= i < |t.lits| ==> t.lits[i].v != p.v
  {
    var t' := Enqueue(t, p, level, from);
    forall i | 0 <= i < |t.lits|
      ensures t.lits[i].v != p.v && t'.True(t.lits[i])
    {
      assert t.True(t.lits[i]);
    }
    assert t'.lits[|t.lits|].v == p.v;
    forall v | v in t'.assigns
      ensures t'.OnTrail(v)
    {
      if v != p.v {
        StillOnTrail(t, p, level, from, v);
      }
    }
  }

  lemma StillOnTrail(t: Trail, p: Lit, level: nat, from: int, v: Var)
    requires p.v < |t.vardata| && t.OnTrail(v)
    ensures Enqueue(t, p, level, from).OnTrail(v)
  {
    var j :| 0 <= j < |t.lits| && t.lits[j].v == v;
    assert Enqueue(t, p, level, from).lits[j].v == v;
  }

  lemma EnqueueJustified(t: Trail, p: Lit, level: nat, from: int, ca: seq<Clause>, live: set<int>)
    requires Consistent(t) && Justified(t, ca, live) && p.v < |t.vardata| && t.Undef(p)
    requires from != UNDEF ==>
               from in live && 0 <= from < |ca| && p in ca[from] && (|ca[from]| > 2 ==> ca[from][0] == p)
    requires from != UNDEF ==> forall q :: q in ca[from] && q != p ==> t.False(q)
    ensures Justified(Enqueue(t, p, level, from), ca, live)
  {
    var t' := Enqueue(t, p, level, from);
    forall i | 0 <= i < |t'.lits|
      ensures Antecedents(t', ca, live, i)
    {
      if i < |t.lits| {
        assert Antecedents(t, ca, live, i) && t.True(t.lits[i]);
        var x, r := t.lits[i], t.Reason(t.lits[i].v);
        forall q | r != UNDEF && q in ca[r] && q != x
          ensures t'.Before(Neg(q), i)
        {
          var j :| 0 <= j < i && t.lits[j] == Neg(q);
          assert t'.lits[j] == Neg(q);
        }
      } else if from != UNDEF {
        forall q | q in ca[from] && q != p
          ensures t'.Before(Neg(q), i)
        {
          FalseIsBefore(t, q);
          var j :| 0 <= j < i && t.lits[j] == Neg(q);
          assert t'.lits[j] == Neg(q);
        }
      }
    }
  }

  /** Enqueueing keeps the levels: a literal with a reason goes at the highest level of its reason, and
      one without goes at level 0 or opens the newest level. */
  lemma EnqueueLeveled(t: Trail, p: Lit, level: nat, from: int)
    requires Leveled(t) && p.v < |t.vardata| && (forall i :: 0 <= i < |t.lits| ==> t.lits[i].v != p.v)
    requires level <= |t.lim|
    requires from == UNDEF && level > 0 ==> forall i :: 0 <= i < |t.lits| ==> t.LevelAt(i) != level
    ensures Leveled(Enqueue(t, p, level, from))
  {
    var t' := Enqueue(t, p, level, from);
    assert forall i :: 0 <= i < |t.lits| ==> t'.lits[i] == t.lits[i] && t'.LevelAt(i) == t.LevelAt(i);
    assert t'.LevelAt(|t.lits|) == level && t'.Reason(p.v) == from;
    assert LimSorted(t') && LevelsOpened(t');
    assert BlocksLow(t');
    forall i, j | 0 <= i < j < |t'.lits| && t'.LevelAt(i) == t'.LevelAt(j) > 0
      ensures t'.Reason(t'.lits[j].v) != UNDEF
    {
      if j < |t.lits| {
        assert t.LevelAt(i) == t.LevelAt(j);
      }
    }
  }

  lemma EnqueueLevelsMaximal(t: Trail, p: Lit, level: nat, from: int, ca: seq<Clause>, live: set<int>)
    requires Consistent(t) && Justified(t, ca, live) && LevelsMaximal(t, ca) && p.v < |t.vardata| && t.Undef(p)
    requires from == UNDEF || (0 <= from < |ca| && Implies(t, ca[from], p, level))
    ensures LevelsMaximal(Enqueue(t, p, level, from), ca)
  {
    var t' := Enqueue(t, p, level, from);
    assert forall v :: v != p.v ==> t'.Level(v) == t.Level(v) && t'.Reason(v) == t.Reason(v);
    forall i | 0 <= i < |t'.lits|
      ensures LevelIsMax(t', ca, i)
    {
      if i < |t.lits| {
        assert LevelIsMax(t, ca, i) && t.True(t.lits[i]) && Antecedents(t, ca, live, i);
        var x, r := t.lits[i], t.Reason(t.lits[i].v);
        if 0 <= r < |ca| {
          forall q | q in ca[r]
            ensures q.v != p.v
          {
            if q != x {
              var j :| 0 <= j < i && t.lits[j] == Neg(q);
              assert t.True(t.lits[j]);
            }
          }
        }
      } else if from != UNDEF {
        forall q | q in ca[from] && q != p
          ensures q.v != p.v
        {
          assert t.False(q);
        }
      }
    }
  }

  lemma EnqueueKeepsInv(t: Trail, p: Lit, level: nat, from: int, ca: seq<Clause>, live: set<int>)
    requires TrailInv(t, ca, live) && p.v < |t.vardata| && t.Undef(p) && level <= |t.lim|
    requires from == UNDEF || (from in live && 0 <= from < |ca| && Implies(t, ca[from], p, level))
    requires from == UNDEF && level > 0 ==> forall i :: 0 <= i < |t.lits| ==> t.LevelAt(i) != level
    ensures TrailInv(Enqueue(t, p, level, from), ca, live)
  {
    EnqueueConsistent(t, p, level, from);
    EnqueueLeveled(t, p, level, from);
    EnqueueJustified(t, p, level, from, ca, live);
    EnqueueLevelsMaximal(t, p, level, from, ca, live);
  }

  /** More literals, all of them implied by clauses; nothing else changes. */
  ghost predicate Extends(t: Trail, t': Trail) {
    && t.lits <= t'.lits && t.lim == t'.lim && |t.vardata| == |t'.vardata|
    && (forall v :: v in t.assigns ==> v in t'.assigns && t'.assigns[v] == t.assigns[v])
    && (forall v :: v in t.assigns ==> t'.Level(v) == t.Level(v) && t'.Reason(v) == t.Reason(v))
    && (forall i :: |t.lits| <= i < |t'.lits| ==> t'.Reason(t'.lits[i].v) != UNDEF)
  }

  lemma ExtendsRefl(t: Trail)
    ensures Extends(t, t)
  {
  }

  lemma EnqueueExtends(t0: Trail, t: Trail, p: Lit, level: nat, from: int)
    requires Extends(t0, t) && Consistent(t) && p.v < |t.vardata| && t.Undef(p) && from != UNDEF
    ensures Extends(t0, Enqueue(t, p, level, from))
  {
    var t' := Enqueue(t, p, level, from);
    forall i | |t0.lits| <= i < |t'.lits|
      ensures t'.Reason(t'.lits[i].v) != UNDEF
    {
      if i < |t.lits| {
        assert t.True(t.lits[i]);
      }
    }
  }

  lemma ExtendsTrans(a: Trail, b: Trail, c: Trail)
    requires Extends(a, b) && Extends(b, c) && Consistent(b)
    ensures Extends(a, c)
  {
    forall i | |a.lits| <= i < |c.lits|
      ensures c.Reason(c.lits[i].v) != UNDEF
    {
      if i < |b.lits| {
        assert b.True(b.lits[i]);
      }
    }
  }

  lemma NewLevelLeveled(t: Trail)
    requires Leveled(t)
    ensures Leveled(NewLevel(t))
    ensures forall i :: 0 <= i < |t.lits| ==> NewLevel(t).LevelAt(i) != |NewLevel(t).lim|
  {
    var t' := NewLevel(t);
    assert forall i :: 0 <= i < |t.lits| ==> t'.LevelAt(i) == t.LevelAt(i);
  }

  /** Consistency and justification do not depend on where the levels start. */
  lemma LimIrrelevant(t: Trail, lim: seq<nat>, ca: seq<Clause>, live: set<int>)
    requires Consistent(t) && Justified(t, ca, live) && LevelsMaximal(t, ca)
    ensures Consistent(t.(lim := lim)) && Justified(t.(lim := lim), ca, live) && LevelsMaximal(t.(lim := lim), ca)
  {
    var t' := t.(lim := lim);
    assert forall v :: v in t.assigns ==> t.OnTrail(v) && t'.OnTrail(v);
    forall i | 0 <= i < |t.lits|
      ensures Antecedents(t', ca, live, i) && LevelIsMax(t', ca, i)
    {
      assert Antecedents(t, ca, live, i) && LevelIsMax(t, ca, i);
      assert forall l :: t.Before(l, i) ==> t'.Before(l, i);
    }
  }

  lemma NewLevelKeepsInv(t: Trail, ca: seq<Clause>, live: set<int>)
    requires TrailInv(t, ca, live)
    ensures TrailInv(NewLevel(t), ca, live)
    ensures forall i :: 0 <= i < |t.lits| ==> NewLevel(t).LevelAt(i) != |NewLevel(t).lim|
  {
    NewLevelLeveled(t);
    LimIrrelevant(t, NewLevel(t).lim, ca, live);
  }

  /** There are no more trail entries than variables. */
  lemma TrailBound(t: Trail)
    requires Consistent(t)
    ensures |t.lits| <= |t.vardata|
  {
    DistinctVars(t.lits);
    forall v | v in Vars(t.lits)
      ensures v in Below(|t.vardata|)
    {
      var i :| 0 <= i < |t.lits| && t.lits[i].v == v;
    }
    SubsetSize(Vars(t.lits), Below(|t.vardata|));
  }

  ghost function Below(n: nat): (r: set<Var>)
    ensures |r| == n
    ensures forall v: Var :: v < n ==> v in r
    ensures forall v: Var :: v in r ==> v < n
  {
    if n == 0 then {} else Below(n - 1) + {n - 1}
  }

  ghost function Vars(ls: seq<Lit>): set<Var> {
    set i | 0 <= i < |ls| :: ls[i].v
  }

  lemma {:induction false} DistinctVars(ls: seq<Lit>)
    requires forall i, j :: 0 <= i < j < |ls| ==> ls[i].v != ls[j].v
    ensures |Vars(ls)| == |ls|
  {
    if ls != [] {
      var front, last := ls[..|ls| - 1], ls[|ls| - 1];
      DistinctVars(front);
      assert Vars(ls) == Vars(front) + {last.v};
    }
  }

  lemma SubsetSize<A>(a: set<A>, b: set<A>)
    requires a <= b
    ensures |a| <= |b|
    ensures a != b ==> |a| < |b|
  {
    assert b == a + (b - a);
  }
}
