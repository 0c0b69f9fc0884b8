/** Conflict analysis: first-UIP learning and clause minimisation. */
module Analysis {
  import opened Cnf
  import opened Trails
  import opened Backtracking
  import opened Database

  /** Every clause keeps its literals; only their order may change. */
  ghost predicate SameArena(ca: seq<Clause>, ca': seq<Clause>) {
    |ca| == |ca'| && forall cr :: 0 <= cr < |ca| ==> SameLits(ca'[cr], ca[cr])
  }

  lemma SameArenaTrans(a: seq<Clause>, b: seq<Clause>, c: seq<Clause>)
    requires SameArena(a, b) && SameArena(b, c)
    ensures SameArena(a, c)
  {
  }

  /** Exchanging two literals of a clause. */
  lemma SameArenaSwap(ca: seq<Clause>, cr: int)
    requires 0 <= cr < |ca|
    ensures forall i, j :: 0 <= i < |ca[cr]| && 0 <= j < |ca[cr]| ==> SameArena(ca, ca[cr := Swap(ca[cr], i, j)])
  {
    forall i, j | 0 <= i < |ca[cr]| && 0 <= j < |ca[cr]|
      ensures SameArena(ca, ca[cr := Swap(ca[cr], i, j)])
    {
      SwapLits(ca[cr], i, j);
    }
  }

  lemma SameArenaRefl(a: seq<Clause>)
    ensures SameArena(a, a)
  {
  }

  /** The reason of v speaks, besides v, only of marked variables and of level 0. */
  ghost predicate Expanded(t: Trail, ca: seq<Clause>, marked: set<Var>, v: Var) {
    var r := t.Reason(v);
    && r != UNDEF && 0 <= r < |ca|
    && (forall q :: q in ca[r] && q.v != v ==> q.v in marked || t.Level(q.v) == 0)
  }

  lemma ExpandedMore(t: Trail, ca: seq<Clause>, ca': seq<Clause>, marked: set<Var>, marked': set<Var>, v: Var)
    requires Expanded(t, ca, marked, v) && SameArena(ca, ca') && marked <= marked'
    ensures Expanded(t, ca', marked', v)
  {
  }

  // ---------- The marking loop of analyze ----------

  /** The bookkeeping of analyze: the variables flagged in seen, the literals of lower levels collected so far,
      the flagged variables of the conflict level still to be resolved, and all variables ever flagged. */
  datatype Marks = Marks(seen: set<Var>, tail: seq<Lit>, open: set<Var>, visited: set<Var>)

  /** The variables of a clause that get flagged. */
  ghost function Flag(t: Trail, c: Clause): set<Var> {
    set j | 0 <= j < |c| && t.Level(c[j].v) > 0 :: c[j].v
  }

  lemma FlagMore(t: Trail, c: Clause, j0: nat, j: nat)
    requires j0 <= j < |c|
    ensures Flag(t, c[j0..j + 1]) == Flag(t, c[j0..j]) + (if t.Level(c[j].v) > 0 then {c[j].v} else {})
  {
    var d, e := c[j0..j], c[j0..j + 1];
    assert e == d + [c[j]];
    assert forall i :: 0 <= i < |d| ==> e[i] == d[i];
    assert e[|d|] == c[j];
  }

  lemma FlagNone(t: Trail)
    ensures Flag(t, []) == {}
  {
  }

  /** Marking adds visited variables, and takes none off. */
  ghost predicate Marking(mk0: Marks, mk: Marks) {
    && mk0.visited <= mk.visited && mk0.open <= mk.open
    && (forall v :: v in mk.visited && v !in mk.seen ==> v in mk0.visited && v !in mk0.seen)
  }

  /** The trail has been searched down to position k. */
  ghost predicate Marked(t: Trail, level: nat, k: nat, mk: Marks) {
    && mk.seen == Vars(mk.tail) + mk.open && mk.seen <= mk.visited
    && Distinct(mk.tail)
    && (forall i :: 0 <= i < |mk.tail| ==> t.False(mk.tail[i]) && 0 < t.Level(mk.tail[i].v) < level)
    && (forall v :: v in mk.open ==> t.Level(v) == level && FoundBelow(t, v, k))
    && (forall v :: v in mk.visited && v !in mk.seen ==> !FoundBelow(t, v, k))
  }

  function Mark(mk: Marks, level: nat, q: Lit, qLevel: nat): Marks {
    if q.v in mk.seen || qLevel == 0 then mk
    else if qLevel >= level then Marks(mk.seen + {q.v}, mk.tail, mk.open + {q.v}, mk.visited + {q.v})
    else Marks(mk.seen + {q.v}, mk.tail + [q], mk.open, mk.visited + {q.v})
  }

  /** What the flags, the learnt clause and the counter of open literals say in terms of the marks; the flags in stale
      were there before. */
  ghost predicate Tracked(seen: set<Var>, mk: Marks, stale: set<Var>, out: seq<Lit>, pathC: int) {
    seen == mk.seen + stale && out != [] && mk.tail == out[1..] && pathC == |mk.open|
  }

  lemma TrackedStart(seen: set<Var>, mk: Marks, out: seq<Lit>)
    requires mk == Marks({}, [], {}, {}) && |out| == 1
    ensures Tracked(seen, mk, seen, out, 0)
  {
  }

  lemma TrackedStep(seen: set<Var>, mk: Marks, stale: set<Var>, out: seq<Lit>, pathC: int, level: nat, q: Lit,
                    qLevel: nat)
    requires Tracked(seen, mk, stale, out, pathC) && (q.v in stale ==> qLevel == 0)
    requires (q.v !in mk.seen ==> q.v !in mk.open)
    ensures var mk', added := Mark(mk, level, q, qLevel), q.v !in seen && qLevel > 0;
      && Marking(mk, mk')
      && Tracked(if added then seen + {q.v} else seen, mk', stale, if added && qLevel < level then out + [q] else out,
                 if added && qLevel >= level then pathC + 1 else pathC)
  {
    assert (out + [q])[1..] == out[1..] + [q];
    assert mk.seen + stale + {q.v} == mk.seen + {q.v} + stale;
    assert q.v !in mk.open ==> |mk.open + {q.v}| == |mk.open| + 1;
  }

  lemma TrackedSeen(seen: set<Var>, mk: Marks, stale: set<Var>, out: seq<Lit>, pathC: int)
    requires Tracked(seen, mk, stale, out, pathC)
    ensures seen == mk.seen + stale
  {
  }

  lemma TrackedEnd(seen: set<Var>, mk: Marks, stale: set<Var>, out: seq<Lit>, pathC: int, l: Lit)
    requires Tracked(seen, mk, stale, out, pathC)
    ensures out != [] && seen == mk.seen + stale && out[0 := l] == [l] + mk.tail
  {
  }

  lemma MarkingNone(mk: Marks)
    ensures Marking(mk, mk)
  {
  }

  lemma MarkingTrans(mk0: Marks, mk1: Marks, mk2: Marks)
    requires Marking(mk0, mk1) && Marking(mk1, mk2)
    ensures Marking(mk0, mk2) && mk1.visited <= mk2.visited
  {
  }

  lemma NoVars()
    ensures Vars([]) == {}
  {
  }

  lemma VarsPush(c: seq<Lit>, q: Lit)
    ensures Vars(c + [q]) == Vars(c) + {q.v}
  {
    var d := c + [q];
    forall v | v in Vars(c) + {q.v}
      ensures v in Vars(d)
    {
      if v == q.v {
        assert d[|c|].v == v;
      } else {
        var i :| 0 <= i < |c| && c[i].v == v;
        assert d[i].v == v;
      }
    }
    forall v | v in Vars(d)
      ensures v in Vars(c) + {q.v}
    {
      var i :| 0 <= i < |d| && d[i].v == v;
      assert i < |c| ==> c[i].v == v;
    }
  }

  lemma MarkStep(t: Trail, level: nat, k: nat, mk: Marks, q: Lit)
    requires Marked(t, level, k, mk) && t.False(q) && t.Level(q.v) <= level && FoundBelow(t, q.v, k)
    ensures Marked(t, level, k, Mark(mk, level, q, t.Level(q.v)))
    ensures q.v in Mark(mk, level, q, t.Level(q.v)).visited || t.Level(q.v) == 0
    ensures q.v !in mk.seen ==> q.v !in mk.open && q.v !in mk.visited
  {
    VarsPush(mk.tail, q);
    if q.v !in mk.seen {
      forall i | 0 <= i < |mk.tail|
        ensures mk.tail[i].v != q.v
      {
        assert mk.tail[i].v in Vars(mk.tail);
      }
    }
  }

  lemma FoundLower(t: Trail, v: Var, i: nat, k: nat)
    requires i <= k
    ensures FoundBelow(t, v, i) ==> FoundBelow(t, v, k)
  {
  }

  /** Taking the highest marked literal of the conflict level off the trail. */
  lemma SelectStep(t: Trail, level: nat, k: nat, mk: Marks, i: nat)
    requires Consistent(t) && Marked(t, level, k, mk) && i < k && i < |t.lits|
    requires t.lits[i].v in mk.open
    requires forall j :: i < j < k && j < |t.lits| ==> !(t.lits[j].v in mk.seen && t.LevelAt(j) >= level)
    ensures Marked(t, level, i, mk.(seen := mk.seen - {t.lits[i].v}, open := mk.open - {t.lits[i].v}))
    ensures t.lits[i].v in mk.visited
  {
    var v0 := t.lits[i].v;
    var mk' := mk.(seen := mk.seen - {v0}, open := mk.open - {v0});
    forall j | 0 <= j < |mk.tail|
      ensures mk.tail[j].v != v0
    {
    }
    assert v0 !in Vars(mk.tail);
    forall v | v in mk'.open
      ensures FoundBelow(t, v, i)
    {
      var p :| 0 <= p < k && p < |t.lits| && t.lits[p].v == v;
      assert p < i;
    }
    assert !FoundBelow(t, v0, i);
    forall v | v in mk'.visited && v !in mk'.seen && v != v0
      ensures !FoundBelow(t, v, i)
    {
      assert v !in mk.seen;
      FoundLower(t, v, i, k);
    }
  }

  lemma FalseFound(t: Trail, q: Lit)
    requires Consistent(t) && t.False(q)
    ensures FoundBelow(t, q.v, |t.lits|) && t.lits != []
  {
    assert t.OnTrail(q.v);
  }

  /** The flagged variables of the conflict level are the open ones. */
  lemma OpenMarks(t: Trail, level: nat, k: nat, mk: Marks)
    requires Marked(t, level, k, mk)
    ensures mk.open <= mk.seen && forall v :: v in mk.open ==> FoundBelow(t, v, k)
    ensures forall v :: v in mk.seen ==> (t.Level(v) >= level <==> v in mk.open) && t.Level(v) <= level
  {
  }

  lemma StillBelow(t: Trail, vs: set<Var>, i: nat)
    requires i < |t.lits| && t.lits[i].v !in vs && (forall v :: v in vs ==> FoundBelow(t, v, i + 1))
    ensures forall v :: v in vs ==> FoundBelow(t, v, i)
  {
  }

  /** A reason falsifies its other literals below the literal it implies. */
  lemma ReasonBelow(t: Trail, ca: seq<Clause>, live: set<int>, i: nat, q: Lit)
    requires Consistent(t) && Justified(t, ca, live) && LevelsMaximal(t, ca) && i < |t.lits|
    requires t.Reason(t.lits[i].v) != UNDEF && 0 <= t.Reason(t.lits[i].v) < |ca|
    requires q in ca[t.Reason(t.lits[i].v)] && q != t.lits[i]
    ensures t.False(q) && FoundBelow(t, q.v, i) && t.Level(q.v) <= t.LevelAt(i)
  {
    assert Antecedents(t, ca, live, i) && LevelIsMax(t, ca, i);
    assert t.Before(Neg(q), i);
    var j :| 0 <= j < i && t.lits[j] == Neg(q);
    assert t.True(t.lits[j]);
  }

  /** While another literal of the conflict level is marked below, the one just taken has a reason. */
  lemma HasReason(t: Trail, ca: seq<Clause>, live: set<int>, level: nat, i: nat, mk: Marks)
    requires Consistent(t) && Leveled(t) && Justified(t, ca, live) && i < |t.lits|
    requires Marked(t, level, i, mk) && mk.open != {} && level > 0 && t.LevelAt(i) == level
    ensures t.Reason(t.lits[i].v) != UNDEF && t.Reason(t.lits[i].v) in live && 0 <= t.Reason(t.lits[i].v) < |ca|
    ensures t.lits[i] in ca[t.Reason(t.lits[i].v)]
    ensures |ca[t.Reason(t.lits[i].v)]| > 2 ==> ca[t.Reason(t.lits[i].v)][0] == t.lits[i]
  {
    var v :| v in mk.open;
    var j :| 0 <= j < i && j < |t.lits| && t.lits[j].v == v;
    assert t.LevelAt(j) == t.LevelAt(i) > 0;
    assert Antecedents(t, ca, live, i);
  }

  /** Everything flagged has been resolved, collected, or is the literal p itself. */
  ghost predicate Resolved(t: Trail, ca: seq<Clause>, mk: Marks, p: Var) {
    forall v :: v in mk.visited && v !in mk.seen && v != p ==> Expanded(t, ca, mk.visited, v)
  }

  ghost predicate Touched(t: Trail, c: Clause, visited: set<Var>) {
    forall q :: q in c ==> q.v in visited || t.Level(q.v) == 0
  }

  lemma LevelZeroHolds(m: Model, t: Trail, ca: seq<Clause>, live: set<int>, q: Lit)
    requires Consistent(t) && MeetsDb(m, t, ca, live) && t.False(q) && t.Level(q.v) == 0
    ensures Holds(m, Neg(q))
  {
    FalseIsBefore(t, q);
    var j :| 0 <= j < |t.lits| && t.lits[j] == Neg(q);
    assert t.LevelAt(j) == 0;
  }

  /** An expanded literal of the trail is in the cone. */
  lemma ExpandedInCone(m: Model, t: Trail, ca: seq<Clause>, live: set<int>, cone: set<Var>, i: nat)
    requires Consistent(t) && Justified(t, ca, live) && MeetsDb(m, t, ca, live) && i < |t.lits|
    requires t.lits[i].v in cone && Expanded(t, ca, cone, t.lits[i].v)
    ensures InCone(t, ca, m, cone, t.lits[i])
  {
    var x := t.lits[i];
    assert Antecedents(t, ca, live, i);
    forall q | q in ca[t.Reason(x.v)] && q != x
      ensures q.v in cone || Holds(m, Neg(q))
    {
      if q.v !in cone {
        assert t.Before(Neg(q), i);
        var j :| 0 <= j < i && t.lits[j] == Neg(q);
        assert t.LevelAt(j) == 0;
      }
    }
  }

  /** The learnt clause follows from the database: it is what resolution along the trail leaves. */
  lemma LearntEntailed(t: Trail, ca: seq<Clause>, live: set<int>, f: set<Clause>, mk: Marks, i: nat, confl: Clause)
    requires Consistent(t) && Justified(t, ca, live) && Derived(t, ca, live, f) && i < |t.lits|
    requires mk.seen == Vars(mk.tail) && (forall k :: 0 <= k < |mk.tail| ==> t.False(mk.tail[k]))
    requires Resolved(t, ca, mk, t.lits[i].v) && Touched(t, confl, mk.visited)
    requires t.AllFalse(confl) && Entails(f, confl)
    ensures Entails(f, [Neg(t.lits[i])] + mk.tail)
  {
    var out := [Neg(t.lits[i])] + mk.tail;
    forall m | Models(m, f)
      ensures Satisfies(m, out)
    {
      ModelMeetsDb(m, t, ca, live, f);
      if forall l :: l in out ==> !Holds(m, l) {
        forall j | 0 <= j < |t.lits| && t.lits[j].v in mk.visited
          ensures InCone(t, ca, m, mk.visited, t.lits[j])
        {
          LearntCone(m, t, ca, live, mk, i, j);
        }
        forall q | q in confl
          ensures q.v in mk.visited || Holds(m, Neg(q))
        {
          if q.v !in mk.visited {
            LevelZeroHolds(m, t, ca, live, q);
          }
        }
        FalseClauseRefutes(t, ca, live, m, mk.visited, confl);
      }
    }
  }

  lemma LearntCone(m: Model, t: Trail, ca: seq<Clause>, live: set<int>, mk: Marks, i: nat, j: nat)
    requires Consistent(t) && Justified(t, ca, live) && MeetsDb(m, t, ca, live) && i < |t.lits| && j < |t.lits|
    requires mk.seen == Vars(mk.tail) && (forall k :: 0 <= k < |mk.tail| ==> t.False(mk.tail[k]))
    requires Resolved(t, ca, mk, t.lits[i].v) && t.lits[j].v in mk.visited
    requires forall l :: l in [Neg(t.lits[i])] + mk.tail ==> !Holds(m, l)
    ensures InCone(t, ca, m, mk.visited, t.lits[j])
  {
    var out := [Neg(t.lits[i])] + mk.tail;
    var v := t.lits[j].v;
    if v in mk.seen {
      var k :| 0 <= k < |mk.tail| && mk.tail[k].v == v;
      assert out[k + 1] == mk.tail[k] && out[k + 1] in out && t.True(t.lits[j]);
      assert t.lits[j] == Neg(mk.tail[k]);
    } else if v == t.lits[i].v {
      assert Consistent(t) && t.lits[j] == t.lits[i];
      assert out[0] in out;
    } else {
      ExpandedInCone(m, t, ca, live, mk.visited, j);
    }
  }

  // ---------- Flags left behind ----------

  ghost predicate RootOnly(t: Trail, vs: set<Var>) {
    forall v :: v in vs ==> t.Level(v) == 0
  }

  lemma RootOnlyAt(t: Trail, vs: set<Var>, v: Var)
    requires RootOnly(t, vs)
    ensures v in vs ==> t.Level(v) == 0
  {
  }

  /** Where level 1 starts, or would start. */
  function RootEnd(t: Trail): nat {
    if t.lim == [] then |t.lits| else t.lim[0]
  }

  /** Vivification may leave variables flagged, but only of literals at the bottom of the trail. */
  ghost predicate RootFlags(t: Trail, vs: set<Var>) {
    forall v :: v in vs ==> FoundBelow(t, v, RootEnd(t))
  }

  lemma RootFlagsLevel(t: Trail, vs: set<Var>)
    requires Leveled(t) && RootFlags(t, vs)
    ensures RootOnly(t, vs)
  {
    forall v | v in vs
      ensures t.Level(v) == 0
    {
      var i :| 0 <= i < RootEnd(t) && i < |t.lits| && t.lits[i].v == v;
      assert t.LevelAt(i) <= 0;
    }
  }

  /** The bottom of the trail stays. */
  lemma RootFlagsStay(t: Trail, t': Trail, vs: set<Var>)
    requires RootFlags(t, vs) && RootEnd(t) <= RootEnd(t') && RootEnd(t) <= |t.lits|
    requires forall i :: 0 <= i < RootEnd(t) ==> i < |t'.lits| && t'.lits[i] == t.lits[i]
    ensures RootFlags(t', vs)
  {
    forall v | v in vs
      ensures FoundBelow(t', v, RootEnd(t'))
    {
      var i :| 0 <= i < RootEnd(t) && i < |t.lits| && t.lits[i].v == v;
      assert t'.lits[i].v == v;
    }
  }

  /** More literals on top, without any new level. */
  lemma RootFlagsSame(t: Trail, t': Trail, vs: set<Var>)
    requires RootFlags(t, vs) && t.lits <= t'.lits && t.lim == t'.lim
    ensures RootFlags(t', vs)
  {
    forall v | v in vs
      ensures FoundBelow(t', v, RootEnd(t'))
    {
      var i :| 0 <= i < RootEnd(t) && i < |t.lits| && t.lits[i].v == v;
      assert t'.lits[i].v == v;
    }
  }

  lemma RootFlagsExtends(t: Trail, t': Trail, vs: set<Var>)
    requires RootFlags(t, vs) && Extends(t, t')
    ensures RootFlags(t', vs)
  {
    RootFlagsSame(t, t', vs);
  }

  lemma RootFlagsCancel(t: Trail, b: nat, vs: set<Var>)
    requires RootFlags(t, vs) && Leveled(t) && b < |t.lim|
    ensures RootFlags(CancelUntil(t, b), vs)
  {
    hide Kept, Picked;
    CancelPrefix(t, b);
    assert t.lim[0] <= t.lim[b];
    RootFlagsStay(t, CancelUntil(t, b), vs);
  }

  lemma RootFlagsFewer(t: Trail, vs: set<Var>, vs': set<Var>)
    requires RootFlags(t, vs) && vs' <= vs
    ensures RootFlags(t, vs')
  {
  }

  // ---------- Minimisation ----------

  /** Every marked variable outside base is implied by marked variables. */
  ghost predicate Closed(t: Trail, ca: seq<Clause>, marked: set<Var>, base: set<Var>) {
    forall v :: v in marked && v !in base ==> Expanded(t, ca, marked, v)
  }

  /** Dropping many literals at once is sound: each dropped literal may lean on literals dropped with it, because
      reasons always point down the trail. */
  lemma MinimisedEntailed(t: Trail, ca: seq<Clause>, live: set<int>, f: set<Clause>, out: Clause, kept: Clause,
                          marked: set<Var>, stale: set<Var>)
    requires Consistent(t) && Justified(t, ca, live) && Derived(t, ca, live, f)
    requires Entails(f, out) && t.AllFalse(out) && out != [] && out[0] in kept && RootOnly(t, stale)
    requires Vars(out[1..]) <= marked && Closed(t, ca, marked, Vars(out[1..]) + stale)
    requires forall l :: l in out ==> l in kept || Expanded(t, ca, marked, l.v)
    ensures Entails(f, kept)
  {
    forall m | Models(m, f)
      ensures Satisfies(m, kept)
    {
      ModelMeetsDb(m, t, ca, live, f);
      if forall l :: l in kept ==> !Holds(m, l) {
        forall j | 0 <= j < |t.lits| && t.lits[j].v in marked
          ensures InCone(t, ca, m, marked, t.lits[j])
        {
          MinimisedCone(m, t, ca, live, out, kept, marked, stale, j);
        }
        forall q | q in out
          ensures q.v in marked || Holds(m, Neg(q))
        {
          var k :| 0 <= k < |out| && out[k] == q;
          if k > 0 {
            assert out[1..][k - 1] == q;
          }
        }
        FalseClauseRefutes(t, ca, live, m, marked, out);
      }
    }
  }

  lemma MinimisedCone(m: Model, t: Trail, ca: seq<Clause>, live: set<int>, out: Clause, kept: Clause, marked: set<Var>,
                      stale: set<Var>, j: nat)
    requires Consistent(t) && Justified(t, ca, live) && MeetsDb(m, t, ca, live) && j < |t.lits| && t.lits[j].v in marked
    requires t.AllFalse(out) && out != [] && Closed(t, ca, marked, Vars(out[1..]) + stale) && RootOnly(t, stale)
    requires forall l :: l in out ==> l in kept || Expanded(t, ca, marked, l.v)
    requires forall l :: l in kept ==> !Holds(m, l)
    ensures InCone(t, ca, m, marked, t.lits[j])
  {
    var v := t.lits[j].v;
    if v in Vars(out[1..]) {
      var k :| 0 <= k < |out[1..]| && out[1..][k].v == v;
      var l := out[k + 1];
      assert l in out && t.False(l) && t.True(t.lits[j]) && t.lits[j] == Neg(l);
      if l !in kept {
        ExpandedInCone(m, t, ca, live, marked, j);
      }
    } else if v in stale {
      assert t.LevelAt(j) == 0;
    } else {
      ExpandedInCone(m, t, ca, live, marked, j);
    }
  }

  /** Resolving with binary clauses on the first literal. */
  lemma BinaryEntailed(f: set<Clause>, out: Clause, kept: Clause)
    requires Entails(f, out) && out != [] && out[0] in kept
    requires forall l :: l in out ==> l in kept || Entails(f, [out[0], Neg(l)])
    ensures Entails(f, kept)
  {
    forall m | Models(m, f)
      ensures Satisfies(m, kept)
    {
      var l :| l in out && Holds(m, l);
      if l !in kept {
        var q :| q in [out[0], Neg(l)] && Holds(m, q);
        assert q == out[0];
      }
    }
  }

  lemma ClosedMore(t: Trail, ca: seq<Clause>, ca': seq<Clause>, marked: set<Var>, base: set<Var>)
    requires Closed(t, ca, marked, base) && SameArena(ca, ca')
    ensures Closed(t, ca', marked, base)
  {
    forall v | v in marked && v !in base
      ensures Expanded(t, ca', marked, v)
    {
      ExpandedMore(t, ca, ca', marked, marked, v);
    }
  }

  /** The search of litRedundant: every newly flagged variable, and p, is expanded, on the stack, or being expanded. */
  ghost predicate Exploring(t: Trail, ca: seq<Clause>, seen: set<Var>, base: set<Var>, stack: seq<Lit>, p: Var,
                            now: set<Var>) {
    && (forall i :: 0 <= i < |stack| ==> t.False(stack[i]) && t.Reason(stack[i].v) != UNDEF)
    && (forall v :: (v in seen && v !in base) || v == p ==> v in now || v in Vars(stack) || Expanded(t, ca, seen, v))
  }

  lemma ExploreStart(t: Trail, ca: seq<Clause>, seen: set<Var>, base: set<Var>, p: Lit)
    requires Closed(t, ca, seen, base) && t.False(p) && t.Reason(p.v) != UNDEF
    ensures Exploring(t, ca, seen, base, [p], p.v, {})
  {
    assert [p][0].v in Vars([p]);
  }

  lemma ExplorePop(t: Trail, ca: seq<Clause>, ca': seq<Clause>, seen: set<Var>, base: set<Var>, stack: seq<Lit>, p: Var)
    requires Exploring(t, ca, seen, base, stack, p, {}) && stack != [] && SameArena(ca, ca')
    ensures Exploring(t, ca', seen, base, stack[..|stack| - 1], p, {stack[|stack| - 1].v})
  {
    var rest, x := stack[..|stack| - 1], stack[|stack| - 1];
    assert stack == rest + [x];
    VarsPush(rest, x);
    forall v | (v in seen && v !in base) || v == p
      ensures v == x.v || v in Vars(rest) || Expanded(t, ca', seen, v)
    {
      if Expanded(t, ca, seen, v) {
        ExpandedMore(t, ca, ca', seen, seen, v);
      }
    }
  }

  lemma ExplorePush(t: Trail, ca: seq<Clause>, seen: set<Var>, base: set<Var>, stack: seq<Lit>, p: Var, now: set<Var>,
                    q: Lit)
    requires Exploring(t, ca, seen, base, stack, p, now) && t.False(q) && t.Reason(q.v) != UNDEF
    ensures Exploring(t, ca, seen + {q.v}, base, stack + [q], p, now)
  {
    VarsPush(stack, q);
    forall v | (v in seen + {q.v} && v !in base) || v == p
      ensures v in now || v in Vars(stack + [q]) || Expanded(t, ca, seen + {q.v}, v)
    {
      if Expanded(t, ca, seen, v) {
        ExpandedMore(t, ca, ca, seen, seen + {q.v}, v) by {
          SameArenaRefl(ca);
        }
      }
    }
  }

  lemma ExploreDone(t: Trail, ca: seq<Clause>, seen: set<Var>, base: set<Var>, stack: seq<Lit>, p: Var, x: Var)
    requires Exploring(t, ca, seen, base, stack, p, {x}) && Expanded(t, ca, seen, x)
    ensures Exploring(t, ca, seen, base, stack, p, {})
  {
  }

  lemma ExploreEnd(t: Trail, ca: seq<Clause>, seen: set<Var>, base: set<Var>, p: Var)
    requires Exploring(t, ca, seen, base, [], p, {})
    ensures Closed(t, ca, seen, base) && Expanded(t, ca, seen, p)
  {
  }

  /** Compaction of the learnt clause: kept comes from out[..i], and what was dropped is implied by marked variables. */
  ghost predicate Thinned(t: Trail, ca: seq<Clause>, marked: set<Var>, out: Clause, i: nat, kept: Clause) {
    && 1 <= i <= |out| && kept != [] && kept[0] == out[0] && Distinct(kept)
    && (forall l :: l in kept ==> l in out[..i])
    && (forall l :: l in out[..i] ==> l in kept || Expanded(t, ca, marked, l.v))
  }

  lemma ThinStart(t: Trail, ca: seq<Clause>, marked: set<Var>, out: Clause)
    requires out != []
    ensures Thinned(t, ca, marked, out, 1, out[..1])
  {
  }

  lemma ThinStep(t: Trail, ca: seq<Clause>, ca': seq<Clause>, marked: set<Var>, marked': set<Var>, out: Clause, i: nat,
                 kept: Clause, keep: bool)
    requires Thinned(t, ca, marked, out, i, kept) && i < |out| && Distinct(out)
    requires SameArena(ca, ca') && marked <= marked'
    requires !keep ==> Expanded(t, ca', marked', out[i].v)
    ensures Thinned(t, ca', marked', out, i + 1, if keep then kept + [out[i]] else kept)
  {
    hide Thinned, SameArena, Expanded;
    ThinMore(t, ca, ca', marked, marked', out, i, kept);
    if keep {
      ThinKeep(t, ca', marked', out, i, kept);
    } else {
      ThinDrop(t, ca', marked', out, i, kept);
    }
  }

  lemma ThinMore(t: Trail, ca: seq<Clause>, ca': seq<Clause>, marked: set<Var>, marked': set<Var>, out: Clause, i: nat,
                 kept: Clause)
    requires Thinned(t, ca, marked, out, i, kept) && SameArena(ca, ca') && marked <= marked'
    ensures Thinned(t, ca', marked', out, i, kept)
  {
    hide Expanded, SameArena, Distinct;
    forall l | l in out[..i] && l !in kept
      ensures Expanded(t, ca', marked', l.v)
    {
      ExpandedMore(t, ca, ca', marked, marked', l.v);
    }
  }

  lemma ThinKeep(t: Trail, ca: seq<Clause>, marked: set<Var>, out: Clause, i: nat, kept: Clause)
    requires Thinned(t, ca, marked, out, i, kept) && i < |out| && Distinct(out)
    ensures Thinned(t, ca, marked, out, i + 1, kept + [out[i]])
  {
    hide Expanded;
    assert out[..i + 1] == out[..i] + [out[i]];
    forall k | 0 <= k < |kept|
      ensures kept[k].v != out[i].v
    {
      assert kept[k] in out[..i];
    }
  }

  lemma AddedVars(a: seq<Lit>, b: seq<Lit>, top: nat)
    requires a <= b && top <= |a|
    ensures Vars(b[top..]) == Vars(a[top..]) + Vars(b[|a|..])
  {
    VarsConcat(a[top..], b[|a|..]);
    assert b[top..] == a[top..] + b[|a|..];
  }

  lemma ThinDrop(t: Trail, ca: seq<Clause>, marked: set<Var>, out: Clause, i: nat, kept: Clause)
    requires Thinned(t, ca, marked, out, i, kept) && i < |out| && Expanded(t, ca, marked, out[i].v)
    ensures Thinned(t, ca, marked, out, i + 1, kept)
  {
    hide Expanded;
    assert out[..i + 1] == out[..i] + [out[i]];
  }

  lemma VarsConcat(a: seq<Lit>, b: seq<Lit>)
    ensures Vars(a + b) == Vars(a) + Vars(b)
  {
    forall v | v in Vars(a) + Vars(b)
      ensures v in Vars(a + b)
    {
      if v in Vars(a) {
        var i :| 0 <= i < |a| && a[i].v == v;
        assert (a + b)[i].v == v;
      } else {
        var i :| 0 <= i < |b| && b[i].v == v;
        assert (a + b)[|a| + i].v == v;
      }
    }
    forall v | v in Vars(a + b)
      ensures v in Vars(a) + Vars(b)
    {
      var i :| 0 <= i < |a + b| && (a + b)[i].v == v;
      assert if i < |a| then a[i].v == v else b[i - |a|].v == v;
    }
  }

  /** With x at its front, a reason clause is false from index 1 on. */
  lemma FrontFalse(t: Trail, ca: seq<Clause>, ca': seq<Clause>, cr: int, x: Lit)
    requires SameArena(ca, ca') && 0 <= cr < |ca| && |ca'[cr]| > 0 && ca'[cr][0] == x && Distinct(ca'[cr])
    requires forall q :: q in ca[cr] && q != x ==> t.False(q)
    ensures forall i :: 1 <= i < |ca'[cr]| ==> t.False(ca'[cr][i])
  {
    forall i | 1 <= i < |ca'[cr]|
      ensures t.False(ca'[cr][i])
    {
      assert ca'[cr][i] in ca'[cr] && ca'[cr][i] != ca'[cr][0];
    }
  }

  lemma FrontExpanded(t: Trail, ca: seq<Clause>, cr: int, v: Var, marked: set<Var>)
    requires 0 <= cr < |ca| && cr == t.Reason(v) && |ca[cr]| > 0 && ca[cr][0].v == v
    requires forall i :: 1 <= i < |ca[cr]| ==> ca[cr][i].v in marked || t.Level(ca[cr][i].v) == 0
    ensures Expanded(t, ca, marked, v)
  {
  }

  /** Flagging fresh variables leaves fewer to flag. */
  lemma FreshBelow(n: nat, seen: set<Var>, ls: seq<Lit>)
    requires (forall i :: 0 <= i < |ls| ==> ls[i].v < n) && seen !! Vars(ls)
    ensures Below(n) - (seen + Vars(ls)) <= Below(n) - seen
    ensures ls != [] ==> Below(n) - (seen + Vars(ls)) < Below(n) - seen
  {
    if ls != [] {
      assert ls[0].v in Vars(ls) && ls[0].v in Below(n) - seen;
    }
  }

  /** What is flagged is seen0 and, apart from it, the variables of ls from index top on. */
  ghost predicate FlaggedFrom(seen0: set<Var>, seen: set<Var>, ls: seq<Lit>, top: nat) {
    top <= |ls| && seen == seen0 + Vars(ls[top..]) && seen0 !! Vars(ls[top..])
  }

  lemma FlaggedStart(seen: set<Var>, ls: seq<Lit>)
    ensures FlaggedFrom(seen, seen, ls, |ls|)
  {
    assert Vars(ls[|ls|..]) == {};
  }

  lemma FlaggedEnd(seen0: set<Var>, seen: set<Var>, ls: seq<Lit>, top: nat)
    requires FlaggedFrom(seen0, seen, ls, top)
    ensures seen0 <= seen <= seen0 + Vars(ls)
  {
    VarsConcat(ls[..top], ls[top..]);
    assert ls == ls[..top] + ls[top..];
  }

  lemma PrefixVars(a: seq<Lit>, b: seq<Lit>)
    requires a <= b
    ensures Vars(a) <= Vars(b)
  {
    VarsConcat(a, b[|a|..]);
    assert b == a + b[|a|..];
  }

  lemma TailVars(c: seq<Lit>)
    requires c != []
    ensures Vars(c[1..]) <= Vars(c) && Vars(c) == {c[0].v} + Vars(c[1..])
  {
    VarsConcat(c[..1], c[1..]);
    assert c == c[..1] + c[1..];
  }

  lemma SameLitsEntailed(f: set<Clause>, c: Clause, d: Clause)
    requires Entails(f, c) && SameLits(d, c)
    ensures Entails(f, d)
  {
  }

  /** A learnt clause: entailed, false, with exactly one literal of the conflict level, that one first and one of the
      next highest level, to which the solver may backtrack, second. */
  ghost predicate Learnt(t: Trail, f: set<Clause>, out: Clause, level: nat, btLevel: nat) {
    && Entails(f, out) && out != [] && t.AllFalse(out) && Distinct(out)
    && t.Level(out[0].v) == level && (forall k :: 1 <= k < |out| ==> 0 < t.Level(out[k].v) <= btLevel)
    && btLevel < level && (if |out| == 1 then btLevel == 0 else btLevel == t.Level(out[1].v))
  }

  ghost predicate NextHighest(t: Trail, out: Clause, btLevel: nat) {
    if |out| <= 1 then btLevel == 0
    else btLevel == t.Level(out[1].v) && forall k :: 1 <= k < |out| ==> t.Level(out[k].v) <= btLevel
  }

  ghost predicate UipShape(t: Trail, uip: Clause, level: nat) {
    && uip != [] && t.AllFalse(uip) && t.Level(uip[0].v) == level > 0
    && forall j :: 1 <= j < |uip| ==> 0 < t.Level(uip[j].v) < level
  }

  /** An entailed part of the clause that keeps its first literal. */
  ghost predicate MinimalOf(f: set<Clause>, uip: Clause, min: Clause) {
    && uip != [] && Entails(f, min) && min != [] && min[0] == uip[0] && Distinct(min)
    && forall l :: l in min ==> l in uip
  }

  lemma MinimalFront(f: set<Clause>, uip: Clause, min: Clause)
    requires MinimalOf(f, uip, min)
    ensures uip != [] && min != [] && min[0] == uip[0]
  {
  }

  lemma SameMembers(c: Clause, d: Clause)
    requires SameLits(c, d)
    ensures forall l :: l in c <==> l in d
  {
  }

  lemma MinimalShape(f: set<Clause>, uip: Clause, min: Clause)
    requires MinimalOf(f, uip, min)
    ensures min != [] && Distinct(min)
  {
  }

  /** What minimisation and reordering leave of a first-UIP clause is a learnt clause. */
  lemma LearntShape(t: Trail, f: set<Clause>, uip: Clause, min: Clause, out: Clause, level: nat, btLevel: nat)
    requires UipShape(t, uip, level) && MinimalOf(f, uip, min)
    requires SameLits(out, min) && out[0] == min[0] && Distinct(out) && NextHighest(t, out, btLevel)
    ensures Learnt(t, f, out, level, btLevel)
  {
    SameLitsEntailed(f, min, out);
    forall k | 1 <= k < |out|
      ensures 0 < t.Level(out[k].v) < level
    {
      assert out[k] in out && out[k].v != out[0].v;
      var j :| 0 <= j < |uip| && uip[j] == out[k];
    }
  }
}
