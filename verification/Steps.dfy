/** The steps of the search, other than propagation: backtracking, learning, deciding, forgetting clauses. */
module Steps {
  import opened Cnf
  import opened Trails
  import opened Backtracking
  import opened Watching
  import opened Database
  import opened Propagation
  import opened Analysis
  import opened Kernel

  // ---------- Backtracking ----------

  function Cancelled(s: State, b: nat): State
    requires b < |s.t.lim|
  {
    s.(t := CancelUntil(s.t, b))
  }

  lemma CancelReady(s: State, b: nat)
    requires Base(s) && b < |s.t.lim| && WatchInv(s.t, s.ca, s.live, s.t.lim[b])
    ensures Ready(Cancelled(s, b), s.t.lim[b])
  {
    hide WatchInv, Derived, Covering, Lists01, Consistent, Justified, LevelsMaximal, Leveled;
    CancelKeepsInv(s.t, s.ca, s.live, b);
    CancelDerived(s.t, s.ca, s.live, s.problem, s.f, b);
    CancelWatchInv(s.t, s.ca, s.live, b);
    CancelPrefix(s.t, b);
    CancelLims(s.t, b);
  }

  lemma CancelLims(t: Trail, b: nat)
    requires Leveled(t) && b < |t.lim|
    ensures forall a :: 0 <= a < |CancelUntil(t, b).lim| ==> CancelUntil(t, b).lim[a] <= t.lim[b]
  {
  }

  lemma WatchInvBelow(t: Trail, ca: seq<Clause>, live: set<int>, bound: nat, bound': nat)
    requires WatchInv(t, ca, live, bound) && bound' <= bound
    ensures WatchInv(t, ca, live, bound')
  {
  }

  /** Backtracking from any state of the search. */
  lemma ReadyCancel(s: State, qhead: nat, b: nat)
    requires Ready(s, qhead) && b < |s.t.lim|
    ensures Ready(Cancelled(s, b), s.t.lim[b])
  {
    WatchInvBelow(s.t, s.ca, s.live, qhead, s.t.lim[b]);
    CancelReady(s, b);
  }

  // ---------- Learning ----------

  /** Where to backtrack to after a conflict at the given level: one level down if chronological backtracking is on, has
      had its conflicts, and the jump would be long; otherwise to the level of the learnt clause. */
  function BacktrackTo(conflToChrono: int, chrono: int, conflicts: nat, decisionLevel: nat, level: nat,
                       btLevel: nat): nat
    requires level > 0
  {
    if (conflToChrono < 0 || conflToChrono <= conflicts) && chrono > -1
        && decisionLevel - btLevel >= chrono then level - 1
    else btLevel
  }

  /** A long jump is taken chronologically exactly if the option is not -1 and has had its conflicts. */
  lemma BacktrackExact(conflToChrono: int, chrono: int, conflicts: nat, decisionLevel: nat, level: nat, btLevel: nat)
    requires btLevel < level - 1 && level <= decisionLevel
    ensures BacktrackTo(conflToChrono, chrono, conflicts, decisionLevel, level, btLevel) == level - 1 <==>
              chrono >= 0 && (conflToChrono < 0 || conflicts >= conflToChrono) && chrono <= decisionLevel - btLevel
    ensures BacktrackTo(conflToChrono, -1, conflicts, decisionLevel, level, btLevel) == btLevel
    ensures btLevel <= BacktrackTo(conflToChrono, chrono, conflicts, decisionLevel, level, btLevel) < level
  {
  }

  /** The trail after backtracking to level b and enqueueing the first literal of the learnt clause: as a fact of level
      0 if it is the only one, otherwise at the level of the clause, with the clause as its reason. */
  function LearntTrail(t: Trail, out: Clause, btLevel: nat, b: nat, cr: int): Trail
    requires b < |t.lim| && out != [] && out[0].v < |t.vardata|
  {
    Enqueue(CancelUntil(t, b), out[0], if |out| == 1 then 0 else btLevel, if |out| == 1 then UNDEF else cr)
  }

  lemma LearntTrue(t: Trail, out: Clause, btLevel: nat, b: nat, cr: int)
    requires b < |t.lim| && out != [] && out[0].v < |t.vardata|
    ensures var t' := LearntTrail(t, out, btLevel, b, cr);
      && t'.True(out[0]) && t'.lim == t.lim[..b] && t'.lits != [] && t'.lits[|t'.lits| - 1] == out[0]
      && t'.Level(out[0].v) == (if |out| == 1 then 0 else btLevel)
      && t'.Reason(out[0].v) == if |out| == 1 then UNDEF else cr
  {
  }

  /** The literals of the highest level in a clause: there are some, and whether there is only one. */
  ghost predicate Highest(t: Trail, c: Clause, h: nat) {
    (forall l :: l in c ==> t.Level(l.v) <= h) && exists l :: l in c && t.Level(l.v) == h
  }

  ghost predicate AloneAt(t: Trail, c: Clause, h: nat) {
    forall l, l' :: l in c && l' in c && t.Level(l.v) == h && t.Level(l'.v) == h ==> l == l'
  }

  /** What the front of a clause tells about it, in any order. */
  lemma FrontTells(t: Trail, c: Clause, d: Clause, h: nat, onlyOne: bool)
    requires SameLits(d, c) && |d| >= 2 && Distinct(d) && t.Level(d[0].v) == h
    requires forall k :: 0 <= k < |d| ==> t.Level(d[k].v) <= h
    requires onlyOne ==> forall k :: 1 <= k < |d| ==> t.Level(d[k].v) < h
    requires !onlyOne ==> exists k :: 1 <= k < |d| && t.Level(d[k].v) == h
    ensures Highest(t, c, h) && (onlyOne <==> AloneAt(t, c, h))
  {
    assert d[0] in d;
    if !onlyOne {
      var k :| 1 <= k < |d| && t.Level(d[k].v) == h;
      assert d[k] in d && d[k] != d[0];
    }
  }

  /** Backtracking anywhere between the level of its second literal and the conflict makes a learnt clause
      unit: its first literal becomes unassigned and every other one stays false. */
  lemma LearntIsUnit(s: State, out: Clause, level: nat, btLevel: nat, b: nat)
    requires Learnt(s.t, s.f, out, level, btLevel) && btLevel <= b < level <= |s.t.lim|
    ensures Cancelled(s, b).t.Undef(out[0])
    ensures forall k :: 1 <= k < |out| ==>
              Cancelled(s, b).t.False(out[k]) && Cancelled(s, b).t.Level(out[k].v) <= btLevel
    ensures |out| > 1 ==> Cancelled(s, b).t.Level(out[1].v) == btLevel
  {
    assert s.t.False(out[0]) by {
      assert out[0] in out;
    }
    forall k | 1 <= k < |out|
      ensures Cancelled(s, b).t.False(out[k])
    {
      assert out[k] in out && s.t.False(out[k]);
    }
  }

  function AttachLong(s: State, c: Clause): State
    requires |c| >= 2
  {
    s.(ca := s.ca + [c], live := s.live + {|s.ca|},
       w := Push(Push(s.w, Neg(c[0]), Watcher(|s.ca|, c[1])), Neg(c[1]), Watcher(|s.ca|, c[0])))
  }

  function AttachBinary(s: State, c: Clause): State
    requires |c| >= 2
  {
    s.(ca := s.ca + [c], live := s.live + {|s.ca|},
       wb := Push(Push(s.wb, Neg(c[0]), Watcher(|s.ca|, c[1])), Neg(c[1]), Watcher(|s.ca|, c[0])))
  }

  /** The clause is stored and listed under its first two literals. */
  function Attached(s: State, c: Clause): State
    requires |c| >= 2
  {
    if |c| == 2 then AttachBinary(s, c) else AttachLong(s, c)
  }

  lemma AttachListing(s: State, c: Clause)
    requires Listing(s) && |c| >= 2 && Distinct(c)
    ensures Listing(Attached(s, c))
  {
    hide Lists01;
    if |c| == 2 {
      AttachLists(s.wb, s.ca, s.live, s.dirtyBin, true, c);
      OtherKindLists(s.w, s.ca, s.live, s.dirty, false, c);
    } else {
      AttachLists(s.w, s.ca, s.live, s.dirty, false, c);
      OtherKindLists(s.wb, s.ca, s.live, s.dirtyBin, true, c);
    }
  }

  /** A larger arena justifies the same trail. */
  lemma ArenaTrail(t: Trail, ca: seq<Clause>, live: set<int>, c: Clause)
    requires TrailInv(t, ca, live)
    ensures TrailInv(t, ca + [c], live + {|ca|})
  {
    forall i | 0 <= i < |t.lits|
      ensures Antecedents(t, ca + [c], live + {|ca|}, i) && LevelIsMax(t, ca + [c], i)
    {
      assert Antecedents(t, ca, live, i) && LevelIsMax(t, ca, i);
    }
  }

  lemma ArenaClauses(ca: seq<Clause>, live: set<int>, n: nat, c: Clause)
    requires ClausesOk(ca, live, n) && |c| >= 2 && Distinct(c) && (forall q :: q in c ==> q.v < n)
    ensures ClausesOk(ca + [c], live + {|ca|}, n)
  {
  }

  lemma ArenaWatchInv(t: Trail, ca: seq<Clause>, live: set<int>, c: Clause, bound: nat)
    requires WatchInv(t, ca, live, bound) && forall i: nat :: i < bound ==> WatchedOk(t, c, i)
    ensures WatchInv(t, ca + [c], live + {|ca|}, bound)
  {
    var ca' := ca + [c];
    forall cr, i | cr in live + {|ca|} && 0 <= cr < |ca'| && 0 <= i < bound
      ensures WatchedOk(t, ca'[cr], i)
    {
      if cr < |ca| {
        assert cr in live && WatchedOk(t, ca[cr], i);
      }
    }
  }

  /** Attaching a derived clause and enqueueing its first literal, implied at the level of the second. */
  lemma LearnReady(s: State, qhead: nat, c: Clause, level: nat)
    requires Ready(s, qhead) && |c| >= 2 && Distinct(c) && (forall q :: q in c ==> q.v < |s.t.vardata|)
    requires Entails(s.f, c)
    requires s.t.Undef(c[0]) && level <= |s.t.lim| && s.t.Level(c[1].v) == level
    requires forall k :: 1 <= k < |c| ==> s.t.False(c[k]) && s.t.Level(c[k].v) <= level
    ensures Ready(Attached(s, c).(t := Enqueue(s.t, c[0], level, |s.ca|)), qhead)
  {
    hide Derived, Covering, Lists01, WatchInv, ClausesOk, TrailInv, Implies, WatchedOk;
    var ca', live', t' := s.ca + [c], s.live + {|s.ca|}, Enqueue(s.t, c[0], level, |s.ca|);
    assert c[0] in c && c[1] in c && c[0] != c[1];
    ImpliesFirst(s.t, c, 1, level);
    ArenaTrail(s.t, s.ca, s.live, c);
    ArenaClauses(s.ca, s.live, |s.t.vardata|, c);
    EnqueueKeepsInv(s.t, c[0], level, |s.ca|, ca', live');
    AttachListing(s, c);
    LearnDerived(s.t, s.ca, s.live, s.problem, s.f, c);
    TrailParts(s.t, ca', live');
    ImpliedDerived(s.t, |s.ca|, c[0], level, ca', live', s.problem, s.f);
    EnqueueWatchInv(s.t, c[0], level, |s.ca|, s.ca, s.live, qhead);
    LearntWatched(s.t, s.ca, s.live, c, level, qhead);
    ArenaWatchInv(t', s.ca, s.live, c, qhead);
  }

  lemma TrailParts(t: Trail, ca: seq<Clause>, live: set<int>)
    requires TrailInv(t, ca, live)
    ensures Consistent(t) && Leveled(t) && Justified(t, ca, live) && LevelsMaximal(t, ca)
  {
  }

  lemma LearntWatched(t: Trail, ca: seq<Clause>, live: set<int>, c: Clause, level: nat, bound: nat)
    requires |c| >= 2 && c[0].v < |t.vardata| && c[0] != c[1] && t.Undef(c[0]) && t.False(c[1])
    requires t.Level(c[1].v) == level
    requires TrailInv(Enqueue(t, c[0], level, |ca|), ca + [c], live + {|ca|})
    ensures forall i: nat :: i < bound ==> WatchedOk(Enqueue(t, c[0], level, |ca|), c, i)
  {
    forall i: nat | i < bound
      ensures WatchedOk(Enqueue(t, c[0], level, |ca|), c, i)
    {
      UnitWatched(Enqueue(t, c[0], level, |ca|), c, c[0], i);
    }
  }

  /** Enqueueing a unit clause that follows from the formula, at level 0 whatever the current level. */
  lemma UnitReady(s: State, qhead: nat, p: Lit)
    requires Ready(s, qhead) && p.v < |s.t.vardata| && s.t.Undef(p) && Entails(s.f, [p])
    ensures Ready(s.(t := Enqueue(s.t, p, 0, UNDEF)), qhead)
  {
    hide Derived, Covering, Lists01, WatchInv, ClausesOk, Justified, LevelsMaximal, Leveled;
    EnqueueKeepsInv(s.t, p, 0, UNDEF, s.ca, s.live);
    EnqueueDerived(s.t, p, 0, UNDEF, s.ca, s.live, s.problem, s.f);
    EnqueueWatchInv(s.t, p, 0, UNDEF, s.ca, s.live, qhead);
    SameSize(s.ca, s.live, |s.t.vardata|, |Enqueue(s.t, p, 0, UNDEF).vardata|);
  }

  lemma SameSize(ca: seq<Clause>, live: set<int>, n: nat, n': nat)
    requires ClausesOk(ca, live, n) && n == n'
    ensures ClausesOk(ca, live, n')
  {
  }

  // ---------- Deciding ----------

  lemma NewLevelReady(s: State)
    requires Ready(s, |s.t.lits|)
    ensures Ready(s.(t := NewLevel(s.t)), |s.t.lits|)
    ensures forall i :: 0 <= i < |s.t.lits| ==> NewLevel(s.t).LevelAt(i) != |NewLevel(s.t).lim|
  {
    hide Derived, Covering, Lists01, WatchInv, ClausesOk, Justified, LevelsMaximal, BlocksLow, OneDecision;
    NewLevelKeepsInv(s.t, s.ca, s.live);
    NewLevelWatchInv(s.t, s.ca, s.live);
    NewLevelDerived(s.t, s.ca, s.live, s.problem, s.f);
  }

  lemma NewLevelDerived(t: Trail, ca: seq<Clause>, live: set<int>, problem: set<int>, f: set<Clause>)
    requires Derived(t, ca, live, f) && Covering(t, ca, problem, f)
    ensures Derived(NewLevel(t), ca, live, f) && Covering(NewLevel(t), ca, problem, f)
  {
    var t' := NewLevel(t);
    assert forall i :: 0 <= i < |t.lits| ==> t'.LevelAt(i) == t.LevelAt(i);
    forall m | MeetsDb(m, t', ca, problem)
      ensures MeetsDb(m, t, ca, problem)
    {
      forall i | 0 <= i < |t.lits| && t.LevelAt(i) == 0
        ensures Holds(m, t.lits[i])
      {
        assert t'.LevelAt(i) == 0;
      }
    }
  }

  lemma DecideReady(s: State, qhead: nat, p: Lit)
    requires Ready(s, qhead) && p.v < |s.t.vardata| && s.t.Undef(p) && |s.t.lim| > 0
    requires forall i :: 0 <= i < |s.t.lits| ==> s.t.LevelAt(i) != |s.t.lim|
    ensures Ready(s.(t := Enqueue(s.t, p, |s.t.lim|, UNDEF)), qhead)
  {
    hide Derived, Covering, Lists01, WatchInv, ClausesOk, Justified, LevelsMaximal, Leveled;
    EnqueueKeepsInv(s.t, p, |s.t.lim|, UNDEF, s.ca, s.live);
    EnqueueDerived(s.t, p, |s.t.lim|, UNDEF, s.ca, s.live, s.problem, s.f);
    EnqueueWatchInv(s.t, p, |s.t.lim|, UNDEF, s.ca, s.live, qhead);
    SameSize(s.ca, s.live, |s.t.vardata|, |Enqueue(s.t, p, |s.t.lim|, UNDEF).vardata|);
  }

  // ---------- A complete assignment ----------

  /** The assignment on the trail as a model. */
  ghost function ModelOf(assigns: map<Var, bool>): Model {
    iset v | v in assigns && assigns[v]
  }

  /** When propagation is complete without conflict and every variable is assigned, the trail is a model. */
  lemma FullModel(s: State)
    requires Ready(s, |s.t.lits|) && forall v: Var :: v < |s.t.vardata| ==> v in s.t.assigns
    ensures Models(ModelOf(s.t.assigns), s.f)
  {
    var m := ModelOf(s.t.assigns);
    forall cr | cr in s.problem && 0 <= cr < |s.ca|
      ensures Satisfies(m, s.ca[cr])
    {
      WatchInvIsComplete(s.t, s.ca, s.live, cr);
      var c := s.ca[cr];
      assert c[0] in c && (s.t.True(c[0]) || s.t.False(c[0]));
      var q :| q in c && s.t.True(q);
      assert Holds(m, q);
    }
    assert MeetsDb(m, s.t, s.ca, s.problem) by {
      forall i | 0 <= i < |s.t.lits| && s.t.LevelAt(i) == 0
        ensures Holds(m, s.t.lits[i])
      {
        assert s.t.True(s.t.lits[i]);
      }
    }
  }

  // ---------- Conflicts ----------

  lemma StartAnalysing(s: State, cr: int, level: nat)
    requires Base(s) && s.dirty == {} && s.dirtyBin == {} && 0 < level <= |s.t.lim| && cr in s.live
    requires forall b :: 0 <= b < |s.t.lim| && b < level ==> WatchInv(s.t, s.ca, s.live, s.t.lim[b])
    ensures Analysing(s, level)
  {
  }

  /** A conflict whose highest level is 0 refutes the formula. */
  lemma RootRefuted(s: State, cr: int)
    requires Base(s) && cr in s.live && 0 <= cr < |s.ca| && s.t.AllFalse(s.ca[cr])
    requires forall k :: 0 <= k < |s.ca[cr]| ==> s.t.Level(s.ca[cr][k].v) == 0
    ensures forall m :: !Models(m, s.f)
  {
    FalseAtRoot(s.t, s.ca, s.live, s.f, cr);
  }

  /** The clause is derived and unit: its first literal is unassigned, the others are false, the second of them
      at the highest level. */
  ghost predicate UnitLearnt(s: State, out: Clause, btLevel: nat) {
    && out != [] && Distinct(out) && Entails(s.f, out) && s.t.Undef(out[0]) && btLevel <= |s.t.lim|
    && (forall q :: q in out ==> q.v < |s.t.vardata|)
    && (forall k :: 1 <= k < |out| ==> s.t.False(out[k]) && s.t.Level(out[k].v) <= btLevel)
    && (|out| > 1 ==> s.t.Level(out[1].v) == btLevel)
  }

  /** The next reference is not in use. */
  lemma FreshRef(s: State, qhead: nat, clauses: seq<int>)
    requires Ready(s, qhead) && s.problem == Refs(clauses)
    ensures |s.ca| !in s.live && |s.ca| !in clauses && |s.ca| !in s.problem
  {
    assert forall cr :: cr in s.problem <==> cr in clauses;
  }

  lemma UnitLearntParts(s: State, out: Clause, btLevel: nat)
    requires UnitLearnt(s, out, btLevel)
    ensures out != [] && out[0].v < |s.t.vardata| && (|out| == 1 ==> out == [out[0]])
  {
    assert out[0] in out;
  }

  lemma LearntLevels(t: Trail, f: set<Clause>, out: Clause, level: nat, btLevel: nat)
    requires Learnt(t, f, out, level, btLevel)
    ensures btLevel < level && out != []
  {
  }

  /** Backtracking from a conflict anywhere between the two levels leaves the learnt clause unit. */
  lemma LearnCancel(s: State, out: Clause, level: nat, btLevel: nat, b: nat)
    requires Analysing(s, level) && Learnt(s.t, s.f, out, level, btLevel) && btLevel <= b < level
    ensures b < |s.t.lim| && Consistent(s.t) && Leveled(s.t)
    ensures Ready(Cancelled(s, b), s.t.lim[b]) && Consistent(Cancelled(s, b).t)
    ensures UnitLearnt(Cancelled(s, b), out, btLevel)
  {
    hide Listing, Stored, ClausesOk, Entails, WatchInv;
    CancelReady(s, b);
    LearntIsUnit(s, out, level, btLevel, b);
    forall q | q in out
      ensures q.v < |s.t.vardata|
    {
      assert s.t.False(q);
      AssignedLevel(s.t, q);
    }
  }

  /** Without decision levels every conflict refutes the formula. */
  lemma ConflictAtRoot(s: State, cr: int, bound: nat)
    requires Base(s) && Conflicting(s.t, s.ca, s.live, cr, bound) && |s.t.lim| == 0
    ensures forall m :: !Models(m, s.f)
  {
    hide Listing, Stored, WatchInv;
    ConflictClause(s, cr, bound);
    RootRefuted(s, cr);
  }
}
