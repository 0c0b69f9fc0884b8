/** Two inputs on which the solver does less than it promises, each played through on states of the solver. */
module Shortcomings {
  import opened Cnf
  import opened Trails
  import opened Backtracking
  import opened Watching
  import opened Database
  import opened Analysis
  import opened Kernel
  import opened Steps
  import opened FinalConflict
  import opened Adding
  import opened Ordering

  // ---------- Building states ----------

  /** A solver over n variables without clauses. */
  function Fresh(n: nat): State {
    State(Trail([], [], map[], seq(n, _ => VarData(UNDEF, 0))), [], {}, map[], map[], {}, {}, {}, {})
  }

  /** addClause_ on a sorted clause whose literals are all unassigned. */
  function Added(s: State, c: Clause): State
    requires |c| >= 2
  {
    Attached(s, c).(f := s.f + {c}, problem := s.problem + {|s.ca|})
  }

  ghost predicate Untouched(s: State, n: nat) {
    Ready(s, 0) && s.t == Fresh(n).t && s.dirty == {} && s.dirtyBin == {}
  }

  lemma FreshUntouched(n: nat)
    ensures Untouched(Fresh(n), n)
  {
  }

  lemma AddedUntouched(s: State, n: nat, c: Clause)
    requires Untouched(s, n) && |c| >= 2 && Distinct(c) && forall q :: q in c ==> q.v < n
    ensures Untouched(Added(s, c), n)
  {
    hide Ready, Consistent;
    ReducesItself(s.t, c);
    StoreReady(s, 0, c, c);
  }

  lemma ReducesItself(t: Trail, c: Clause)
    requires t.assigns == map[] && Distinct(c)
    ensures Reduces(t, c, c)
  {
  }

  /** Propagating a literal that no clause watches. */
  lemma ReadyOn(s: State, q: nat)
    requires Ready(s, q) && q < |s.t.lits|
    requires forall cr :: cr in s.live && 0 <= cr < |s.ca| && |s.ca[cr]| >= 2 ==>
               s.t.lits[q] != Neg(s.ca[cr][0]) && s.t.lits[q] != Neg(s.ca[cr][1])
    ensures Ready(s, q + 1)
  {
    hide Base;
    forall cr, i | cr in s.live && 0 <= cr < |s.ca| && 0 <= i < q + 1
      ensures WatchedOk(s.t, s.ca[cr], i)
    {
      if i < q {
        assert WatchedOk(s.t, s.ca[cr], i);
      }
    }
  }

  // ---------- Variables lost to their order heap ----------

  /** Four clauses that a makes unsatisfiable, but not by unit propagation; a is variable 2. */
  function Square(): State {
    var x, y, a := Lit(0, false), Lit(1, false), Lit(2, false);
    Added(Added(Added(Added(Fresh(3), [x, y, Neg(a)]), [x, Neg(y), Neg(a)]), [Neg(x), y, Neg(a)]),
          [Neg(x), Neg(y), Neg(a)])
  }

  lemma SquareReady()
    ensures Untouched(Square(), 3)
  {
    hide Untouched, Added;
    var x, y, a := Lit(0, false), Lit(1, false), Lit(2, false);
    FreshUntouched(3);
    AddedUntouched(Fresh(3), 3, [x, y, Neg(a)]);
    AddedUntouched(Added(Fresh(3), [x, y, Neg(a)]), 3, [x, Neg(y), Neg(a)]);
    AddedUntouched(Added(Added(Fresh(3), [x, y, Neg(a)]), [x, Neg(y), Neg(a)]), 3, [Neg(x), y, Neg(a)]);
    AddedUntouched(Added(Added(Added(Fresh(3), [x, y, Neg(a)]), [x, Neg(y), Neg(a)]), [Neg(x), y, Neg(a)]), 3,
                   [Neg(x), Neg(y), Neg(a)]);
  }

  lemma SquareClauses()
    ensures Square().ca == [[Lit(0, false), Lit(1, false), Lit(2, true)], [Lit(0, false), Lit(1, true), Lit(2, true)],
                            [Lit(0, true), Lit(1, false), Lit(2, true)], [Lit(0, true), Lit(1, true), Lit(2, true)]]
    ensures forall k :: 0 <= k < 4 ==> Square().ca[k] in Square().f
    ensures forall c :: c in Square().f ==> exists k :: 0 <= k < 4 && c == Square().ca[k]
  {
    assert Square().f == {Square().ca[0], Square().ca[1], Square().ca[2], Square().ca[3]};
  }

  lemma SquareMeaning()
    ensures UnsatUnder(Square().f, [Lit(2, false)]) && !UnsatUnder(Square().f, [Lit(2, true)])
  {
    hide Square;
    SquareClauses();
    var f, a := Square().f, Lit(2, false);
    forall m | Models(m, f)
      ensures !AllHold(m, [a])
    {
      SquareRefuted(m);
      assert a in [a];
    }
    var m: Model := iset{};
    forall c | c in f
      ensures Satisfies(m, c)
    {
      assert c[2] in c && Holds(m, c[2]);
    }
    assert AllHold(m, [Neg(a)]);
  }

  lemma SquareRefuted(m: Model)
    requires Models(m, Square().f)
    ensures 2 !in m
  {
    hide Square;
    SquareClauses();
    var k := if 0 in m then (if 1 in m then 3 else 2) else if 1 in m then 1 else 0;
    var c := Square().ca[k];
    assert Satisfies(m, c);
    assert c[0] in c && c[1] in c && !Holds(m, c[0]) && !Holds(m, c[1]);
  }

  /** The clauses in use are among the four, up to the order of their literals. */
  ghost predicate OverSquare(s: State) {
    forall cr :: cr in s.live && 0 <= cr < |s.ca| ==> exists c :: c in Square().f && SameLits(s.ca[cr], c)
  }

  /** A solver of the four clauses between two calls, with nothing learnt and nothing assigned. */
  ghost predicate AtRest(s: State) {
    Ready(s, 0) && s.f == Square().f && OverSquare(s) && s.t == Fresh(3).t
  }

  lemma SquareAtRest()
    ensures AtRest(Square())
  {
    hide Ready, Square;
    SquareReady();
    SquareClauses();
    var s := Square();
    forall cr | cr in s.live && 0 <= cr < |s.ca|
      ensures exists c :: c in s.f && SameLits(s.ca[cr], c)
    {
      assert s.ca[cr] in s.f && SameLits(s.ca[cr], s.ca[cr]);
    }
  }

  /** Each of the clauses has a literal of each variable. */
  lemma SquareVars(s: State, cr: int)
    requires OverSquare(s) && cr in s.live && 0 <= cr < |s.ca|
    ensures exists q0, q1 :: q0 in s.ca[cr] && q1 in s.ca[cr] && q0.v == 0 && q1.v == 1
  {
    hide Square;
    SquareClauses();
    var c :| c in Square().f && SameLits(s.ca[cr], c);
    assert |c| == 3 && c[0] in c && c[1] in c;
  }

  /** Once a is decided, propagation implies nothing and finds no clause false. */
  lemma SquareQuiet(t: Trail, s: State)
    requires Base(s) && OverSquare(s) && Extends(t, s.t) && t.lits == [Lit(2, false)]
    ensures s.t.lits == t.lits && forall cr :: cr in s.live && 0 <= cr < |s.ca| ==> !s.t.AllFalse(s.ca[cr])
  {
    hide Square, OverSquare, Listing, Stored, ClausesOk, LevelsMaximal, Leveled;
    if |s.t.lits| > 1 {
      var r := s.t.Reason(s.t.lits[1].v);
      assert Antecedents(s.t, s.ca, s.live, 1);
      SquareVars(s, r);
    }
    forall cr | cr in s.live && 0 <= cr < |s.ca|
      ensures !s.t.AllFalse(s.ca[cr])
    {
      SquareVars(s, cr);
      var q0 :| q0 in s.ca[cr] && q0.v == 0;
      if s.t.False(q0) {
        FalseIsBefore(s.t, q0);
      }
    }
  }

  /** A solver of the four clauses answers l_True for ~a, rightly, in VSIDS mode. The heap of that mode is then empty,
      as Solver.Finish states, and the next call uses it again. That call is for a: the assumption is decided,
      propagation implies nothing and finds no conflict, the heap offers nothing, so the answer is l_True again,
      although the clauses and a have no model. */
  lemma LostVariables(s: State, o: Order)
    requires AtRest(s) && o.Active() == {} && o.decision == {0, 1, 2}
    ensures var a := Lit(2, false);
      && var t := Enqueue(NewLevel(s.t), a, 1, UNDEF);
      && !UnsatUnder(s.f, [Neg(a)]) && UnsatUnder(s.f, [a])
      && Ready(s.(t := t), 0) && Assuming(t, [a]) && |t.lim| == 1
      && (forall s' | Base(s') && OverSquare(s') && Extends(t, s'.t) ::
            s'.t.lits == t.lits && forall cr :: cr in s'.live && 0 <= cr < |s'.ca| ==> !s'.t.AllFalse(s'.ca[cr]))
      && (forall v :: v in o.Active() && v in o.decision ==> v in t.assigns)
      && !(o.decision <= t.assigns.Keys) && !HeapFull(o, t.assigns.Keys)
  {
    hide Ready, Base, Assuming, Square, OverSquare, HeapFull, UnsatUnder, Extends;
    var a := Lit(2, false);
    SquareMeaning();
    RootAssuming(s, 0, [a]);
    DecideAll(s, a, [a]);
    var t := Enqueue(NewLevel(s.t), a, 1, UNDEF);
    forall s' | Base(s') && OverSquare(s') && Extends(t, s'.t)
      ensures s'.t.lits == t.lits && forall cr :: cr in s'.live && 0 <= cr < |s'.ca| ==> !s'.t.AllFalse(s'.ca[cr])
    {
      SquareQuiet(t, s');
    }
    assert 0 in o.decision && 0 !in t.assigns;
    NothingExact(o, t.assigns.Keys);
  }

  // ---------- An assumption that blames itself ----------

  /** ~a follows from the two clauses; b is variable 0 and a variable 1. */
  function Pair(): State {
    Added(Added(Fresh(3), [Lit(1, true), Lit(2, false)]), [Lit(1, true), Lit(2, true)])
  }

  lemma PairReady()
    ensures Untouched(Pair(), 3)
    ensures Pair().ca == [[Lit(1, true), Lit(2, false)], [Lit(1, true), Lit(2, true)]] && Pair().live == {0, 1}
    ensures Entails(Pair().f, [Lit(1, true)])
  {
    PairUntouched();
    var c0, c1: Clause := [Lit(1, true), Lit(2, false)], [Lit(1, true), Lit(2, true)];
    assert c0 in Pair().f && c1 in Pair().f;
    forall m | Models(m, Pair().f)
      ensures Satisfies(m, [Lit(1, true)])
    {
      assert Satisfies(m, c0) && Satisfies(m, c1);
      assert Lit(1, true) in [Lit(1, true)];
    }
  }

  lemma PairUntouched()
    ensures Untouched(Pair(), 3)
  {
    hide Untouched, Added;
    FreshUntouched(3);
    AddedUntouched(Fresh(3), 3, [Lit(1, true), Lit(2, false)]);
    AddedUntouched(Added(Fresh(3), [Lit(1, true), Lit(2, false)]), 3, [Lit(1, true), Lit(2, true)]);
  }

  /** The assumptions b and a have been decided. */
  function BothAssumed(): State {
    Pair().(t := Trail([Lit(0, false), Lit(1, false)], [0, 1], map[0 := true, 1 := true],
                       [VarData(UNDEF, 1), VarData(UNDEF, 2), VarData(UNDEF, 0)]))
  }

  lemma BothAssumedReady()
    ensures Ready(BothAssumed(), 1) && Assuming(BothAssumed().t, [Lit(0, false), Lit(1, false)])
  {
    hide Ready, Assuming, Pair;
    var a, b, s := Lit(1, false), Lit(0, false), Pair();
    PairReady();
    RootAssuming(s, 0, [b, a]);
    DecideAll(s, b, [b, a]);
    var s1 := s.(t := Enqueue(NewLevel(s.t), b, 1, UNDEF));
    ReadyOn(s1, 0);
    DecideAll(s1, a, [b, a]);
    var s2 := s1.(t := Enqueue(NewLevel(s1.t), a, 2, UNDEF));
    assert s2.t == BothAssumed().t;
    assert s2 == BothAssumed();
  }

  /** Propagating a, the first clause implies c and the second becomes false. */
  function Clash(): State {
    var s := BothAssumed();
    s.(t := Enqueue(s.t, Lit(2, false), 2, 0))
  }

  lemma ClashConflict()
    ensures Base(Clash()) && Conflicting(Clash().t, Clash().ca, Clash().live, 1, 1)
    ensures Learnt(Clash().t, Clash().f, [Lit(1, true)], 2, 0) && Assuming(Clash().t, [Lit(0, false), Lit(1, false)])
  {
    hide Base, WatchInv, Assuming, Entails, Pair;
    PairReady();
    BothAssumedReady();
    var s := BothAssumed();
    ClashBase();
    EnqueueWatchInv(s.t, Lit(2, false), 2, 0, s.ca, s.live, 1);
    ReadyTrail1(s, 1);
    EnqueueAssuming(s.t, Lit(2, false), 2, 0, [Lit(0, false), Lit(1, false)]);
    assert Clash().t.lits[1] == Neg(Clash().ca[1][0]) && Clash().t.lits[2] == Neg(Clash().ca[1][1]);
  }

  lemma ReadyTrail1(s: State, qhead: nat)
    requires Ready(s, qhead)
    ensures Consistent(s.t)
  {
  }

  /** Enqueueing what a stored clause implies, in the middle of propagation. */
  lemma ImpliedBase(s: State, qhead: nat, cr: int, p: Lit, level: nat)
    requires Ready(s, qhead) && cr in s.live && 0 <= cr < |s.ca| && Implies(s.t, s.ca[cr], p, level)
    requires p.v < |s.t.vardata| && s.t.Undef(p) && level <= |s.t.lim|
    ensures Base(s.(t := Enqueue(s.t, p, level, cr)))
  {
    hide WatchInv, Derived, Covering, Lists01, ClausesOk, Consistent, Justified, LevelsMaximal, Leveled, Implies;
    ReadyParts(s, qhead);
    EnqueueKeepsInv(s.t, p, level, cr, s.ca, s.live);
    ImpliedDerived(s.t, cr, p, level, s.ca, s.live, s.problem, s.f);
    SameSize(s.ca, s.live, |s.t.vardata|, |Enqueue(s.t, p, level, cr).vardata|);
  }

  lemma ClashBase()
    ensures Base(Clash())
  {
    hide Ready, Base, Assuming, Entails, Pair;
    PairReady();
    BothAssumedReady();
    var s, c := BothAssumed(), Lit(2, false);
    assert s.ca[0][0] in s.ca[0] && s.ca[0][1] in s.ca[0];
    ImpliedBase(s, 1, 0, c, 2);
  }

  /** ~a is learnt and enqueued at level 0 after backtracking to level 1 only. */
  function Late(): State
  {
    var s := Clash();
    s.(t := Enqueue(CancelUntil(s.t, 1), Lit(1, true), 0, UNDEF))
  }

  lemma LateTrail()
    ensures Late().t.lits == [Lit(0, false), Lit(1, true)] && Late().t.lim == [0]
    ensures Late().t.Reason(1) == UNDEF && Late().t.Level(1) == 0
  {
    var t := Clash().t;
    assert t.LevelAt(0) == 1 && t.LevelAt(1) == 2 && t.LevelAt(2) == 2;
    assert Kept(t, 1, 1) == [0];
    assert Kept(t, 1, 2) == [0];
    assert Kept(t, 1, 3) == [0];
  }

  lemma LateReady()
    ensures Ready(Late(), 2) && Assuming(Late().t, [Lit(0, false), Lit(1, false)])
  {
    hide Ready, Base, WatchInv, Assuming, Entails, Pair, Kept, Late;
    PairReady();
    ClashConflict();
    LateTrail();
    var s := Clash();
    ClashWatched();
    CancelReady(s, 1);
    var s1 := Cancelled(s, 1);
    UnitReady(s1, 1, Lit(1, true));
    CancelAssuming(s.t, 1, [Lit(0, false), Lit(1, false)]);
    ReadyTrail1(s1, 1);
    EnqueueAssuming(s1.t, Lit(1, true), 0, UNDEF, [Lit(0, false), Lit(1, false)]);
    LateUnfolded();
    ReadyOn(Late(), 1);
  }

  lemma LateUnfolded()
    ensures Late() == Cancelled(Clash(), 1).(t := Enqueue(Cancelled(Clash(), 1).t, Lit(1, true), 0, UNDEF))
    ensures Late().ca == Pair().ca && Late().live == Pair().live
  {
  }

  lemma ClashWatched()
    requires Conflicting(Clash().t, Clash().ca, Clash().live, 1, 1)
    ensures WatchInv(Clash().t, Clash().ca, Clash().live, Clash().t.lim[1])
  {
  }

  /** Assumptions b and a, in this order. Propagating a gives a conflict from which ~a is learnt. If backtracking is
      chronological ~a joins the trail above b, at level 0, and analyzeFinal, asked why a is false, can only answer
      with a and ~a. */
  lemma LateUnitExample()
    ensures var a, b, s := Lit(1, false), Lit(0, false), Late();
      && Conflicting(Clash().t, Clash().ca, Clash().live, 1, 1) && Learnt(Clash().t, Clash().f, [Neg(a)], 2, 0)
      && BacktrackTo(0, 0, 1, 2, 2, 0) == 1 && BacktrackTo(4000, 100, 1, 2, 2, 0) == 0
      && s.t == Enqueue(CancelUntil(Clash().t, 1), Neg(a), 0, UNDEF)
      && Ready(s, |s.t.lits|) && Assuming(s.t, [b, a]) && |s.t.lim| == 1 && s.t.False(a) && LateRootUnit(s.t, Neg(a))
      && Tracing(s.t, s.ca, s.t.lim[0], Neg(a), {}, {1}, [Neg(a), a])
      && forall seen, visited, conflict | Tracing(s.t, s.ca, s.t.lim[0], Neg(a), seen, visited,
                                                  conflict) :: a in conflict
  {
    hide Ready, Assuming, Tracing, Conflicting, Learnt, Clash, CancelUntil;
    ClashConflict();
    LateTrail();
    LateReady();
    LateBlame(Late(), Lit(1, false), Lit(0, false));
  }

  lemma LateBlame(s: State, a: Lit, b: Lit)
    requires Ready(s, 2) && Assuming(s.t, [b, a]) && s.t.lits == [b, Neg(a)] && s.t.lim == [0]
    requires s.t.Reason(a.v) == UNDEF && s.t.Level(a.v) == 0
    ensures s.t.False(a) && LateRootUnit(s.t, Neg(a)) && Tracing(s.t, s.ca, s.t.lim[0], Neg(a), {}, {a.v}, [Neg(a), a])
    ensures forall seen, visited, conflict | Tracing(s.t, s.ca, s.t.lim[0], Neg(a), seen, visited,
                                                     conflict) :: a in conflict
  {
    hide Ready, Assuming, Tracing;
    ReadyLeveled(s, 2);
    assert s.t.lits[1] == Neg(a) && s.t.True(s.t.lits[1]) && Neg(Neg(a)) == a;
    LateTraced(s.t, s.ca, a);
    forall seen, visited, conflict | Tracing(s.t, s.ca, s.t.lim[0], Neg(a), seen, visited, conflict)
      ensures a in conflict
    {
      AssumingParts(s.t, [b, a]);
      FinalShape(s.t, s.ca, Neg(a), seen, visited, conflict, [b, a]);
    }
  }

  lemma ReadyLeveled(s: State, qhead: nat)
    requires Ready(s, qhead)
    ensures Consistent(s.t) && Leveled(s.t)
  {
  }

  lemma LateTraced(t: Trail, ca: seq<Clause>, a: Lit)
    requires Consistent(t) && |t.lits| == 2 && t.lits[1] == Neg(a) && t.lim == [0] && t.Reason(a.v) == UNDEF
    ensures Tracing(t, ca, t.lim[0], Neg(a), {}, {a.v}, [Neg(a), a])
  {
    hide Tracing;
    assert t.True(t.lits[1]) && Neg(Neg(a)) == a;
    TraceStart(t, ca, Neg(a));
    TraceDecision(t, ca, 1, Neg(a), {a.v}, {a.v}, [Neg(a)]);
    assert {a.v} - {a.v} == {} && [Neg(a)] + [a] == [Neg(a), a];
    TraceSkip(t, ca, 0, Neg(a), {}, {a.v}, [Neg(a), a]);
  }
}
