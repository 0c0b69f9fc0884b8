/** The solver's state as a value: its invariant, and what each step of propagation keeps. */
module Kernel {
  import opened Cnf
  import opened Trails
  import opened Backtracking
  import opened Watching
  import opened Database
  import opened Propagation
  import opened Analysis
  import opened Unwinding
  import opened Redundancy

  /** A snapshot of the solver: trail, clause arena, references in use, watch lists (and which of them await
      cleaning), problem clauses, and the formula added so far. */
  datatype State = State(t: Trail, ca: seq<Clause>, live: set<int>, w: Lists, wb: Lists, dirty: set<Lit>,
                         dirtyBin: set<Lit>, problem: set<int>, f: set<Clause>)

  /** The references in a list. */
  ghost function Refs(crs: seq<int>): (r: set<int>)
    ensures forall cr :: cr in r <==> cr in crs
  {
    set cr | cr in crs
  }

  lemma RefsPush(crs: seq<int>, cr: int)
    ensures Refs(crs + [cr]) == Refs(crs) + {cr}
  {
  }

  ghost predicate Stored(s: State) {
    && Derived(s.t, s.ca, s.live, s.f) && Covering(s.t, s.ca, s.problem, s.f)
    && (forall cr :: cr in s.problem ==> cr in s.live && 0 <= cr < |s.ca|)
  }

  ghost predicate Listing(s: State) {
    Lists01(s.w, s.ca, s.live, s.dirty, false) && Lists01(s.wb, s.ca, s.live, s.dirtyBin, true)
  }

  ghost predicate Base(s: State) {
    TrailInv(s.t, s.ca, s.live) && ClausesOk(s.ca, s.live, |s.t.vardata|) && Listing(s) && Stored(s)
  }

  /** Every position below qhead has been propagated, and every decision level starts at or below qhead. */
  ghost predicate Ready(s: State, qhead: nat) {
    && Base(s) && qhead <= |s.t.lits|
    && (forall a :: 0 <= a < |s.t.lim| ==> s.t.lim[a] <= qhead)
    && WatchInv(s.t, s.ca, s.live, qhead)
  }

  /** The long watch list of the literal at position q has been visited up to z; a is what was kept of it. */
  ghost predicate Mid(s: State, q: nat, a: seq<Watcher>, z: seq<Watcher>) {
    && Visiting(s.t, s.ca, s.live, q, z) && s.dirty == {} && s.dirtyBin == {}
    && Listing(s.(w := s.w[s.t.lits[q] := a + z])) && Stored(s)
  }

  /** cr is a stored clause that the trail falsifies, both of whose watches were falsified at bound or later. */
  ghost predicate Conflicting(t: Trail, ca: seq<Clause>, live: set<int>, cr: int, bound: nat) {
    && cr in live && 0 <= cr < |ca| && |ca[cr]| >= 2 && t.AllFalse(ca[cr])
    && (forall a :: 0 <= a < |t.lim| ==> t.lim[a] <= bound)
    && WatchInv(t, ca, live, bound)
    && FalsifiedFrom(t, ca[cr][0], bound) && FalsifiedFrom(t, ca[cr][1], bound)
  }

  ghost predicate FalsifiedFrom(t: Trail, l: Lit, bound: nat) {
    exists i :: bound <= i < |t.lits| && t.lits[i] == Neg(l)
  }

  lemma ConflictFound(s: State, q: nat, pending: seq<Watcher>, cr: int)
    requires Visiting(s.t, s.ca, s.live, q, pending) && cr in s.live && s.t.AllFalse(s.ca[cr])
    ensures Conflicting(s.t, s.ca, s.live, cr, q)
  {
    ConflictWatches(s.t, s.ca, s.live, q, pending, cr, 0);
    ConflictWatches(s.t, s.ca, s.live, q, pending, cr, 1);
  }

  // ---------- One iteration over the long watch list ----------

  lemma FrontWatcher(s: State, q: nat, a: seq<Watcher>, x: Watcher, z: seq<Watcher>)
    requires Mid(s, q, a, [x] + z)
    ensures q < |s.t.lits|
    ensures x.cref in s.live && 0 <= x.cref < |s.ca| && |s.ca[x.cref]| > 2 && Distinct(s.ca[x.cref])
    ensures s.ca[x.cref][0] == Neg(s.t.lits[q]) || s.ca[x.cref][1] == Neg(s.t.lits[q])
    ensures x.blocker in s.ca[x.cref] && s.t.True(s.t.lits[q]) && s.t.LevelAt(q) <= |s.t.lim|
  {
    hide Derived, Covering, WatchInv, TrailInv, Visiting, AllListed;
    VisitingAssigned(s.t, s.ca, s.live, q, [x] + z);
    var p := s.t.lits[q];
    var ws := a + ([x] + z);
    assert ListOk(s.ca, s.live, {}, false, p, s.w[p := ws][p]);
    assert ws[|a|] == x;
    assert WatcherOk(s.ca, s.live, {}, false, p, x);
  }

  /** A true literal in the clause: the watcher stays, with another blocker. */
  lemma MidSatisfied(s: State, q: nat, a: seq<Watcher>, x: Watcher, y: Watcher, z: seq<Watcher>)
    requires Mid(s, q, a, [x] + z) && 0 <= x.cref < |s.ca|
    requires y.cref == x.cref && y.blocker in s.ca[x.cref] && s.t.True(y.blocker)
    ensures Mid(s, q, a + [y], z)
  {
    hide Derived, Covering, Visiting, Lists01;
    VisitingAssigned(s.t, s.ca, s.live, q, [x] + z);
    TrueBlocks(s.t, s.ca[x.cref], y.blocker, q);
    VisitedOne(s.t, s.ca, s.live, q, x, z);
    assert a + ([x] + z) == a + [x] + z;
    KeepLists(s.w, s.ca, s.live, s.t.lits[q], a, x, y, z);
  }

  /** The watched literal just falsified is moved to index 1. */
  lemma MidNormalise(s: State, q: nat, a: seq<Watcher>, x: Watcher, z: seq<Watcher>)
    requires Mid(s, q, a, [x] + z) && 0 <= x.cref < |s.ca|
    requires |s.ca[x.cref]| >= 2 && s.ca[x.cref][0] == Neg(s.t.lits[q])
    ensures Mid(s.(ca := s.ca[x.cref := Swap(s.ca[x.cref], 0, 1)]), q, a, [x] + z)
  {
    hide Derived, Covering, Visiting, Lists01;
    FrontWatcher(s, q, a, x, z);
    SwapLits(s.ca[x.cref], 0, 1);
    VisitSwap(s.t, s.ca, s.live, q, [x] + z, x.cref);
    SwapLists(s.w[s.t.lits[q] := a + ([x] + z)], s.ca, s.live, {}, false, x.cref);
    SwapLists(s.wb, s.ca, s.live, {}, true, x.cref);
    RearrangeDerived(s.t, s.ca, s.live, s.problem, s.f, x.cref, Swap(s.ca[x.cref], 0, 1));
  }

  /** Another literal of the clause is not false: the clause watches it instead. */
  lemma MidMove(s: State, q: nat, a: seq<Watcher>, x: Watcher, y: Watcher, z: seq<Watcher>, k: nat)
    requires Mid(s, q, a, [x] + z) && x.cref == y.cref && 0 <= x.cref < |s.ca| && 2 <= k < |s.ca[x.cref]|
    requires s.ca[x.cref][1] == Neg(s.t.lits[q]) && y.blocker == s.ca[x.cref][0] && !s.t.False(s.ca[x.cref][k])
    ensures Mid(s.(ca := s.ca[x.cref := Swap(s.ca[x.cref], 1, k)], w := Push(s.w, Neg(s.ca[x.cref][k]), y)), q, a, z)
  {
    hide Derived, Covering, Visiting, Lists01;
    FrontWatcher(s, q, a, x, z);
    VisitMove(s.t, s.ca, s.live, q, x, z, k);
    MidMoveLists(s, s.t.lits[q], a, x, y, z, k);
  }

  lemma MidMoveLists(s: State, p: Lit, a: seq<Watcher>, x: Watcher, y: Watcher, z: seq<Watcher>, k: nat)
    requires Listing(s.(w := s.w[p := a + ([x] + z)])) && Stored(s) && s.dirty == {} && s.dirtyBin == {}
    requires x.cref == y.cref && x.cref in s.live && 0 <= x.cref < |s.ca| && 2 <= k < |s.ca[x.cref]|
    requires s.ca[x.cref][1] == Neg(p) && Distinct(s.ca[x.cref]) && y.blocker == s.ca[x.cref][0]
    ensures Listing(s.(ca := s.ca[x.cref := Swap(s.ca[x.cref], 1, k)],
                       w := Push(s.w, Neg(s.ca[x.cref][k]), y)[p := a + z]))
    ensures Stored(s.(ca := s.ca[x.cref := Swap(s.ca[x.cref], 1, k)]))
  {
    hide Derived, Covering, Lists01;
    SwapLits(s.ca[x.cref], 1, k);
    assert a + ([x] + z) == a + [x] + z;
    MoveLists(s.w, s.ca, s.live, p, a, x, y, z, k);
    OtherKindReordered(s.wb, s.ca, s.live, {}, true, x.cref, Swap(s.ca[x.cref], 1, k));
    RearrangeDerived(s.t, s.ca, s.live, s.problem, s.f, x.cref, Swap(s.ca[x.cref], 1, k));
  }

  /** The clause is unit: its first literal is enqueued at the highest level of the others. */
  lemma MidUnit(s: State, q: nat, a: seq<Watcher>, x: Watcher, y: Watcher, z: seq<Watcher>, level: nat)
    requires Mid(s, q, a, [x] + z) && 0 <= x.cref < |s.ca| && |s.ca[x.cref]| > 0 && level <= |s.t.lim|
    requires x.cref == y.cref && y.blocker == s.ca[x.cref][0] && s.t.Undef(y.blocker)
    requires Implies(s.t, s.ca[x.cref], y.blocker, level)
    ensures y.blocker.v < |s.t.vardata|
    ensures Mid(s.(t := Enqueue(s.t, y.blocker, level, x.cref)), q, a + [y], z)
  {
    hide Derived, Covering, Visiting, Lists01;
    FrontWatcher(s, q, a, x, z);
    VisitUnit(s.t, s.ca, s.live, q, x, z, y.blocker, level);
    VisitingConsistent(s.t, s.ca, s.live, q, [x] + z);
    ImpliedDerived(s.t, x.cref, y.blocker, level, s.ca, s.live, s.problem, s.f);
    assert a + ([x] + z) == a + [x] + z;
    KeepLists(s.w, s.ca, s.live, s.t.lits[q], a, x, y, z);
  }

  /** As MidUnit, the clause now watching a literal of the highest level. */
  lemma MidUnitRewatch(s: State, q: nat, a: seq<Watcher>, x: Watcher, y: Watcher, z: seq<Watcher>, level: nat, k: nat)
    requires Mid(s, q, a, [x] + z) && 0 <= x.cref < |s.ca| && 2 <= k < |s.ca[x.cref]| && level <= |s.t.lim|
    requires x.cref == y.cref && y.blocker == s.ca[x.cref][0] && s.t.Undef(y.blocker)
    requires s.ca[x.cref][1] == Neg(s.t.lits[q]) && s.t.Level(s.ca[x.cref][k].v) == level
    requires Implies(s.t, s.ca[x.cref], y.blocker, level) && s.ca[x.cref][k].v != y.blocker.v
    ensures y.blocker.v < |s.t.vardata|
    ensures Mid(s.(t := Enqueue(s.t, y.blocker, level, x.cref), ca := s.ca[x.cref := Swap(s.ca[x.cref], 1, k)],
                   w := Push(s.w, Neg(s.ca[x.cref][k]), y)), q, a, z)
  {
    hide Derived, Covering, Visiting, Lists01;
    FrontWatcher(s, q, a, x, z);
    VisitUnit(s.t, s.ca, s.live, q, x, z, y.blocker, level);
    VisitingConsistent(s.t, s.ca, s.live, q, [x] + z);
    ImpliedDerived(s.t, x.cref, y.blocker, level, s.ca, s.live, s.problem, s.f);
    var t' := Enqueue(s.t, y.blocker, level, x.cref);
    VisitRewatch(t', s.ca, s.live, q, z, x.cref, k);
    MidMoveLists(s.(t := t'), s.t.lits[q], a, x, y, z, k);
  }

  lemma MidConsistent(s: State, q: nat, a: seq<Watcher>, z: seq<Watcher>)
    requires Mid(s, q, a, z)
    ensures Consistent(s.t)
  {
    VisitingConsistent(s.t, s.ca, s.live, q, z);
  }

  lemma MidLevels(s: State, q: nat, a: seq<Watcher>, z: seq<Watcher>)
    requires Mid(s, q, a, z)
    ensures forall l :: s.t.False(l) ==> s.t.Level(l.v) <= |s.t.lim|
  {
    hide Derived, Covering, Lists01;
    VisitingConsistent(s.t, s.ca, s.live, q, z);
    forall l | s.t.False(l)
      ensures s.t.Level(l.v) <= |s.t.lim|
    {
      AssignedLevel(s.t, l);
    }
  }

  /** Everything after the first literal is false, the highest level being at index k. */
  lemma ImpliesFirst(t: Trail, c: Clause, k: nat, level: nat)
    requires 1 <= k < |c| && Distinct(c) && t.Level(c[k].v) == level
    requires forall n :: 1 <= n < |c| ==> t.False(c[n]) && t.Level(c[n].v) <= level
    ensures Implies(t, c, c[0], level)
  {
    assert c[0] in c && c[k] in c && c[k] != c[0];
  }

  /** The list is unchanged but for the blocker; the clause of x is false. */
  lemma MidConflict(s: State, q: nat, a: seq<Watcher>, x: Watcher, y: Watcher, z: seq<Watcher>)
    requires Mid(s, q, a, [x] + z) && x.cref in s.live && 0 <= x.cref < |s.ca| && s.t.AllFalse(s.ca[x.cref])
    requires x.cref == y.cref && y.blocker in s.ca[x.cref]
    ensures Conflicting(s.t, s.ca, s.live, x.cref, q) && q < |s.t.lits|
    ensures Base(s.(w := s.w[s.t.lits[q] := a + [y] + z]))
  {
    hide Derived, Covering, Lists01, WatchInv, TrailInv, ClausesOk;
    ConflictFound(s, q, [x] + z, x.cref);
    assert a + ([x] + z) == a + [x] + z;
    KeepLists(s.w, s.ca, s.live, s.t.lits[q], a, x, y, z);
  }

  lemma MidEnd(s: State, q: nat, a: seq<Watcher>)
    requires Mid(s, q, a, [])
    ensures q < |s.t.lits| && Base(s.(w := s.w[s.t.lits[q] := a])) && WatchInv(s.t, s.ca, s.live, q + 1)
  {
    hide Derived, Covering, Lists01, WatchInv, TrailInv, ClausesOk;
    assert a + [] == a;
    VisitDone(s.t, s.ca, s.live, q);
  }

  lemma ListOfLiteral(s: State, p: Lit)
    requires Listing(s)
    ensures ListOk(s.ca, s.live, s.dirtyBin, true, p, At(s.wb, p))
    ensures ListOk(s.ca, s.live, s.dirty, false, p, At(s.w, p))
  {
  }

  lemma MidStart(s: State, q: nat)
    requires q < |s.t.lits| && Visiting(s.t, s.ca, s.live, q, At(s.w, s.t.lits[q])) && s.dirty == {} && s.dirtyBin == {}
    requires Listing(s) && Stored(s)
    ensures Mid(s, q, [], At(s.w, s.t.lits[q]))
  {
    hide Derived, Covering, Visiting, Lists01;
    var p, ws := s.t.lits[q], At(s.w, s.t.lits[q]);
    assert [] + ws == ws;
    RelistedSame(s.w, s.ca, s.live, p);
  }

  lemma RelistedSame(w: Lists, ca: seq<Clause>, live: set<int>, p: Lit)
    requires Lists01(w, ca, live, {}, false)
    ensures Lists01(w[p := At(w, p)], ca, live, {}, false)
  {
    hide ListOk;
    var w': Lists := w[p := At(w, p)];
    EmptyListOk(ca, live, {}, false, p);
    forall l, cr | Listed(w, l, cr)
      ensures Listed(w', l, cr)
    {
      assert At(w', l) == At(w, l);
    }
  }

  lemma BinaryConflict(s: State, q: nat, cr: int)
    requires (exists ws :: Visiting(s.t, s.ca, s.live, q, ws)) && cr in s.live && 0 <= cr < |s.ca|
    requires s.t.AllFalse(s.ca[cr])
    requires Listing(s) && Stored(s)
    ensures Base(s) && Conflicting(s.t, s.ca, s.live, cr, q)
  {
    var ws :| Visiting(s.t, s.ca, s.live, q, ws);
    ConflictFound(s, q, ws, cr);
  }

  lemma CleanReady(s: State, s': State, qhead: nat)
    requires Ready(s, qhead) && Listing(s')
    requires s' == s.(w := s'.w, wb := s'.wb, dirty := s'.dirty, dirtyBin := s'.dirtyBin)
    ensures Ready(s', qhead)
  {
  }

  lemma ReadyParts(s: State, qhead: nat)
    requires Ready(s, qhead)
    ensures Listing(s) && Stored(s) && TrailInv(s.t, s.ca, s.live)
  {
  }

  lemma BaseBound(s: State)
    requires Base(s)
    ensures |s.t.lits| <= |s.t.vardata|
  {
    TrailBound(s.t);
  }

  lemma ReadyVisit(s: State, q: nat)
    requires Ready(s, q) && q < |s.t.lits| && s.dirty == {} && s.dirtyBin == {}
    ensures Visiting(s.t, s.ca, s.live, q, At(s.wb, s.t.lits[q]) + At(s.w, s.t.lits[q]))
    ensures ListOk(s.ca, s.live, {}, true, s.t.lits[q], At(s.wb, s.t.lits[q])) && Stored(s) && Listing(s)
    ensures |s.t.lits| <= |s.t.vardata|
  {
    BaseBound(s);
    StartVisit(s.t, s.ca, s.live, q, s.w, s.wb);
    ListOfLiteral(s, s.t.lits[q]);
  }

  // ---------- FindConflictLevel ----------

  /** The clause with its literal of the highest level moved to the front, and the lists to match. */
  function Fronted(s: State, cr: int, k: nat, w: Lists): State
    requires 0 <= cr < |s.ca| && k < |s.ca[cr]|
  {
    s.(ca := s.ca[cr := Swap(s.ca[cr], 0, k)], w := w)
  }

  /** Watching the literal at index k > 1 instead of the one at index 0. */
  lemma RewatchFirst(w: Lists, ca: seq<Clause>, live: set<int>, cr: int, k: nat, a: seq<Watcher>, x: Watcher,
                     y: Watcher, z: seq<Watcher>)
    requires Lists01(w, ca, live, {}, false) && cr in live && 0 <= cr < |ca| && 2 <= k < |ca[cr]| && Distinct(ca[cr])
    requires At(w, Neg(ca[cr][0])) == a + [x] + z && x.cref == y.cref == cr && y.blocker in ca[cr]
    ensures Lists01(Push(w[Neg(ca[cr][0]) := a + z], Neg(ca[cr][k]), y), ca[cr := Swap(ca[cr], 0, k)], live, {}, false)
  {
    hide Lists01;
    var c, p := ca[cr], Neg(ca[cr][0]);
    SwapLits(c, 0, 1);
    var c1 := Swap(c, 0, 1);
    SwapLits(c1, 1, k);
    var c2 := Swap(c1, 1, k);
    SwapLists(w, ca, live, {}, false, cr);
    assert (a + [x] + z)[|a|] == x && p in w && w[p := a + [x] + z] == w;
    MoveLists(w, ca[cr := c1], live, p, a, x, y, z, k);
    assert ca[cr := c1][cr := c2] == ca[cr := c2];
    SwapLists(Push(w, Neg(c[k]), y)[p := a + z], ca[cr := c2], live, {}, false, cr);
    assert Swap(c2, 0, 1) == Swap(c, 0, k);
    assert ca[cr := c2][cr := Swap(c, 0, k)] == ca[cr := Swap(c, 0, k)];
    assert p != Neg(c[k]);
    assert Push(w, Neg(c[k]), y)[p := a + z] == Push(w[p := a + z], Neg(c[k]), y);
  }

  /** Moving a literal of a false clause to its front keeps the database and the trail invariant. */
  lemma FrontedBase(s: State, cr: int, k: nat, w: Lists)
    requires Base(s) && s.dirty == {} && s.dirtyBin == {} && cr in s.live && 0 <= cr < |s.ca| && k < |s.ca[cr]|
    requires s.t.AllFalse(s.ca[cr])
    requires k < 2 ==> w == s.w
    requires k >= 2 ==> Lists01(w, s.ca[cr := Swap(s.ca[cr], 0, k)], s.live, {}, false)
    ensures Base(Fronted(s, cr, k, w)) && Fronted(s, cr, k, w).t.AllFalse(Fronted(s, cr, k, w).ca[cr])
  {
    hide Derived, Covering, Lists01, TrailInv, ClausesOk;
    var c := Swap(s.ca[cr], 0, k);
    SwapLits(s.ca[cr], 0, k);
    assert s.t.False(s.ca[cr][0]);
    RearrangeTrail(s.t, s.ca, s.live, cr, c);
    RearrangeClauses(s.ca, s.live, |s.t.vardata|, cr, c);
    RearrangeDerived(s.t, s.ca, s.live, s.problem, s.f, cr, c);
    if k == 0 {
      assert c == s.ca[cr] && s.ca[cr := c] == s.ca;
    } else if k == 1 {
      SwapLists(s.w, s.ca, s.live, {}, false, cr);
      SwapLists(s.wb, s.ca, s.live, {}, true, cr);
    } else {
      OtherKindReordered(s.wb, s.ca, s.live, {}, true, cr, c);
    }
  }

  /** Below the highest level of the conflict the watch invariant survives the exchange. */
  lemma FrontedWatchInv(t: Trail, ca: seq<Clause>, live: set<int>, cr: int, k: nat, bound: nat, b: nat)
    requires Consistent(t) && Leveled(t) && Conflicting(t, ca, live, cr, bound) && k < |ca[cr]|
    requires b < |t.lim| && b < t.Level(ca[cr][k].v)
    ensures WatchInv(t, ca[cr := Swap(ca[cr], 0, k)], live, t.lim[b])
  {
    var c := ca[cr];
    var d := Swap(c, 0, k);
    var i0 :| bound <= i0 < |t.lits| && t.lits[i0] == Neg(c[0]);
    var i1 :| bound <= i1 < |t.lits| && t.lits[i1] == Neg(c[1]);
    assert t.lim[b] <= bound;
    assert d[1] == c[0] || d[1] == c[1];
    forall i: nat | i < t.lim[b]
      ensures t.lits[i] != Neg(d[0]) && t.lits[i] != Neg(d[1])
    {
      assert t.LevelAt(i) <= b;
      assert t.lits[i].v != t.lits[i0].v && t.lits[i].v != t.lits[i1].v;
    }
    var ca' := ca[cr := d];
    forall cr2, i | cr2 in live && 0 <= cr2 < |ca| && 0 <= i < t.lim[b]
      ensures WatchedOk(t, ca'[cr2], i)
    {
      assert WatchedOk(t, ca[cr2], i);
    }
  }

  lemma LiveDistinct(s: State, cr: int)
    requires Base(s) && cr in s.live && 0 <= cr < |s.ca|
    ensures Distinct(s.ca[cr])
  {
  }

  lemma BaseParts(s: State)
    requires Base(s)
    ensures TrailInv(s.t, s.ca, s.live) && ClausesOk(s.ca, s.live, |s.t.vardata|) && Listing(s) && Stored(s)
  {
  }

  lemma WatcherOf(s: State, cr: int)
    requires Listing(s) && cr in s.live && 0 <= cr < |s.ca| && |s.ca[cr]| > 2
    ensures Listed(s.w, Neg(s.ca[cr][0]), cr)
  {
  }

  lemma WatchedTwice(s: State, qhead: nat, cr: int)
    requires Ready(s, qhead) && cr in s.live && 0 <= cr < |s.ca| && |s.ca[cr]| >= 2
    ensures Distinct(s.ca[cr]) && s.ca[cr][0] != s.ca[cr][1]
    ensures |s.ca[cr]| == 2 ==> Listed(s.wb, Neg(s.ca[cr][0]), cr) && Listed(s.wb, Neg(s.ca[cr][1]), cr)
    ensures |s.ca[cr]| > 2 ==> Listed(s.w, Neg(s.ca[cr][0]), cr) && Listed(s.w, Neg(s.ca[cr][1]), cr)
  {
  }

  lemma ConflictClause(s: State, cr: int, bound: nat)
    requires Base(s) && Conflicting(s.t, s.ca, s.live, cr, bound)
    ensures Distinct(s.ca[cr]) && (forall k :: 0 <= k < |s.ca[cr]| ==> s.t.Level(s.ca[cr][k].v) <= |s.t.lim|)
  {
    forall k | 0 <= k < |s.ca[cr]|
      ensures s.t.Level(s.ca[cr][k].v) <= |s.t.lim|
    {
      assert s.t.False(s.ca[cr][k]);
      AssignedLevel(s.t, s.ca[cr][k]);
    }
  }

  /** What FindConflictLevel leaves behind, the literal at index k having the highest level. */
  lemma FrontedAll(s: State, cr: int, k: nat, bound: nat, w: Lists)
    requires Base(s) && s.dirty == {} && s.dirtyBin == {} && Conflicting(s.t, s.ca, s.live, cr, bound) && k < |s.ca[cr]|
    requires k < 2 ==> w == s.w
    requires k >= 2 ==> Lists01(w, s.ca[cr := Swap(s.ca[cr], 0, k)], s.live, {}, false)
    ensures Base(Fronted(s, cr, k, w)) && s.t.AllFalse(Swap(s.ca[cr], 0, k))
    ensures forall b :: 0 <= b < |s.t.lim| && b < s.t.Level(s.ca[cr][k].v) ==>
              WatchInv(s.t, s.ca[cr := Swap(s.ca[cr], 0, k)], s.live, s.t.lim[b])
  {
    FrontedBase(s, cr, k, w);
    forall b | 0 <= b < |s.t.lim| && b < s.t.Level(s.ca[cr][k].v)
      ensures WatchInv(s.t, s.ca[cr := Swap(s.ca[cr], 0, k)], s.live, s.t.lim[b])
    {
      FrontedWatchInv(s.t, s.ca, s.live, cr, k, bound, b);
    }
  }

  lemma FrontedLevels(t: Trail, c: Clause, k: nat, onlyOne: bool)
    requires k < |c|
    requires forall j :: 0 <= j < |c| ==> t.Level(c[j].v) <= t.Level(c[k].v)
    requires onlyOne ==> forall j :: 0 <= j < |c| && j != k ==> t.Level(c[j].v) < t.Level(c[k].v)
    requires !onlyOne ==> exists j :: 0 <= j < |c| && j != k && t.Level(c[j].v) == t.Level(c[k].v)
    ensures forall j :: 0 <= j < |c| ==> t.Level(Swap(c, 0, k)[j].v) <= t.Level(c[k].v)
    ensures onlyOne ==> forall j :: 1 <= j < |c| ==> t.Level(Swap(c, 0, k)[j].v) < t.Level(c[k].v)
    ensures !onlyOne ==> exists j :: 1 <= j < |c| && t.Level(Swap(c, 0, k)[j].v) == t.Level(c[k].v)
  {
    var d := Swap(c, 0, k);
    if !onlyOne {
      var j :| 0 <= j < |c| && j != k && t.Level(c[j].v) == t.Level(c[k].v);
      assert d[if j == 0 then k else j] == c[j];
    }
  }

  // ---------- Conflict analysis ----------

  /** The state between a conflict of the given level and the backtracking that resolves it. */
  ghost predicate Analysing(s: State, level: nat) {
    && Base(s) && s.dirty == {} && s.dirtyBin == {} && 0 < level <= |s.t.lim|
    && (forall b :: 0 <= b < |s.t.lim| && b < level ==> WatchInv(s.t, s.ca, s.live, s.t.lim[b]))
  }

  lemma AnalysingParts(s: State, level: nat)
    requires Analysing(s, level)
    ensures TrailInv(s.t, s.ca, s.live) && ClausesOk(s.ca, s.live, |s.t.vardata|) && Listing(s) && Stored(s)
    ensures 0 < level <= |s.t.lim|
  {
  }

  /** Exchanging the two literals of a binary clause. */
  lemma SwapBinary(s: State, level: nat, cr: int)
    requires Analysing(s, level) && cr in s.live && 0 <= cr < |s.ca| && |s.ca[cr]| == 2
    ensures Analysing(s.(ca := s.ca[cr := Swap(s.ca[cr], 0, 1)]), level)
    ensures SameArena(s.ca, s.ca[cr := Swap(s.ca[cr], 0, 1)])
  {
    hide Derived, Covering, Lists01, TrailInv, ClausesOk;
    var c := Swap(s.ca[cr], 0, 1);
    SwapLits(s.ca[cr], 0, 1);
    RearrangeTrail(s.t, s.ca, s.live, cr, c);
    RearrangeClauses(s.ca, s.live, |s.t.vardata|, cr, c);
    RearrangeDerived(s.t, s.ca, s.live, s.problem, s.f, cr, c);
    SwapLists(s.w, s.ca, s.live, {}, false, cr);
    SwapLists(s.wb, s.ca, s.live, {}, true, cr);
    forall b | 0 <= b < |s.t.lim| && b < level
      ensures WatchInv(s.t, s.ca[cr := c], s.live, s.t.lim[b])
    {
      SwapWatchInv(s.t, s.ca, s.live, cr, s.t.lim[b]);
    }
  }

  lemma SwapWatchInv(t: Trail, ca: seq<Clause>, live: set<int>, cr: int, bound: nat)
    requires WatchInv(t, ca, live, bound) && 0 <= cr < |ca| && |ca[cr]| >= 2
    ensures WatchInv(t, ca[cr := Swap(ca[cr], 0, 1)], live, bound)
  {
    var ca' := ca[cr := Swap(ca[cr], 0, 1)];
    forall cr2, i | cr2 in live && 0 <= cr2 < |ca| && 0 <= i < bound
      ensures WatchedOk(t, ca'[cr2], i)
    {
      assert WatchedOk(t, ca[cr2], i);
      if cr2 == cr {
        SwapWatched(t, ca[cr], i);
      }
    }
  }

  /** A clause about to be flagged in analyze: the conflict itself, or the reason of the literal p just taken
      off the trail, which the clause has at its front. */
  ghost predicate ToMark(s: State, c0: Clause, level: nat, k: nat, mk: Marks, cr: int, j0: nat, p: Lit) {
    && Analysing(s, level) && Marked(s.t, level, k, mk) && cr in s.live && 0 <= cr < |s.ca|
    && (forall j :: j0 <= j < |s.ca[cr]| ==>
         s.t.False(s.ca[cr][j]) && s.t.Level(s.ca[cr][j].v) <= level && FoundBelow(s.t, s.ca[cr][j].v, k))
    && (if j0 == 0 then mk.visited == {} && s.ca[cr] == c0 && exists j :: 0 <= j < |c0| && s.t.Level(c0[j].v) == level
        else j0 == 1 && mk.open != {} && |s.ca[cr]| > 0 && s.ca[cr][0] == p && cr == s.t.Reason(p.v)
             && Touched(s.t, c0, mk.visited) && Resolved(s.t, s.ca, mk, p.v))
  }

  ghost predicate AllMarked(s: State, c0: Clause, level: nat, k: nat, mk: Marks) {
    && Analysing(s, level) && Marked(s.t, level, k, mk) && mk.open != {}
    && Touched(s.t, c0, mk.visited)
    && (forall v :: v in mk.visited && v !in mk.seen ==> Expanded(s.t, s.ca, mk.visited, v))
  }

  /** The literal at position i has been taken off the trail. */
  ghost predicate Taken(s: State, c0: Clause, level: nat, i: nat, mk: Marks) {
    && Analysing(s, level) && i < |s.t.lits| && Marked(s.t, level, i, mk) && s.t.LevelAt(i) == level
    && Touched(s.t, c0, mk.visited) && Resolved(s.t, s.ca, mk, s.t.lits[i].v)
  }

  lemma StartMarks(s: State, level: nat, cr: int)
    requires Analysing(s, level) && cr in s.live && 0 <= cr < |s.ca| && s.t.AllFalse(s.ca[cr])
    requires forall j :: 0 <= j < |s.ca[cr]| ==> s.t.Level(s.ca[cr][j].v) <= level
    requires exists j :: 0 <= j < |s.ca[cr]| && s.t.Level(s.ca[cr][j].v) == level
    ensures ToMark(s, s.ca[cr], level, |s.t.lits|, Marks({}, [], {}, {}), cr, 0, s.ca[cr][0])
    ensures s.t.lits != []
  {
    hide Base, WatchInv, Leveled, Justified, LevelsMaximal, Listing, Stored;
    AnalysingParts(s, level);
    forall j | 0 <= j < |s.ca[cr]|
      ensures s.t.False(s.ca[cr][j]) && FoundBelow(s.t, s.ca[cr][j].v, |s.t.lits|)
    {
      assert s.ca[cr][j] in s.ca[cr];
      FalseFound(s.t, s.ca[cr][j]);
    }
    assert Marked(s.t, level, |s.t.lits|, Marks({}, [], {}, {})) by {
      assert Vars([]) == {};
    }
  }

  lemma StoredEntails(s: State, level: nat, cr: int)
    requires Analysing(s, level) && cr in s.live && 0 <= cr < |s.ca|
    ensures Entails(s.f, s.ca[cr])
  {
  }

  lemma MarkableNow(s: State, c0: Clause, level: nat, k: nat, mk: Marks, cr: int, j0: nat, p: Lit)
    requires ToMark(s, c0, level, k, mk, cr, j0, p)
    ensures Marked(s.t, level, k, mk) && 0 <= cr < |s.ca| && j0 <= |s.ca[cr]|
    ensures forall j :: j0 <= j < |s.ca[cr]| ==>
              s.t.False(s.ca[cr][j]) && s.t.Level(s.ca[cr][j].v) <= level && FoundBelow(s.t, s.ca[cr][j].v, k)
  {
  }

  lemma MarkedNow(s: State, c0: Clause, level: nat, k: nat, mk: Marks)
    requires AllMarked(s, c0, level, k, mk)
    ensures Marked(s.t, level, k, mk) && mk.open != {} && k > 0
  {
    var v :| v in mk.open;
    assert FoundBelow(s.t, v, k);
  }

  lemma TakenNow(s: State, c0: Clause, level: nat, i: nat, mk: Marks)
    requires Taken(s, c0, level, i, mk)
    ensures Analysing(s, level) && i < |s.t.lits| && s.t.LevelAt(i) == level
  {
  }

  lemma AfterMark(s: State, c0: Clause, level: nat, k: nat, mk0: Marks, mk: Marks, cr: int, j0: nat, p: Lit)
    requires ToMark(s, c0, level, k, mk0, cr, j0, p) && Marked(s.t, level, k, mk)
    requires Marking(mk0, mk)
    requires forall j :: j0 <= j < |s.ca[cr]| ==> s.ca[cr][j].v in mk.visited || s.t.Level(s.ca[cr][j].v) == 0
    ensures AllMarked(s, c0, level, k, mk)
  {
    hide Base, WatchInv;
    if j0 == 0 {
      var j :| 0 <= j < |c0| && s.t.Level(c0[j].v) == level;
      assert c0[j].v in mk.visited && c0[j].v in mk.seen;
      assert c0[j].v !in Vars(mk.tail);
    } else {
      forall v | v in mk.visited && v !in mk.seen
        ensures Expanded(s.t, s.ca, mk.visited, v)
      {
        if v != p.v {
          ExpandedMore(s.t, s.ca, s.ca, mk0.visited, mk.visited, v);
        }
      }
    }
  }

  lemma AfterSelect(s: State, c0: Clause, level: nat, k: nat, mk: Marks, i: nat)
    requires AllMarked(s, c0, level, k, mk) && i < k && i < |s.t.lits| && s.t.lits[i].v in mk.open
    requires forall j :: i < j < k && j < |s.t.lits| ==> !(s.t.lits[j].v in mk.seen && s.t.LevelAt(j) >= level)
    ensures Taken(s, c0, level, i, mk.(seen := mk.seen - {s.t.lits[i].v}, open := mk.open - {s.t.lits[i].v}))
  {
    hide Base, WatchInv, Expanded;
    AnalysingParts(s, level);
    SelectStep(s.t, level, k, mk, i);
  }

  /** What the reason of the literal just taken looks like while others of its level remain. */
  lemma TakenReason(s: State, c0: Clause, level: nat, i: nat, mk: Marks)
    requires Taken(s, c0, level, i, mk) && mk.open != {}
    ensures s.t.Reason(s.t.lits[i].v) in s.live && 0 <= s.t.Reason(s.t.lits[i].v) < |s.ca| && s.t.True(s.t.lits[i])
    ensures Distinct(s.ca[s.t.Reason(s.t.lits[i].v)]) && s.t.lits[i] in s.ca[s.t.Reason(s.t.lits[i].v)]
    ensures |s.ca[s.t.Reason(s.t.lits[i].v)]| > 2 ==> s.ca[s.t.Reason(s.t.lits[i].v)][0] == s.t.lits[i]
    ensures forall q :: q in s.ca[s.t.Reason(s.t.lits[i].v)] && q != s.t.lits[i] ==>
              s.t.False(q) && FoundBelow(s.t, q.v, i) && s.t.Level(q.v) <= level
  {
    hide Base, WatchInv;
    AnalysingParts(s, level);
    HasReason(s.t, s.ca, s.live, level, i, mk);
    forall q | q in s.ca[s.t.Reason(s.t.lits[i].v)] && q != s.t.lits[i]
      ensures s.t.False(q) && FoundBelow(s.t, q.v, i) && s.t.Level(q.v) <= level
    {
      ReasonBelow(s.t, s.ca, s.live, i, q);
    }
  }

  lemma NextToMark(s: State, s': State, c0: Clause, level: nat, i: nat, mk: Marks)
    requires Taken(s, c0, level, i, mk) && mk.open != {}
    requires s' == s.(ca := s'.ca) && Analysing(s', level) && SameArena(s.ca, s'.ca)
    requires 0 <= s.t.Reason(s.t.lits[i].v) < |s'.ca| && |s'.ca[s.t.Reason(s.t.lits[i].v)]| > 0
    requires s'.ca[s.t.Reason(s.t.lits[i].v)][0] == s.t.lits[i]
    ensures ToMark(s', c0, level, i, mk, s.t.Reason(s.t.lits[i].v), 1, s.t.lits[i])
  {
    hide Base, WatchInv, Marked;
    TakenReason(s, c0, level, i, mk);
    AnalysingParts(s', level);
    var r := s.t.Reason(s.t.lits[i].v);
    forall j | 1 <= j < |s'.ca[r]|
      ensures s.t.False(s'.ca[r][j]) && s.t.Level(s'.ca[r][j].v) <= level && FoundBelow(s.t, s'.ca[r][j].v, i)
    {
      assert s'.ca[r][j] in s'.ca[r] && s'.ca[r][j] != s'.ca[r][0];
    }
    forall v | v in mk.visited && v !in mk.seen && v != s.t.lits[i].v
      ensures Expanded(s'.t, s'.ca, mk.visited, v)
    {
      ExpandedMore(s.t, s.ca, s'.ca, mk.visited, mk.visited, v);
    }
  }

  /** The walk down the trail after the flagging of a clause. */
  lemma ToMarkWalk(s: State, ca: seq<Clause>, c0: Clause, level: nat, k: nat, mk0: Marks, mk: Marks, cr: int, j0: nat,
                   p: Lit, seen0: set<Var>, seen: set<Var>, stale: set<Var>)
    requires ToMark(s, c0, level, k, mk0, cr, j0, p) && OnWalk(s.t, ca, c0, level, k, mk0, j0, p)
    requires SameArena(ca, s.ca) && AllMarked(s, c0, level, k, mk) && RootOnly(s.t, stale) && j0 <= |s.ca[cr]|
    requires seen0 == mk0.seen + stale && seen == mk.seen + stale && seen == seen0 + Flag(s.t, s.ca[cr][j0..])
    ensures mk.seen == Walk(s.t, ca, Above(s.t, c0), level, k) && NotYet(s.t, ca, c0, level, k)
  {
    hide Base, WatchInv, Marked, OnWalk, Walk, NotYet, Flag, RootOnly, SameArena, Touched, Resolved;
    AnalysingParts(s, level);
    FlagWalk(s.t, ca, s.ca, c0, level, k, mk0, mk, cr, j0, p, stale);
  }

  /** The walk down to the literal just taken. */
  lemma TakenWalk(s: State, ca: seq<Clause>, c0: Clause, level: nat, k: nat, mk0: Marks, i: nat, mk: Marks)
    requires mk0.seen == Walk(s.t, ca, Above(s.t, c0), level, k) && NotYet(s.t, ca, c0, level, k)
    requires AllMarked(s, c0, level, k, mk0) && Taken(s, c0, level, i, mk) && i < k <= |s.t.lits|
    requires s.t.lits[i].v in mk0.open
    requires mk == mk0.(seen := mk0.seen - {s.t.lits[i].v}, open := mk0.open - {s.t.lits[i].v})
    requires forall j :: i < j < k ==> !(s.t.lits[j].v in mk0.seen && s.t.LevelAt(j) >= level)
    ensures mk.seen + {s.t.lits[i].v} == Walk(s.t, ca, Above(s.t, c0), level, i + 1)
    ensures mk.open == {} ==> FirstPoint(s.t, ca, c0, level, i)
    ensures mk.open != {} ==> OnWalk(s.t, ca, c0, level, i, mk, 1, s.t.lits[i])
  {
    hide Base, WatchInv, Marked, OnWalk, Walk, NotYet, FirstPoint, Touched, Resolved, Analysing;
    TakeWalk(s.t, ca, c0, level, k, mk0, i, mk);
  }

  /** The learnt clause at the first unique implication point. */
  lemma UipReached(s: State, c0: Clause, level: nat, i: nat, mk: Marks)
    requires Taken(s, c0, level, i, mk) && mk.open == {} && s.t.AllFalse(c0) && Entails(s.f, c0)
    ensures Entails(s.f, [Neg(s.t.lits[i])] + mk.tail) && s.t.AllFalse([Neg(s.t.lits[i])] + mk.tail)
    ensures Distinct([Neg(s.t.lits[i])] + mk.tail)
    ensures forall j :: 0 <= j < |mk.tail| ==> 0 < s.t.Level(mk.tail[j].v) < level
    ensures mk.seen == Vars(mk.tail)
  {
    hide Base, WatchInv, Resolved;
    AnalysingParts(s, level);
    assert s.t.True(s.t.lits[i]);
    LearntEntailed(s.t, s.ca, s.live, s.f, mk, i, c0);
  }

  /** The reason of the trail literal that falsifies l. */
  lemma ReasonOf(s: State, level: nat, l: Lit)
    requires Analysing(s, level) && s.t.False(l) && s.t.Reason(l.v) != UNDEF
    ensures var x := Neg(l); var cr := s.t.Reason(x.v);
      && cr in s.live && 0 <= cr < |s.ca| && x in s.ca[cr] && s.t.True(x)
      && (|s.ca[cr]| > 2 ==> s.ca[cr][0] == x) && Distinct(s.ca[cr])
      && (forall q :: q in s.ca[cr] && q != x ==> s.t.False(q))
  {
    hide Base, WatchInv, Expanded;
    AnalysingParts(s, level);
    var x := Neg(l);
    FalseIsBefore(s.t, l);
    var i :| 0 <= i < |s.t.lits| && s.t.lits[i] == x;
    assert Antecedents(s.t, s.ca, s.live, i);
    forall q | q in s.ca[s.t.Reason(x.v)] && q != x
      ensures s.t.False(q)
    {
      ReasonBelow(s.t, s.ca, s.live, i, q);
    }
  }

  /** The reason of the literal on top of the stack of litRedundant. */
  lemma StackReason(s: State, level: nat, seen: set<Var>, base: set<Var>, stack: seq<Lit>, p: Var)
    requires Analysing(s, level) && Exploring(s.t, s.ca, seen, base, stack, p, {}) && stack != []
    ensures s.t.False(stack[|stack| - 1]) && s.t.Reason(stack[|stack| - 1].v) != UNDEF
  {
  }

  lemma ClauseVars(s: State, level: nat, cr: int)
    requires Analysing(s, level) && cr in s.live && 0 <= cr < |s.ca|
    ensures forall i :: 0 <= i < |s.ca[cr]| ==> s.ca[cr][i].v < |s.t.vardata|
  {
  }

  /** The state of the minimisation loop of analyze: out[..i] has been thinned to kept. */
  ghost predicate Minimising(s: State, level: nat, seen: set<Var>, stale: set<Var>, out: Clause, i: nat, kept: Clause) {
    && Analysing(s, level) && out != [] && Vars(out[1..]) <= seen && Closed(s.t, s.ca, seen, Vars(out[1..]) + stale)
    && RootOnly(s.t, stale)
    && s.t.AllFalse(out) && Distinct(out)
    && Thinned(s.t, s.ca, seen, out, i, kept)
  }

  lemma MinimiseStart(s: State, level: nat, stale: set<Var>, out: Clause)
    requires Analysing(s, level) && out != [] && s.t.AllFalse(out) && Distinct(out) && RootOnly(s.t, stale)
    ensures Minimising(s, level, Vars(out[1..]) + stale, stale, out, 1, out[..1])
  {
    ThinStart(s.t, s.ca, Vars(out[1..]) + stale, out);
  }

  lemma MinimiseStep(s: State, s': State, level: nat, seen: set<Var>, seen': set<Var>, stale: set<Var>, out: Clause,
                     i: nat, kept: Clause, keep: bool)
    requires Minimising(s, level, seen, stale, out, i, kept) && i < |out|
    requires s' == s.(ca := s'.ca) && Analysing(s', level) && SameArena(s.ca, s'.ca) && seen <= seen'
    requires Closed(s.t, s'.ca, seen', Vars(out[1..]) + stale) && (!keep ==> Expanded(s.t, s'.ca, seen', out[i].v))
    ensures Minimising(s', level, seen', stale, out, i + 1, if keep then kept + [out[i]] else kept)
  {
    hide Analysing, Expanded, SameArena;
    ThinStep(s.t, s.ca, s'.ca, seen, seen', out, i, kept, keep);
  }

  lemma MinimiseEnd(s: State, level: nat, seen: set<Var>, stale: set<Var>, out: Clause, kept: Clause)
    requires Minimising(s, level, seen, stale, out, |out|, kept) && Entails(s.f, out)
    ensures Analysing(s, level) && Entails(s.f, kept) && kept != [] && kept[0] == out[0] && Distinct(kept)
    ensures forall l :: l in kept ==> l in out
  {
    hide Base, WatchInv, Expanded;
    AnalysingParts(s, level);
    assert out[..|out|] == out;
    MinimisedEntailed(s.t, s.ca, s.live, s.f, out, kept, seen, stale);
  }

  lemma MinimiseNow(s: State, level: nat, seen: set<Var>, stale: set<Var>, out: Clause, i: nat, kept: Clause)
    requires Minimising(s, level, seen, stale, out, i, kept) && i < |out|
    ensures Analysing(s, level) && Closed(s.t, s.ca, seen, Vars(out[1..]) + stale) && s.t.False(out[i])
    ensures i > 0 ==> out[i].v in seen
  {
    assert out[i] in out;
    assert i > 0 ==> out[1..][i - 1] == out[i];
  }

  /** A watcher in the binary list of ~first stands for the clause of first and its blocker. */
  lemma BinaryWatcher(s: State, level: nat, first: Lit, ws: seq<Watcher>, i: nat)
    requires Analysing(s, level) && ws == At(s.wb, Neg(first)) && i < |ws|
    ensures Entails(s.f, [first, ws[i].blocker])
  {
    hide Base, WatchInv, Entails, AllListed;
    AnalysingParts(s, level);
    ListOfLiteral(s, Neg(first));
    var x := ws[i];
    assert WatcherOk(s.ca, s.live, {}, true, Neg(first), x);
    assert Neg(Neg(first)) == first;
    StoredEntails(s, level, x.cref);
    PairEntailed(s.f, s.ca[x.cref], first, x.blocker);
  }

  /** The binary list of ~a has a watcher with blocker b. */
  ghost predicate Blocks(wb: Lists, a: Lit, b: Lit) {
    exists i :: 0 <= i < |At(wb, Neg(a))| && At(wb, Neg(a))[i].blocker == b
  }

  /** A watcher in the binary list of ~a stands for a stored clause of a and its blocker. */
  lemma BinaryBehind(s: State, level: nat, a: Lit, i: nat)
    requires Analysing(s, level) && i < |At(s.wb, Neg(a))|
    ensures HasBinary(s.ca, s.live, a, At(s.wb, Neg(a))[i].blocker)
  {
    hide Base, WatchInv, AllListed, NoRepeat;
    AnalysingParts(s, level);
    ListOfLiteral(s, Neg(a));
    var x := At(s.wb, Neg(a))[i];
    assert WatcherOk(s.ca, s.live, {}, true, Neg(a), x);
    assert Neg(Neg(a)) == a;
    PairOf(s.ca[x.cref], a, x.blocker);
  }

  lemma PairOf(c: Clause, a: Lit, b: Lit)
    requires |c| == 2 && (c[0] == a || c[1] == a) && b in c && b != a
    ensures SameLits([a, b], c)
  {
  }

  lemma PairIs(c: Clause, a: Lit, b: Lit)
    requires SameLits([a, b], c) && a != b
    ensures |c| == 2 && ((c[0] == a && c[1] == b) || (c[0] == b && c[1] == a))
  {
    assert a in [a, b] && b in [a, b];
  }

  /** The binary lists tell which binary clauses are stored. */
  lemma BinaryExact(s: State, level: nat, a: Lit, b: Lit)
    requires Analysing(s, level)
    ensures Blocks(s.wb, a, b) <==> HasBinary(s.ca, s.live, a, b)
  {
    hide Analysing, SameLits;
    if i :| 0 <= i < |At(s.wb, Neg(a))| && At(s.wb, Neg(a))[i].blocker == b {
      BinaryBehind(s, level, a, i);
    }
    if HasBinary(s.ca, s.live, a, b) {
      var cr :| cr in s.live && 0 <= cr < |s.ca| && SameLits([a, b], s.ca[cr]);
      BinaryInFront(s, level, a, b, cr);
    }
  }

  lemma BinaryInFront(s: State, level: nat, a: Lit, b: Lit, cr: int)
    requires Analysing(s, level) && a != b && cr in s.live && 0 <= cr < |s.ca| && SameLits([a, b], s.ca[cr])
    ensures Blocks(s.wb, a, b)
  {
    hide Base, WatchInv, SameLits, Listing, WatcherOk, ListOk;
    AnalysingParts(s, level);
    PairIs(s.ca[cr], a, b);
    BinaryWatched(s, cr);
    ListOfLiteral(s, Neg(a));
    var i :| 0 <= i < |At(s.wb, Neg(a))| && At(s.wb, Neg(a))[i].cref == cr;
    BlockerIs(s, a, b, At(s.wb, Neg(a)), i);
  }

  lemma BinaryWatched(s: State, cr: int)
    requires Listing(s) && cr in s.live && 0 <= cr < |s.ca| && |s.ca[cr]| == 2
    ensures Listed(s.wb, Neg(s.ca[cr][0]), cr) && Listed(s.wb, Neg(s.ca[cr][1]), cr)
  {
  }

  lemma BlockerIs(s: State, a: Lit, b: Lit, ws: seq<Watcher>, i: nat)
    requires ListOk(s.ca, s.live, {}, true, Neg(a), ws) && i < |ws| && a != b
    requires 0 <= ws[i].cref < |s.ca| && ws[i].cref in s.live && SameLits([a, b], s.ca[ws[i].cref])
    ensures ws[i].blocker == b
  {
    hide NoRepeat;
    PairIs(s.ca[ws[i].cref], a, b);
    assert WatcherOk(s.ca, s.live, {}, true, Neg(a), ws[i]);
    assert Neg(Neg(a)) == a;
  }

  lemma PairEntailed(f: set<Clause>, c: Clause, a: Lit, b: Lit)
    requires Entails(f, c) && |c| == 2 && a in c && b in c && a != b
    ensures Entails(f, [a, b])
  {
    forall m | Models(m, f)
      ensures Satisfies(m, [a, b])
    {
      var l :| l in c && Holds(m, l);
      assert l in [a, b];
    }
  }
}
