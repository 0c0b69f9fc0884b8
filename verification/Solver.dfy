/** The CDCL solver with chronological backtracking. */
module Solving {
  import opened Cnf
  import opened Trails
  import opened Backtracking
  import opened Watching
  import opened Propagation
  import opened Database
  import opened Analysis
  import opened Unwinding
  import opened Redundancy
  import opened BinaryResolution
  import opened Kernel
  import opened Steps
  import opened Blaming
  import opened Domination
  import opened FinalConflict
  import opened Forgetting
  import opened Adding
  import opened Vivification
  import opened Simplifying
  import opened Importing
  import opened Ordering
  import Sorting

  /** Verdicts of a search: a model, a refutation, or neither. */
  datatype Status = LTrue | LFalse | LUndef

  datatype Choice = Chosen(lit: Lit) | Nothing

  /** What a conflict teaches: the clause at the first unique implication point, what minimisation leaves of it, the
      level to which it allows to backtrack, and the arena after analysis. */
  datatype Lesson = Lesson(uip: Clause, out: Clause, btLevel: nat, arena: seq<Clause>)

  class Solver {
    var ok: bool
    var ca: seq<Clause>
    var live: set<int>
    var clauses: seq<int>
    var learnts: seq<int>
    var watches: Lists
    var watchesBin: Lists
    var dirties: set<Lit>
    var dirtiesBin: set<Lit>
    var assigns: map<Var, bool>
    var vardata: seq<VarData>
    var trail: seq<Lit>
    var trailLim: seq<nat>
    var qhead: nat
    var assumptions: seq<Lit>
    var conflict: seq<Lit>
    var model: map<Var, bool>
    var seen: set<Var>
    var seen2: map<nat, nat>
    var counter: nat
    var ccminMode: nat
    var chrono: int
    var conflToChrono: int
    var conflicts: nat
    var decision: set<Var>
    var vsids: bool
    var orderVsids: set<Var>
    var orderChb: set<Var>
    var simpDbAssigns: int
    var simpDbProps: int
    var exported: set<Clause>
    var starts: nat
    /** The turns of the loop of search. */
    ghost var turns: nat
    ghost var formula: set<Clause>

    /** A solver over n variables, without clauses, that may decide on the variables in eligible. */
    constructor (n: nat, eligible: set<Var>)
      requires forall v :: v in eligible ==> v < n
      ensures Settled() && ok && formula == {} && |vardata| == n && decision == eligible && BothFull(O(), assigns.Keys)
      ensures exported == {}
    {
      ok, qhead, counter := true, 0, 0;
      ca, live, clauses, learnts := [], {}, [], [];
      watches, watchesBin, dirties, dirtiesBin := map[], map[], {}, {};
      assigns, vardata, trail, trailLim := map[], seq(n, _ => VarData(UNDEF, 0)), [], [];
      assumptions, conflict, model := [], [], map[];
      seen, seen2 := {}, map[];
      ccminMode, chrono, conflToChrono, conflicts := 2, 100, 4000, 0;
      decision, vsids, orderVsids, orderChb := eligible, false, eligible, eligible;
      simpDbAssigns, simpDbProps, exported, starts, turns := -1, 0, {}, 0, 0;
      formula := {};
    }

    ghost function T(): Trail
      reads this`trail, this`trailLim, this`assigns, this`vardata
    {
      Trail(trail, trailLim, assigns, vardata)
    }

    ghost function S(): State
      reads this`trail, this`trailLim, this`assigns, this`vardata, this`ca, this`live, this`watches, this`watchesBin
      reads this`dirties, this`dirtiesBin, this`clauses, this`formula
    {
      State(T(), ca, live, watches, watchesBin, dirties, dirtiesBin, Refs(clauses), formula)
    }

    /** The snapshot with another trail. */
    ghost function V(t: Trail): State
      reads this`trail, this`trailLim, this`assigns, this`vardata, this`ca, this`live, this`watches, this`watchesBin
      reads this`dirties, this`dirtiesBin, this`clauses, this`formula
    {
      S().(t := t)
    }

    ghost predicate Valid()
      reads this`trail, this`trailLim, this`assigns, this`vardata, this`ca, this`live, this`watches, this`watchesBin
      reads this`dirties, this`dirtiesBin, this`clauses, this`formula, this`qhead
    {
      Ready(S(), qhead)
    }

    function O(): Order
      reads this`decision, this`vsids, this`orderVsids, this`orderChb
    {
      Order(vsids, orderVsids, orderChb, decision)
    }

    /** The heap in use lacks assigned variables only, and the other one only those of level 0. */
    ghost predicate Stock()
      reads this`decision, this`vsids, this`orderVsids, this`orderChb, this`trail, this`trailLim, this`assigns
      reads this`vardata
    {
      TrailStocked(O(), T())
    }

    predicate True(l: Lit)
      reads this`assigns
    {
      l.v in assigns && assigns[l.v] != l.neg
    }

    predicate False(l: Lit)
      reads this`assigns
    {
      l.v in assigns && assigns[l.v] == l.neg
    }

    function Level(v: Var): nat
      reads this`vardata
    {
      if v < |vardata| then vardata[v].level else 0
    }

    function Reason(v: Var): int
      reads this`vardata
    {
      if v < |vardata| then vardata[v].reason else UNDEF
    }

    method UncheckedEnqueue(p: Lit, level: nat, from: int)
      requires p.v < |vardata| && p.v !in assigns
      modifies this`trail, this`assigns, this`vardata
      ensures T() == Enqueue(old(T()), p, level, from)
      ensures old(trail) <= trail && |vardata| == old(|vardata|)
      ensures forall v :: v != p.v ==> Level(v) == old(Level(v))
    {
      assigns := assigns[p.v := !p.neg];
      vardata := vardata[p.v := VarData(from, level)];
      trail := trail + [p];
    }

    // ---------- propagate ----------

    /** Propagates the binary clauses watching p, the literal at trail position q. */
    method PropagateBinary(ghost q: nat, p: Lit, currLevel: nat) returns (confl: int)
      requires q < |trail| && trail[q] == p && currLevel == Level(p.v)
      requires Visiting(T(), ca, live, q, At(watchesBin, p) + At(watches, p))
      requires ListOk(ca, live, {}, true, p, At(watchesBin, p)) && Stored(S())
      modifies this`trail, this`assigns, this`vardata
      ensures Stored(S()) && Extends(old(T()), T()) && currLevel == Level(p.v)
      ensures q < |trail| && trail[q] == p
      ensures confl == UNDEF ==> Visiting(T(), ca, live, q, At(watches, p))
      ensures confl != UNDEF ==> confl in live && 0 <= confl < |ca| && T().AllFalse(ca[confl])
                                 && exists ws :: Visiting(T(), ca, live, q, ws)
    {
      hide Visiting, Derived, Covering, WatcherOk, Extends, Consistent;
      ExtendsRefl(T());
      var ws := At(watchesBin, p);
      ghost var long := At(watches, p);
      var k := 0;
      assert ws[0..] == ws;
      while k < |ws|
        invariant 0 <= k <= |ws|
        invariant Visiting(T(), ca, live, q, ws[k..] + long)
        invariant Stored(S()) && Extends(old(T()), T())
        invariant q < |trail| && trail[q] == p && Level(p.v) == currLevel
      {
        var x := ws[k];
        var other := x.blocker;
        ghost var rest := ws[k + 1..] + long;
        assert ws[k..] + long == [x] + rest;
        BinaryStep(T(), ca, live, S().problem, formula, q, x, rest);
        if False(other) {
          return x.cref;
        } else if !True(other) {
          VisitingAssigned(T(), ca, live, q, [x] + rest);
          VisitingConsistent(T(), ca, live, q, [x] + rest);
          EnqueueExtends(old(T()), T(), other, currLevel, x.cref);
          UncheckedEnqueue(other, currLevel, x.cref);
        }
        k := k + 1;
      }
      assert ws[k..] + long == long;
      return UNDEF;
    }

    /** The first literal from index 2 on that is not false. */
    method FindNewWatch(c: Clause) returns (k: nat)
      ensures k >= 2 && (k < |c| ==> !False(c[k])) && forall n :: 2 <= n < k && n < |c| ==> False(c[n])
    {
      k := 2;
      while k < |c| && False(c[k])
        invariant k >= 2
        invariant forall n :: 2 <= n < k && n < |c| ==> False(c[n])
      {
        k := k + 1;
      }
    }

    /** The highest level among the literals from index 1 on, and where it first occurs. */
    method MaxLevel(c: Clause) returns (level: nat, ind: nat)
      requires |c| >= 2
      ensures 1 <= ind < |c| && level == Level(c[ind].v)
      ensures forall n :: 1 <= n < |c| ==> Level(c[n].v) <= level && (n < ind ==> Level(c[n].v) < level)
    {
      level, ind := Level(c[1].v), 1;
      for n := 2 to |c|
        invariant 1 <= ind < n && ind < |c| && level == Level(c[ind].v)
        invariant forall i :: 1 <= i < n ==> Level(c[i].v) <= level && (i < ind ==> Level(c[i].v) < level)
      {
        if Level(c[n].v) > level {
          level, ind := Level(c[n].v), n;
        }
      }
    }

    /** Makes sure that the literal just falsified is the second of its clause. */
    method FalseSecond(ghost q: nat, p: Lit, ghost a: seq<Watcher>, x: Watcher, ghost z: seq<Watcher>, ghost t: Trail)
      requires Mid(V(t), q, a, [x] + z) && q < |t.lits| && t.lits[q] == p && 0 <= x.cref < |ca| && |ca[x.cref]| > 1
      modifies this`ca
      ensures Mid(V(t), q, a, [x] + z) && |ca| == old(|ca|) && |ca[x.cref]| > 2 && Distinct(ca[x.cref])
      ensures x.cref in live && ca[x.cref][1] == Neg(p) && t.True(p) && SameArena(old(ca), ca)
    {
      hide Mid, SameArena;
      SameArenaRefl(ca);
      SameArenaSwap(ca, x.cref);
      var cr := x.cref;
      FrontWatcher(V(t), q, a, x, z);
      if ca[cr][0] == Neg(p) {
        MidNormalise(V(t), q, a, x, z);
        SwapLits(ca[cr], 0, 1);
        ca := ca[cr := Swap(ca[cr], 0, 1)];
      }
    }

    /** One iteration over the long watch list of p, the literal at trail position q: the list so far kept is a,
        x is the current watcher, z what follows it. */
    method VisitLong(ghost q: nat, p: Lit, currLevel: nat, ghost a: seq<Watcher>, x: Watcher, ghost z: seq<Watcher>)
      returns (keep: bool, y: Watcher, conflict: bool)
      requires Mid(S(), q, a, [x] + z) && trail[q] == p && currLevel == Level(p.v) && !True(x.blocker)
      modifies this`ca, this`watches, this`trail, this`assigns, this`vardata
      ensures Extends(old(T()), T()) && q < |trail| && trail[q] == p && currLevel == Level(p.v)
      ensures SameArena(old(ca), ca)
      ensures !conflict ==> Mid(S(), q, if keep then a + [y] else a, z)
      ensures conflict ==> keep && y.cref == x.cref && Mid(S(), q, a, [x] + z)
                           && x.cref in live && 0 <= x.cref < |ca| && y.blocker in ca[x.cref]
                               && T().AllFalse(ca[x.cref])
    {
      hide Mid, Visiting, Extends, SameArena;
      ExtendsRefl(T());
      FrontWatcher(S(), q, a, x, z);
      var cr := x.cref;
      assert V(T()) == S();
      FalseSecond(q, p, a, x, z, T());
      ghost var ca1 := ca;
      SameArenaSwap(ca, cr);
      assert V(T()) == S();
      var first := ca[cr][0];
      y, conflict := Watcher(cr, first), false;
      if first != x.blocker && True(first) {
        MidSatisfied(S(), q, a, x, y, z);
        keep := true;
        return;
      }
      var k := FindNewWatch(ca[cr]);
      if k < |ca[cr]| {
        MidMove(S(), q, a, x, y, z, k);
        SameArenaTrans(old(ca), ca, ca[cr := Swap(ca[cr], 1, k)]);
        ca := ca[cr := Swap(ca[cr], 1, k)];
        watches := Push(watches, Neg(ca[cr][1]), y);
        keep := false;
        return;
      }
      keep := true;
      if False(first) {
        conflict := true;
        return;
      }
      keep := Imply(q, currLevel, a, x, y, z);
      SameArenaTrans(old(ca), ca1, ca);
    }

    /** The clause of x is unit. */
    method Imply(ghost q: nat, currLevel: nat, ghost a: seq<Watcher>, x: Watcher, y: Watcher, ghost z: seq<Watcher>)
      returns (keep: bool)
      requires Mid(S(), q, a, [x] + z) && q < |trail| && currLevel == Level(trail[q].v) && True(trail[q])
      requires 0 <= x.cref < |ca| && |ca[x.cref]| > 2 && ca[x.cref][1] == Neg(trail[q])
      requires y == Watcher(x.cref, ca[x.cref][0]) && y.blocker.v !in assigns
      requires forall n :: 2 <= n < |ca[x.cref]| ==> False(ca[x.cref][n])
      modifies this`ca, this`watches, this`trail, this`assigns, this`vardata
      ensures Extends(old(T()), T()) && q < |trail| && trail[q] == old(trail[q]) && currLevel == Level(trail[q].v)
      ensures Mid(S(), q, if keep then a + [y] else a, z) && SameArena(old(ca), ca)
    {
      hide Mid, Visiting, Implies, Enqueue, Extends, Consistent, SameArena;
      SameArenaRefl(ca);
      ExtendsRefl(T());
      MidConsistent(S(), q, a, [x] + z);
      var cr, first := x.cref, ca[x.cref][0];
      FrontWatcher(S(), q, a, x, z);
      MidLevels(S(), q, a, [x] + z);
      if currLevel == |trailLim| {
        ImpliesFirst(T(), ca[cr], 1, currLevel);
        keep := true;
        MidUnit(S(), q, a, x, y, z, currLevel);
        EnqueueExtends(T(), T(), first, currLevel, cr);
        UncheckedEnqueue(first, currLevel, cr);
      } else {
        keep := ImplyBelow(q, a, x, y, z);
      }
    }

    /** The clause of x is unit while a literal of an older level is being propagated: its first literal goes at the
        highest level of the others, and one of that level is watched. */
    method ImplyBelow(ghost q: nat, ghost a: seq<Watcher>, x: Watcher, y: Watcher, ghost z: seq<Watcher>)
      returns (keep: bool)
      requires Mid(S(), q, a, [x] + z) && q < |trail| && True(trail[q])
      requires 0 <= x.cref < |ca| && |ca[x.cref]| > 2 && ca[x.cref][1] == Neg(trail[q])
      requires y == Watcher(x.cref, ca[x.cref][0]) && y.blocker.v !in assigns
      requires forall n :: 2 <= n < |ca[x.cref]| ==> False(ca[x.cref][n])
      modifies this`ca, this`watches, this`trail, this`assigns, this`vardata
      ensures Extends(old(T()), T()) && q < |trail| && trail[q] == old(trail[q])
      ensures Level(trail[q].v) == old(Level(trail[q].v))
      ensures Mid(S(), q, if keep then a + [y] else a, z) && SameArena(old(ca), ca)
    {
      hide Mid, Visiting, Implies, Enqueue, Extends, Consistent, SameArena;
      SameArenaRefl(ca);
      ExtendsRefl(T());
      MidConsistent(S(), q, a, [x] + z);
      var cr, first := x.cref, ca[x.cref][0];
      FrontWatcher(S(), q, a, x, z);
      MidLevels(S(), q, a, [x] + z);
      var maxLevel, maxInd := MaxLevel(ca[cr]);
      ImpliesFirst(T(), ca[cr], maxInd, maxLevel);
      keep := maxInd == 1;
      if maxInd == 1 {
        MidUnit(S(), q, a, x, y, z, maxLevel);
        EnqueueExtends(T(), T(), first, maxLevel, cr);
        UncheckedEnqueue(first, maxLevel, cr);
      } else {
        ImplyRewatch(q, a, x, y, z, maxLevel, maxInd);
      }
    }

    method ImplyRewatch(ghost q: nat, ghost a: seq<Watcher>, x: Watcher, y: Watcher, ghost z: seq<Watcher>,
                        maxLevel: nat, maxInd: nat)
      requires Mid(S(), q, a, [x] + z) && q < |trail| && True(trail[q])
      requires 0 <= x.cref < |ca| && 2 <= maxInd < |ca[x.cref]| && ca[x.cref][1] == Neg(trail[q])
      requires y == Watcher(x.cref, ca[x.cref][0]) && y.blocker.v !in assigns && maxLevel == Level(ca[x.cref][maxInd].v)
      requires maxLevel <= |trailLim| && Implies(T(), ca[x.cref], y.blocker, maxLevel)
      requires ca[x.cref][maxInd].v != y.blocker.v
      modifies this`ca, this`watches, this`trail, this`assigns, this`vardata
      ensures Extends(old(T()), T()) && q < |trail| && trail[q] == old(trail[q])
      ensures Level(trail[q].v) == old(Level(trail[q].v))
      ensures Mid(S(), q, a, z) && SameArena(old(ca), ca)
    {
      hide Mid, Visiting, Implies, Enqueue, Extends, Consistent, SameArena;
      SameArenaSwap(ca, x.cref);
      ExtendsRefl(T());
      MidConsistent(S(), q, a, [x] + z);
      var cr, first := x.cref, ca[x.cref][0];
      MidUnitRewatch(S(), q, a, x, y, z, maxLevel, maxInd);
      EnqueueExtends(T(), T(), first, maxLevel, cr);
      ca := ca[cr := Swap(ca[cr], 1, maxInd)];
      watches := Push(watches, Neg(ca[cr][1]), y);
      UncheckedEnqueue(first, maxLevel, cr);
    }

    /** One iteration over the long watch list, starting with the blocker. */
    method Visit(ghost q: nat, p: Lit, currLevel: nat, ghost a: seq<Watcher>, x: Watcher, ghost z: seq<Watcher>)
      returns (keep: bool, y: Watcher, conflict: bool)
      requires Mid(S(), q, a, [x] + z) && trail[q] == p && currLevel == Level(p.v)
      modifies this`ca, this`watches, this`trail, this`assigns, this`vardata
      ensures Extends(old(T()), T()) && q < |trail| && trail[q] == p && currLevel == Level(p.v)
      ensures SameArena(old(ca), ca)
      ensures !conflict ==> Mid(S(), q, if keep then a + [y] else a, z)
      ensures conflict ==> keep && y.cref == x.cref && Mid(S(), q, a, [x] + z)
                           && x.cref in live && 0 <= x.cref < |ca| && y.blocker in ca[x.cref]
                               && T().AllFalse(ca[x.cref])
    {
      hide Mid, Visiting, Extends, SameArena;
      SameArenaRefl(ca);
      ExtendsRefl(T());
      FrontWatcher(S(), q, a, x, z);
      if True(x.blocker) {
        MidSatisfied(S(), q, a, x, x, z);
        keep, y, conflict := true, x, false;
      } else {
        keep, y, conflict := VisitLong(q, p, currLevel, a, x, z);
      }
    }

    /** Propagates the longer clauses watching p, the literal at trail position q, compacting its list in place. */
    method PropagateLong(ghost q: nat, p: Lit, currLevel: nat) returns (confl: int)
      requires Mid(S(), q, [], At(watches, p)) && q < |trail| && trail[q] == p && currLevel == Level(p.v)
      modifies this`ca, this`watches, this`trail, this`assigns, this`vardata, this`qhead
      ensures Extends(old(T()), T()) && SameArena(old(ca), ca)
      ensures confl == UNDEF ==> Base(S()) && WatchInv(T(), ca, live, q + 1) && qhead == old(qhead)
      ensures confl != UNDEF ==> Base(S()) && Conflicting(T(), ca, live, confl, q) && qhead == |trail|
    {
      hide Mid, Base, Conflicting, Extends, Consistent, SameArena;
      SameArenaRefl(ca);
      ExtendsRefl(T());
      var ws := At(watches, p);
      var i, j := 0, 0;
      confl := UNDEF;
      assert ws[..0] == [] && ws[0..] == ws;
      while i < |ws|
        invariant 0 <= j <= i <= |ws| && SameArena(old(ca), ca)
        invariant Extends(old(T()), T()) && q < |trail| && trail[q] == p && currLevel == Level(p.v)
        invariant confl == UNDEF ==> Mid(S(), q, ws[..j], ws[i..]) && qhead == old(qhead)
        invariant confl != UNDEF ==> i == |ws| && qhead == |trail| && Conflicting(T(), ca, live, confl, q)
                                     && Base(S().(w := watches[p := ws[..j]]))
      {
        var x := ws[i];
        ghost var a, z := ws[..j], ws[i + 1..];
        assert ws[i..] == [x] + z;
        i := i + 1;
        MidConsistent(S(), q, a, [x] + z);
        ghost var t, ca1 := T(), ca;
        var keep, y, conflict := Visit(q, p, currLevel, a, x, z);
        ExtendsTrans(old(T()), t, T());
        SameArenaTrans(old(ca), ca1, ca);
        i, j, ws := Compact(i, j, ws, keep, y, conflict);
        if conflict {
          MidConflict(S(), q, a, x, y, z);
          confl := x.cref;
          qhead := |trail|;
        }
      }
      if confl == UNDEF {
        assert ws[i..] == [];
        MidEnd(S(), q, ws[..j]);
      }
      watches := watches[p := ws[..j]];
    }

    /** The watcher before position i has been visited: if kept, it follows the ones kept before. */
    static method KeepWatcher(i: nat, j0: nat, ws0: seq<Watcher>, keep: bool, y: Watcher)
      returns (j: nat, ws: seq<Watcher>)
      requires j0 < i <= |ws0|
      ensures j <= i <= |ws| == |ws0| && ws[..j] == (if keep then ws0[..j0] + [y] else ws0[..j0]) && ws[i..] == ws0[i..]
    {
      j, ws := j0, ws0;
      if keep {
        ws := ws[j := y];
        j := j + 1;
      }
    }

    /** As KeepWatcher; after a conflict the unvisited watchers follow at once. */
    method Compact(i0: nat, j0: nat, ws0: seq<Watcher>, keep: bool, y: Watcher, conflict: bool)
      returns (i: nat, j: nat, ws: seq<Watcher>)
      requires j0 < i0 <= |ws0| && (conflict ==> keep)
      ensures j <= i <= |ws|
      ensures !conflict ==> i == i0 && ws[..j] == (if keep then ws0[..j0] + [y] else ws0[..j0]) && ws[i..] == ws0[i0..]
      ensures conflict ==> i == |ws| && ws[..j] == ws0[..j0] + [y] + ws0[i0..]
    {
      i := i0;
      j, ws := KeepWatcher(i0, j0, ws0, keep, y);
      if conflict {
        i, j, ws := CopyRest(i0, j, ws);
      }
    }

    /** Moves the unvisited watchers down to follow the kept ones. */
    method CopyRest(i0: nat, j0: nat, ws0: seq<Watcher>) returns (i: nat, j: nat, ws: seq<Watcher>)
      requires j0 <= i0 <= |ws0|
      ensures i == |ws| == |ws0| && j == j0 + |ws0| - i0 && ws[..j] == ws0[..j0] + ws0[i0..]
    {
      i, j, ws := i0, j0, ws0;
      while i < |ws|
        invariant i0 <= i <= |ws| == |ws0| && j == j0 + i - i0
        invariant ws[..j] == ws0[..j0] + ws0[i0..i] && ws[i..] == ws0[i..]
      {
        ghost var before := ws;
        ws := ws[j := ws[i]];
        assert ws[..j + 1] == before[..j] + [before[i]] && before[i] == before[i..][0] == ws0[i];
        assert ws0[i0..i + 1] == ws0[i0..i] + [ws0[i]];
        assert ws[i + 1..] == before[i..][1..];
        i, j := i + 1, j + 1;
      }
    }

    /** Drops the watchers of removed clauses, in place. */
    method Clean(ws0: seq<Watcher>) returns (ws: seq<Watcher>)
      ensures ws == Cleaned(ws0, live)
    {
      hide Cleaned;
      ws := ws0;
      var i, j := 0, 0;
      CleanedNone(live);
      while i < |ws|
        invariant 0 <= j <= i <= |ws| == |ws0| && forall k :: i <= k < |ws| ==> ws[k] == ws0[k]
        invariant ws[..j] == Cleaned(ws0[..i], live)
      {
        CleanedNext(ws0, i, live);
        if ws[i].cref in live {
          ws := ws[j := ws[i]];
          j := j + 1;
        }
        i := i + 1;
      }
      assert ws0[..i] == ws0;
      ws := ws[..j];
    }

    method CleanAll()
      requires Listing(S())
      modifies this`watches, this`watchesBin, this`dirties, this`dirtiesBin
      ensures Listing(S()) && dirties == {} && dirtiesBin == {}
      ensures S() == old(S()).(w := watches, wb := watchesBin, dirty := {}, dirtyBin := {})
    {
      hide Lists01;
      while dirties != {}
        invariant Listing(S())
      {
        var l :| l in dirties;
        CleanLists(watches, ca, live, dirties, false, l);
        var ws := Clean(At(watches, l));
        watches, dirties := watches[l := ws], dirties - {l};
      }
      while dirtiesBin != {}
        invariant Listing(S()) && dirties == {}
      {
        var l :| l in dirtiesBin;
        CleanLists(watchesBin, ca, live, dirtiesBin, true, l);
        var ws := Clean(At(watchesBin, l));
        watchesBin, dirtiesBin := watchesBin[l := ws], dirtiesBin - {l};
      }
    }

    /** Propagates the literal at qhead. */
    method PropagateNext() returns (confl: int, ghost bound: nat)
      requires Valid() && qhead < |trail| && dirties == {} && dirtiesBin == {}
      modifies this`ca, this`watches, this`trail, this`assigns, this`vardata, this`qhead
      ensures Extends(old(T()), T()) && |vardata| == old(|vardata|) && SameArena(old(ca), ca)
      ensures confl == UNDEF ==> Valid() && qhead == old(qhead) + 1
      ensures confl != UNDEF ==> Base(S()) && Conflicting(T(), ca, live, confl, bound)
    {
      hide Base, Visiting, Mid, Conflicting, ListOk, WatchInv, At, Consistent, SameArena;
      SameArenaRefl(ca);
      var p := trail[qhead];
      bound := qhead;
      var currLevel := Level(p.v);
      ReadyVisit(S(), qhead);
      qhead := qhead + 1;
      confl := PropagateBinary(bound, p, currLevel);
      if confl != UNDEF {
        BinaryConflict(S(), bound, confl);
      } else {
        MidStart(S(), bound);
        ghost var t := T();
        VisitingConsistent(t, ca, live, bound, At(watches, p));
        confl := PropagateLong(bound, p, currLevel);
        ExtendsTrans(old(T()), t, T());
      }
    }

    /** Unit propagation. Without a conflict everything on the trail has been propagated; a conflict is a stored
        clause made false, and everything before the newest decision level is still propagated. */
    method Propagate() returns (confl: int, ghost bound: nat, numProps: nat)
      requires Valid()
      modifies this`ca, this`watches, this`watchesBin, this`dirties, this`dirtiesBin
      modifies this`trail, this`assigns, this`vardata, this`qhead
      ensures Extends(old(T()), T()) && dirties == {} && dirtiesBin == {} && SameArena(old(ca), ca)
      ensures confl == UNDEF ==> Valid() && qhead == |trail| && numProps == |trail| - old(qhead)
      ensures confl != UNDEF ==> Base(S()) && Conflicting(T(), ca, live, confl, bound)
    {
      hide Base, Conflicting, WatchInv, Extends, Consistent, SameArena;
      SameArenaRefl(ca);
      ExtendsRefl(T());
      confl, bound, numProps := UNDEF, 0, 0;
      ReadyParts(S(), qhead);
      CleanAll();
      CleanReady(old(S()), S(), qhead);
      while qhead < |trail|
        invariant Extends(old(T()), T()) && dirties == {} && dirtiesBin == {}
        invariant Valid() && confl == UNDEF && numProps == qhead - old(qhead) && SameArena(old(ca), ca)
        decreases |vardata| - qhead
      {
        BaseBound(S());
        ReadyParts(S(), qhead);
        ghost var t, ca1 := T(), ca;
        numProps := numProps + 1;
        confl, bound := PropagateNext();
        ExtendsTrans(old(T()), t, T());
        SameArenaTrans(old(ca), ca1, ca);
        if confl != UNDEF {
          return;
        }
      }
    }

    // ---------- cancelUntil ----------

    /** Puts a decision variable back in the heap in use. */
    method InsertVarOrder(x: Var)
      modifies this`orderVsids, this`orderChb
      ensures O() == old(O()).Inserted({x})
    {
      if vsids {
        if x !in orderVsids && x in decision {
          orderVsids := orderVsids + {x};
        }
      } else if x !in orderChb && x in decision {
        orderChb := orderChb + {x};
      }
      assert O().Active() == old(O()).Active() + {x} * decision;
    }

    /** Takes back the literals above level bLevel, wherever on the trail they are, and makes their variables eligible
        again; the others close up in their old order. */
    method CancelUntil(bLevel: nat)
      requires Consistent(T()) && Leveled(T())
      modifies this`trail, this`trailLim, this`assigns, this`qhead, this`orderVsids, this`orderChb
      ensures bLevel < old(|trailLim|) ==>
                T() == Backtracking.CancelUntil(old(T()), bLevel) && qhead == old(trailLim[bLevel])
      ensures bLevel >= old(|trailLim|) ==> T() == old(T()) && qhead == old(qhead)
      ensures Restocked(old(O()), old(assigns).Keys, assigns.Keys, O())
    {
      hide Unassigned, LevelsOpened, BlocksLow, OneDecision, Consistent, Kept, Restocked;
      RestockedStart(O(), assigns.Keys);
      if |trailLim| > bLevel {
        var addTmp: seq<Lit> := [];
        var c := |trail|;
        ghost var t := T();
        CancelStart(t, bLevel);
        while c > trailLim[bLevel]
          invariant T() == t.(assigns := assigns) && trailLim[bLevel] <= c <= |trail|
          invariant Unassigned(t, bLevel, c, assigns) && addTmp == Saved(t, bLevel, c)
          invariant Restocked(old(O()), t.assigns.Keys, assigns.Keys, O())
        {
          UnassignedStep(t, bLevel, c, assigns);
          c := c - 1;
          var x := trail[c].v;
          if Level(x) <= bLevel {
            addTmp := addTmp + [trail[c]];
          } else {
            TrailAssigned(t, c);
            RestockedStep(old(O()), t.assigns.Keys, assigns.Keys, O(), x);
            assigns := assigns - {x};
            InsertVarOrder(x);
          }
        }
        CancelEnd(t, bLevel, assigns);
        qhead := trailLim[bLevel];
        trail := trail[..trailLim[bLevel]];
        trailLim := trailLim[..bLevel];
        PushSaved(addTmp);
      }
    }

    /** Puts the saved literals back on the trail in their old order. */
    method PushSaved(saved: seq<Lit>)
      modifies this`trail
      ensures trail == old(trail) + Reversed(saved)
    {
      var n := |saved|;
      assert saved[..n] == saved;
      while n > 0
        invariant 0 <= n <= |saved| && trail + Reversed(saved[..n]) == old(trail) + Reversed(saved)
      {
        n := n - 1;
        assert saved[..n + 1][..n] == saved[..n];
        assert trail + ([saved[n]] + Reversed(saved[..n])) == trail + [saved[n]] + Reversed(saved[..n]);
        trail := trail + [saved[n]];
      }
    }

    method NewDecisionLevel()
      modifies this`trailLim
      ensures T() == NewLevel(old(T()))
    {
      trailLim := trailLim + [|trail|];
    }

    // ---------- FindConflictLevel ----------

    /** The highest level in a clause, where it first occurs, and whether it occurs only once. */
    method HighestLevel(c: Clause) returns (highest: nat, id: nat, onlyOne: bool)
      requires |c| >= 2
      ensures id < |c| && Level(c[id].v) == highest
      ensures forall k :: 0 <= k < |c| ==> Level(c[k].v) <= highest && (k < id ==> Level(c[k].v) < highest)
      ensures onlyOne ==> forall k :: 0 <= k < |c| && k != id ==> Level(c[k].v) < highest
      ensures !onlyOne ==> exists k :: 0 <= k < |c| && k != id && Level(c[k].v) == highest
    {
      highest, id, onlyOne := Level(c[0].v), 0, true;
      for n := 1 to |c|
        invariant id < n && Level(c[id].v) == highest
        invariant forall k :: 0 <= k < n ==> Level(c[k].v) <= highest && (k < id ==> Level(c[k].v) < highest)
        invariant onlyOne ==> forall k :: 0 <= k < n && k != id ==> Level(c[k].v) < highest
        invariant !onlyOne ==> exists k :: 0 <= k < n && k != id && Level(c[k].v) == highest
      {
        var level := Level(c[n].v);
        if level > highest {
          id, highest, onlyOne := n, level, true;
        } else if level == highest && onlyOne {
          onlyOne := false;
        }
      }
    }

    /** Removes the watcher of clause cr from a list that has one. */
    method RemoveWatcher(ws0: seq<Watcher>, cr: int) returns (ws: seq<Watcher>, ghost j0: nat)
      requires exists k :: 0 <= k < |ws0| && ws0[k].cref == cr
      ensures j0 < |ws0| && ws0[j0].cref == cr && ws == ws0[..j0] + ws0[j0 + 1..]
      ensures forall k :: 0 <= k < j0 ==> ws0[k].cref != cr
    {
      ws := ws0;
      var j := 0;
      while j < |ws| && ws[j].cref != cr
        invariant 0 <= j <= |ws| && forall k :: 0 <= k < j ==> ws[k].cref != cr
      {
        j := j + 1;
      }
      j0 := j;
      while j < |ws| - 1
        invariant j0 <= j < |ws| == |ws0| && forall k :: 0 <= k < j0 ==> ws0[k].cref != cr
        invariant ws[..j] == ws0[..j0] + ws0[j0 + 1..j + 1] && ws[j..] == ws0[j..]
      {
        ghost var before := ws;
        ws := ws[j := ws[j + 1]];
        assert ws[..j + 1] == before[..j] + [before[j + 1]] && before[j + 1] == before[j..][1] == ws0[j + 1];
        assert ws0[j0 + 1..j + 2] == ws0[j0 + 1..j + 1] + [ws0[j + 1]];
        assert ws[j + 1..] == before[j..][1..];
        j := j + 1;
      }
      assert ws0[j0 + 1..j + 1] == ws0[j0 + 1..];
      ws := ws[..|ws| - 1];
    }

    /** What FindConflictLevel establishes: the first literal has the highest level, onlyOne tells whether alone. */
    ghost predicate Fronted(cind: int, highest: nat, onlyOne: bool)
      reads this`trail, this`trailLim, this`assigns, this`vardata, this`ca, this`live, this`watches, this`watchesBin
      reads this`dirties, this`dirtiesBin, this`clauses, this`formula
    {
      && Base(S()) && cind in live && 0 <= cind < |ca| && |ca[cind]| >= 2
      && T().AllFalse(ca[cind]) && highest <= |trailLim| && Level(ca[cind][0].v) == highest
      && (forall k :: 0 <= k < |ca[cind]| ==> Level(ca[cind][k].v) <= highest)
      && (onlyOne ==> forall k :: 1 <= k < |ca[cind]| ==> Level(ca[cind][k].v) < highest)
      && (!onlyOne ==> exists k :: 1 <= k < |ca[cind]| && Level(ca[cind][k].v) == highest)
      && (forall b :: 0 <= b < |trailLim| && b < highest ==> WatchInv(T(), ca, live, trailLim[b]))
    }

    /** Moves a literal of the highest level to the front of the conflicting clause, and its watch with it. */
    method FindConflictLevel(cind: int, ghost bound: nat) returns (highest: nat, onlyOne: bool)
      requires Base(S()) && dirties == {} && dirtiesBin == {} && Conflicting(T(), ca, live, cind, bound)
      modifies this`ca, this`watches
      ensures Fronted(cind, highest, onlyOne) && SameArena(old(ca), ca) && highest <= |trailLim|
    {
      hide Lists01, Stored, WatchInv, TrailInv, ClausesOk, Base, SameArena;
      SameArenaRefl(ca);
      ConflictClause(S(), cind, bound);
      highest, onlyOne := Level(ca[cind][0].v), false;
      if highest == |trailLim| && Level(ca[cind][1].v) == |trailLim| {
        FrontedAll(S(), cind, 0, bound, watches);
        assert Swap(ca[cind], 0, 0) == ca[cind] && ca[cind := ca[cind]] == ca;
        return;
      }
      highest, onlyOne := MoveHighest(cind, bound);
    }

    method MoveHighest(cind: int, ghost bound: nat) returns (highest: nat, onlyOne: bool)
      requires Base(S()) && dirties == {} && dirtiesBin == {} && Conflicting(T(), ca, live, cind, bound)
      modifies this`ca, this`watches
      ensures Fronted(cind, highest, onlyOne) && SameArena(old(ca), ca) && highest <= |trailLim|
    {
      hide Lists01, Stored, WatchInv, TrailInv, ClausesOk, Base, Fronted, SameArena;
      SameArenaSwap(ca, cind);
      ConflictClause(S(), cind, bound);
      BaseParts(S());
      var id;
      highest, id, onlyOne := HighestLevel(ca[cind]);
      FrontedLevels(T(), ca[cind], id, onlyOne);
      ghost var s := S();
      if id > 1 {
        MoveFrontWatch(cind, id);
      }
      FrontedAll(s, cind, id, bound, watches);
      if id != 0 {
        ca := ca[cind := Swap(ca[cind], 0, id)];
      } else {
        assert Swap(ca[cind], 0, 0) == ca[cind] && ca[cind := ca[cind]] == ca;
      }
      assert S() == Kernel.Fronted(s, cind, id, watches);
      FrontedNow(s, cind, id, highest, onlyOne);
    }

    lemma FrontedNow(s: State, cind: int, id: nat, highest: nat, onlyOne: bool)
      requires 0 <= cind < |s.ca| && id < |s.ca[cind]| && |s.ca[cind]| >= 2 && cind in s.live
      requires S() == Kernel.Fronted(s, cind, id, watches) && Base(S()) && s.t.AllFalse(Swap(s.ca[cind], 0, id))
      requires highest == s.t.Level(s.ca[cind][id].v) <= |s.t.lim|
      requires forall j :: 0 <= j < |s.ca[cind]| ==> s.t.Level(Swap(s.ca[cind], 0, id)[j].v) <= highest
      requires onlyOne ==> forall j :: 1 <= j < |s.ca[cind]| ==> s.t.Level(Swap(s.ca[cind], 0, id)[j].v) < highest
      requires !onlyOne ==> exists j :: 1 <= j < |s.ca[cind]| && s.t.Level(Swap(s.ca[cind], 0, id)[j].v) == highest
      requires forall b :: 0 <= b < |s.t.lim| && b < highest ==>
                 WatchInv(s.t, s.ca[cind := Swap(s.ca[cind], 0, id)], s.live, s.t.lim[b])
      ensures Fronted(cind, highest, onlyOne)
    {
      hide Base, WatchInv;
      assert T() == s.t && ca == s.ca[cind := Swap(s.ca[cind], 0, id)] && live == s.live;
      assert ca[cind] == Swap(s.ca[cind], 0, id);
      assert forall v: Var :: T().Level(v) == Level(v);
    }

    /** Watches the literal at index id of the clause instead of its first one. */
    method MoveFrontWatch(cind: int, id: nat)
      requires Listing(S()) && dirties == {} && cind in live && 0 <= cind < |ca| && 2 <= id < |ca[cind]|
      requires Distinct(ca[cind])
      modifies this`watches
      ensures Lists01(watches, ca[cind := Swap(ca[cind], 0, id)], live, {}, false)
    {
      hide Lists01;
      var w1, w2, y := Neg(ca[cind][0]), Neg(ca[cind][id]), Watcher(cind, ca[cind][1]);
      WatcherOf(S(), cind);
      ghost var ws0 := At(watches, w1);
      var ws, j := RemoveWatcher(At(watches, w1), cind);
      assert ws0 == ws0[..j] + [ws0[j]] + ws0[j + 1..];
      RewatchFirst(watches, ca, live, cind, id, ws0[..j], ws0[j], y, ws0[j + 1..]);
      watches := watches[w1 := ws];
      watches := Push(watches, w2, y);
    }

    // ---------- analyze ----------

    /** Makes x, which the clause implies, its first literal; only binary clauses need it. */
    method NormaliseReason(cr: int, x: Lit, ghost level: nat)
      requires Analysing(S(), level) && cr in live && 0 <= cr < |ca| && x in ca[cr] && True(x)
      requires forall q :: q in ca[cr] && q != x ==> False(q)
      requires |ca[cr]| > 2 ==> ca[cr][0] == x
      modifies this`ca
      ensures Analysing(S(), level) && SameArena(old(ca), ca) && cr < |ca| && |ca[cr]| > 0 && ca[cr][0] == x
      ensures Distinct(old(ca)[cr]) ==> Distinct(ca[cr])
    {
      hide Base, WatchInv;
      SwapLits(ca[cr], 0, if |ca[cr]| > 1 then 1 else 0);
      assert ca[cr][0] in ca[cr];
      if |ca[cr]| == 2 && False(ca[cr][0]) {
        SwapBinary(S(), level, cr);
        ca := ca[cr := Swap(ca[cr], 0, 1)];
      }
    }

    /** Flags a literal, unless it is already flagged or of level 0. */
    method MarkLit(q: Lit, level: nat, out0: seq<Lit>, pathC0: int, ghost mk0: Marks, ghost k: nat,
                   ghost stale: set<Var>)
      returns (out: seq<Lit>, pathC: int, ghost mk: Marks)
      requires Marked(T(), level, k, mk0) && Tracked(seen, mk0, stale, out0, pathC0) && RootOnly(T(), stale)
      requires T().False(q) && Level(q.v) <= level && FoundBelow(T(), q.v, k)
      modifies this`seen
      ensures Marked(T(), level, k, mk) && Tracked(seen, mk, stale, out, pathC) && Marking(mk0, mk)
      ensures q.v in mk.visited || Level(q.v) == 0
      ensures seen == old(seen) + (if T().Level(q.v) > 0 then {q.v} else {})
    {
      hide Marked, Tracked, RootOnly, Marking;
      MarkStep(T(), level, k, mk0, q);
      RootOnlyAt(T(), stale, q.v);
      TrackedStep(seen, mk0, stale, out0, pathC0, level, q, Level(q.v));
      out, pathC, mk := out0, pathC0, Mark(mk0, level, q, Level(q.v));
      if q.v !in seen && Level(q.v) > 0 {
        seen := seen + {q.v};
        if Level(q.v) >= level {
          pathC := pathC + 1;
        } else {
          out := out + [q];
        }
      }
    }

    /** Flags the literals of a clause from index j0 on; those below the conflict level go to the learnt clause. */
    method MarkClause(cr: int, j0: nat, level: nat, out0: seq<Lit>, pathC0: int, ghost mk0: Marks, ghost k: nat,
                      ghost stale: set<Var>)
      returns (out: seq<Lit>, pathC: int, ghost mk: Marks)
      requires 0 <= cr < |ca| && j0 <= |ca[cr]| && Marked(T(), level, k, mk0)
      requires Tracked(seen, mk0, stale, out0, pathC0) && RootOnly(T(), stale)
      requires forall j :: j0 <= j < |ca[cr]| ==>
                 T().False(ca[cr][j]) && Level(ca[cr][j].v) <= level && FoundBelow(T(), ca[cr][j].v, k)
      modifies this`seen
      ensures Marked(T(), level, k, mk) && Tracked(seen, mk, stale, out, pathC)
      ensures Marking(mk0, mk)
      ensures forall j :: j0 <= j < |ca[cr]| ==> ca[cr][j].v in mk.visited || Level(ca[cr][j].v) == 0
      ensures seen == old(seen) + Flag(T(), ca[cr][j0..])
    {
      hide Marked, Tracked, Flag, Marking, FoundBelow;
      out, pathC, mk := out0, pathC0, mk0;
      var j := j0;
      FlagNone(T());
      assert ca[cr][j0..j0] == [];
      MarkingNone(mk0);
      while j < |ca[cr]|
        invariant j0 <= j <= |ca[cr]| && Marked(T(), level, k, mk) && Tracked(seen, mk, stale, out, pathC)
        invariant seen == old(seen) + Flag(T(), ca[cr][j0..j])
        invariant Marking(mk0, mk)
        invariant forall i :: j0 <= i < j && i < |ca[cr]| ==> ca[cr][i].v in mk.visited || Level(ca[cr][i].v) == 0
      {
        FlagMore(T(), ca[cr], j0, j);
        ghost var mk1 := mk;
        out, pathC, mk := MarkLit(ca[cr][j], level, out, pathC, mk, k, stale);
        MarkingTrans(mk0, mk1, mk);
        j := j + 1;
      }
      assert ca[cr][j0..j] == ca[cr][j0..];
    }

    /** Scans the trail downwards from index0 for a flagged variable; those of open are all still below. */
    method ScanSeen(index0: int, ghost open: set<Var>) returns (index: int)
      requires -1 <= index0 < |trail| && open <= seen && open != {}
      requires forall v :: v in open ==> FoundBelow(T(), v, index0 + 1)
      ensures 0 <= index <= index0 && trail[index].v in seen
      ensures forall v :: v in open ==> FoundBelow(T(), v, index + 1)
      ensures forall j :: index < j <= index0 ==> trail[j].v !in seen
    {
      index := index0;
      ghost var v0 :| v0 in open;
      while trail[index].v !in seen
        invariant 0 <= index <= index0
        invariant forall v :: v in open ==> FoundBelow(T(), v, index + 1)
        invariant forall j :: index < j <= index0 ==> trail[j].v !in seen
        decreases index
      {
        StillBelow(T(), open, index);
        index := index - 1;
      }
    }

    /** The highest flagged literal of the conflict level at or below position index0. */
    method SelectNext(index0: int, level: nat, ghost mk: Marks, ghost stale: set<Var>) returns (index: int, p: Lit)
      requires -1 <= index0 < |trail| && Marked(T(), level, index0 + 1, mk) && mk.open != {}
      requires seen == mk.seen + stale && RootOnly(T(), stale) && level > 0
      ensures -1 <= index < index0 && p == trail[index + 1]
      ensures p.v in mk.open && Level(p.v) == level
      ensures forall j :: index + 1 < j < index0 + 1 ==> !(trail[j].v in seen && Level(trail[j].v) >= level)
    {
      hide Marked, FoundBelow;
      OpenMarks(T(), level, index0 + 1, mk);
      index := index0;
      while true
        invariant -1 <= index <= index0
        invariant forall v :: v in mk.open ==> FoundBelow(T(), v, index + 1)
        invariant forall j :: index < j < index0 + 1 ==> !(trail[j].v in seen && Level(trail[j].v) >= level)
        decreases index
      {
        index := ScanSeen(index, mk.open);
        p := trail[index];
        index := index - 1;
        if Level(p.v) >= level {
          return;
        }
        StillBelow(T(), mk.open, index + 1);
      }
    }

    /** Takes the next flagged literal of the conflict level off the trail. */
    method TakeNext(index0: int, ghost c0: Clause, level: nat, ghost out: seq<Lit>, pathC0: int, ghost mk0: Marks,
                    ghost stale: set<Var>)
      returns (index: int, p: Lit, pathC: int, ghost mk: Marks)
      requires -1 <= index0 < |trail| && AllMarked(S(), c0, level, index0 + 1, mk0)
      requires Tracked(seen, mk0, stale, out, pathC0) && RootOnly(T(), stale) && level > 0
      modifies this`seen
      ensures -1 <= index < index0 && p == trail[index + 1] && Taken(S(), c0, level, index + 1, mk)
      ensures Tracked(seen, mk, stale, out, pathC) && (pathC <= 0 <==> mk.open == {})
      ensures p.v in mk0.open && mk == mk0.(seen := mk0.seen - {p.v}, open := mk0.open - {p.v})
      ensures forall j :: index + 1 < j < index0 + 1 ==> !(trail[j].v in mk0.seen && Level(trail[j].v) >= level)
    {
      hide AllMarked, Taken, Marked;
      MarkedNow(S(), c0, level, index0 + 1, mk0);
      index, p := SelectNext(index0, level, mk0, stale);
      AfterSelect(S(), c0, level, index0 + 1, mk0, index + 1);
      seen := seen - {p.v};
      pathC := pathC0 - 1;
      mk := mk0.(seen := mk0.seen - {p.v}, open := mk0.open - {p.v});
      assert mk0.open == mk.open + {p.v};
    }

    /** Where analysis stands before it flags the clause cr, of which j0 literals are known. */
    ghost predicate Resolving(ca0: seq<Clause>, c0: Clause, level: nat, k: nat, mk: Marks, cr: int, j0: nat, p: Lit,
                              stale: set<Var>, out: seq<Lit>, pathC: int)
      reads this`trail, this`trailLim, this`assigns, this`vardata, this`ca, this`live, this`watches, this`watchesBin
      reads this`dirties, this`dirtiesBin, this`clauses, this`formula, this`seen
    {
      && ToMark(S(), c0, level, k, mk, cr, j0, p) && Tracked(seen, mk, stale, out, pathC) && SameArena(ca0, ca)
      && OnWalk(T(), ca0, c0, level, k, mk, j0, p) && RootOnly(T(), stale) && level > 0
    }

    /** The same when it has taken the literal at position i off the trail. */
    ghost predicate Reached(ca0: seq<Clause>, c0: Clause, level: nat, i: nat, mk: Marks, stale: set<Var>, out: seq<Lit>,
                            pathC: int)
      reads this`trail, this`trailLim, this`assigns, this`vardata, this`ca, this`live, this`watches, this`watchesBin
      reads this`dirties, this`dirtiesBin, this`clauses, this`formula, this`seen
    {
      && Taken(S(), c0, level, i, mk) && Tracked(seen, mk, stale, out, pathC) && SameArena(ca0, ca) && i < |trail|
      && mk.seen + {trail[i].v} == Walk(T(), ca0, Above(T(), c0), level, i + 1)
      && (mk.open == {} ==> FirstPoint(T(), ca0, c0, level, i))
      && (mk.open != {} ==> OnWalk(T(), ca0, c0, level, i, mk, 1, trail[i]))
      && RootOnly(T(), stale) && level > 0
    }

    /** Flags a clause and takes the next flagged literal of the conflict level off the trail. */
    method ResolveOne(cr: int, j0: nat, index0: int, out0: seq<Lit>, pathC0: int, ghost ca0: seq<Clause>,
                      ghost c0: Clause, level: nat, ghost mk0: Marks, ghost p0: Lit, ghost stale: set<Var>)
      returns (out: seq<Lit>, pathC: int, index: int, p: Lit, ghost mk: Marks)
      requires -1 <= index0 < |trail| && Resolving(ca0, c0, level, index0 + 1, mk0, cr, j0, p0, stale, out0, pathC0)
      modifies this`seen
      ensures -1 <= index < index0 && p == trail[index + 1]
      ensures Reached(ca0, c0, level, index + 1, mk, stale, out, pathC) && (pathC <= 0 <==> mk.open == {})
    {
      hide Analysing, Marked, ToMark, AllMarked, Taken, SameArena, RootOnly, Tracked, Flag, Marking, OnWalk, Walk,
          FirstPoint, NotYet, StopsAt, Above;
      MarkableNow(S(), c0, level, index0 + 1, mk0, cr, j0, p0);
      out, pathC, mk := MarkClause(cr, j0, level, out0, pathC0, mk0, index0 + 1, stale);
      AfterMark(S(), c0, level, index0 + 1, mk0, mk, cr, j0, p0);
      TrackedSeen(old(seen), mk0, stale, out0, pathC0);
      TrackedSeen(seen, mk, stale, out, pathC);
      ToMarkWalk(S(), ca0, c0, level, index0 + 1, mk0, mk, cr, j0, p0, old(seen), seen, stale);
      ghost var all := mk;
      index, p, pathC, mk := TakeNext(index0, c0, level, out, pathC, mk, stale);
      TakenWalk(S(), ca0, c0, level, index0 + 1, all, index + 1, mk);
    }

    /** Puts the reason of the literal just taken in order, to be flagged next. */
    method PrepareReason(index: int, p: Lit, ghost ca0: seq<Clause>, ghost c0: Clause, level: nat, ghost mk: Marks,
                         ghost stale: set<Var>, ghost out: seq<Lit>, ghost pathC: int)
      returns (cr: int)
      requires -1 <= index < |trail| - 1 && p == trail[index + 1] && mk.open != {}
      requires Reached(ca0, c0, level, index + 1, mk, stale, out, pathC)
      modifies this`ca
      ensures Resolving(ca0, c0, level, index + 1, mk, cr, 1, p, stale, out, pathC)
    {
      hide Analysing, ToMark, Taken, SameArena, RootOnly, Tracked, OnWalk, Walk, FirstPoint, Above;
      cr := Reason(p.v);
      TakenReason(S(), c0, level, index + 1, mk);
      TakenNow(S(), c0, level, index + 1, mk);
      ghost var s := S();
      NormaliseReason(cr, p, level);
      NextToMark(s, S(), c0, level, index + 1, mk);
      SameArenaTrans(ca0, s.ca, ca);
    }

    /** Resolves the conflict back to the first unique implication point. */
    method FirstUip(confl: int, level: nat) returns (out: seq<Lit>)
      requires Analysing(S(), level) && confl in live && 0 <= confl < |ca| && T().AllFalse(ca[confl])
      requires RootOnly(T(), seen)
      requires forall j :: 0 <= j < |ca[confl]| ==> Level(ca[confl][j].v) <= level
      requires exists j :: 0 <= j < |ca[confl]| && Level(ca[confl][j].v) == level
      modifies this`ca, this`seen
      ensures Analysing(S(), level) && SameArena(old(ca), ca)
      ensures UipShape(T(), out, level) && MinimalOf(formula, out, out) && seen == Vars(out[1..]) + old(seen)
      ensures FirstUipClause(T(), old(ca), old(ca)[confl], level, out)
      ensures NegatesNearest(T(), old(ca), old(ca)[confl], level, out)
    {
      hide Conflicted, NegatesNearest, Analysing, ToMark, Taken, Entails, SameArena, RootOnly, Tracked, OnWalk, Walk,
          FirstPoint, FirstUipClause, Above;
      SameArenaRefl(ca);
      ghost var c0, stale := ca[confl], seen;
      LevelAbove(level);
      ConflictAt(confl, level);
      StartMarks(S(), level, confl);
      StoredEntails(S(), level, confl);
      var pathC, cr, j0, index := 0, confl, 0, |trail| - 1;
      ghost var mk := Marks({}, [], {}, {});
      out := [ca[confl][0]];
      TrackedStart(seen, mk, out);
      var p := ca[confl][0];
      WalkStarts(T(), ca, c0, level, p);
      while true
        invariant -1 <= index < |trail| && Resolving(old(ca), c0, level, index + 1, mk, cr, j0, p, stale, out, pathC)
        decreases index
      {
        out, pathC, index, p, mk := ResolveOne(cr, j0, index, out, pathC, old(ca), c0, level, mk, p, stale);
        if pathC <= 0 {
          break;
        }
        cr := PrepareReason(index, p, old(ca), c0, level, mk, stale, out, pathC);
        j0 := 1;
      }
      UipReached(S(), c0, level, index + 1, mk);
      TakenNow(S(), c0, level, index + 1, mk);
      WalkEnds(T(), old(ca), c0, level, index + 1, mk);
      TrackedEnd(seen, mk, stale, out, pathC, Neg(p));
      out := out[0 := Neg(p)];
      UipNegated(T(), old(ca), live, c0, level, out);
    }

    lemma ConflictAt(confl: int, level: nat)
      requires Analysing(S(), level) && 0 <= confl < |ca| && T().AllFalse(ca[confl])
      requires forall j :: 0 <= j < |ca[confl]| ==> Level(ca[confl][j].v) <= level
      ensures Conflicted(T(), ca, live, ca[confl], level)
    {
      LevelAbove(level);
      ConflictLevels(T(), ca, live, ca[confl], level);
    }

    lemma LevelAbove(level: nat)
      requires Analysing(S(), level)
      ensures 0 < level <= |trailLim|
    {
    }

    // ---------- Minimisation ----------

    /** Flags and stacks the literals of a reason; gives up on one that cannot be removed. */
    method ExpandReason(cr: int, abstractLevels: bv32, stack0: seq<Lit>, toclear0: seq<Lit>, ghost base: set<Var>,
                        ghost p: Var, ghost x: Var, ghost arena: seq<Clause>)
      returns (done: bool, stack: seq<Lit>, toclear: seq<Lit>)
      requires 0 <= cr < |ca| && Exploring(T(), ca, seen, base, stack0, p, {x}) && SameArena(arena, ca)
      requires OnPaths(T(), arena, base, Passable(T(), abstractLevels), p, seen, stack0) && x in seen && cr == Reason(x)
      requires Leads(T(), arena, base, Passable(T(), abstractLevels), p, x)
      requires forall i :: 1 <= i < |ca[cr]| ==> T().False(ca[cr][i]) && ca[cr][i].v < |vardata|
      modifies this`seen
      ensures old(seen) <= seen && toclear0 <= toclear && seen == old(seen) + Vars(toclear[|toclear0|..])
      ensures old(seen) !! Vars(toclear[|toclear0|..])
      ensures done ==> Exploring(T(), ca, seen, base, stack, p, {x})
      ensures if done then OnPaths(T(), arena, base, Passable(T(), abstractLevels), p, seen, stack)
              else Stuck(T(), arena, base, Passable(T(), abstractLevels), p)
      ensures done ==> forall i :: 1 <= i < |ca[cr]| ==> ca[cr][i].v in seen || Level(ca[cr][i].v) == 0
      ensures |stack| - |stack0| == |toclear| - |toclear0|
      ensures forall i :: |toclear0| <= i < |toclear| ==> toclear[i].v < |vardata|
    {
      hide Exploring, OnPaths, Leads, Stuck, SameArena, Below, Passable, InMask;
      stack, toclear, done := stack0, toclear0, true;
      var i := 1;
      ghost var added: seq<Lit> := [];
      while i < |ca[cr]|
        invariant 1 <= i && toclear == toclear0 + added
        invariant seen == old(seen) + Vars(added) && old(seen) !! Vars(added)
        invariant Exploring(T(), ca, seen, base, stack, p, {x})
        invariant OnPaths(T(), arena, base, Passable(T(), abstractLevels), p, seen, stack)
        invariant forall k :: 1 <= k < i && k < |ca[cr]| ==> ca[cr][k].v in seen || Level(ca[cr][k].v) == 0
        invariant |stack| - |stack0| == |added| && forall k :: 0 <= k < |added| ==> added[k].v < |vardata|
      {
        var q := ca[cr][i];
        if q.v !in seen && Level(q.v) > 0 {
          PathsOn(T(), arena, ca, base, Passable(T(), abstractLevels), p, seen, stack, cr, x, q);
          PassableIff(T(), q.v, abstractLevels);
          if Reason(q.v) != UNDEF && InMask(Level(q.v), abstractLevels) {
            ExplorePush(T(), ca, seen, base, stack, p, {x}, q);
            VarsPush(added, q);
            seen := seen + {q.v};
            stack := stack + [q];
            toclear := toclear + [q];
            added := added + [q];
          } else {
            done := false;
            return;
          }
        }
        i := i + 1;
      }
    }

    /** Takes the flags of the literals from index top on away again. */
    method Unflag(ls: seq<Lit>, top: nat)
      requires top <= |ls|
      modifies this`seen
      ensures seen == old(seen) - Vars(ls[top..])
    {
      var j := top;
      while j < |ls|
        invariant top <= j <= |ls| && seen == old(seen) - Vars(ls[top..j])
      {
        assert ls[top..j + 1] == ls[top..j] + [ls[j]];
        VarsPush(ls[top..j], ls[j]);
        seen := seen - {ls[j].v};
        j := j + 1;
      }
      assert ls[top..j] == ls[top..];
    }

    /** The reason of the literal on top of the stack, with the literal it implies at its front. */
    method PopReason(stack: seq<Lit>, ghost base: set<Var>, ghost p: Var, ghost level: nat) returns (cr: int)
      requires Analysing(S(), level) && Exploring(T(), ca, seen, base, stack, p, {}) && stack != []
      modifies this`ca
      ensures Analysing(S(), level) && SameArena(old(ca), ca)
      ensures cr == Reason(stack[|stack| - 1].v) && 0 <= cr < |ca| && |ca[cr]| > 0
      ensures ca[cr][0] == Neg(stack[|stack| - 1])
      ensures Exploring(T(), ca, seen, base, stack[..|stack| - 1], p, {stack[|stack| - 1].v})
      ensures forall i :: 1 <= i < |ca[cr]| ==> T().False(ca[cr][i]) && ca[cr][i].v < |vardata|
    {
      hide Analysing, Exploring, SameArena;
      var x := Neg(stack[|stack| - 1]);
      StackReason(S(), level, seen, base, stack, p);
      ReasonOf(S(), level, Neg(x));
      assert Neg(Neg(x)) == x;
      cr := Reason(x.v);
      NormaliseReason(cr, x, level);
      ExplorePop(T(), old(ca), ca, seen, base, stack, p);
      FrontFalse(T(), old(ca), ca, cr, x);
      ClauseVars(S(), level, cr);
    }

    /** Expands the literal on top of the stack; toclear holds, from index top on, what is flagged besides seen0. */
    method ExploreOne(abstractLevels: bv32, stack0: seq<Lit>, toclear0: seq<Lit>, top: nat, ghost seen0: set<Var>,
                      ghost base: set<Var>, ghost p: Var, ghost level: nat, ghost arena: seq<Clause>)
      returns (done: bool, stack: seq<Lit>, toclear: seq<Lit>)
      requires Analysing(S(), level) && Exploring(T(), ca, seen, base, stack0, p, {}) && stack0 != []
      requires SameArena(arena, ca) && OnPaths(T(), arena, base, Passable(T(), abstractLevels), p, seen, stack0)
      requires FlaggedFrom(seen0, seen, toclear0, top)
      modifies this`ca, this`seen
      ensures Analysing(S(), level) && SameArena(arena, ca)
      ensures FlaggedFrom(seen0, seen, toclear, top) && toclear0 <= toclear
      ensures done ==> Exploring(T(), ca, seen, base, stack, p, {})
      ensures if done then OnPaths(T(), arena, base, Passable(T(), abstractLevels), p, seen, stack)
              else Stuck(T(), arena, base, Passable(T(), abstractLevels), p)
      ensures Unflagged() < old(Unflagged()) || (Unflagged() == old(Unflagged()) && |stack| < |stack0|)
    {
      hide Analysing, Exploring, SameArena, Expanded, OnPaths, Leads, Stuck, Passable;
      var x := stack0[|stack0| - 1];
      PathsPop(T(), arena, base, Passable(T(), abstractLevels), p, seen, stack0);
      var cr := PopReason(stack0, base, p, level);
      SameArenaTrans(arena, old(ca), ca);
      done, stack, toclear := ExpandReason(cr, abstractLevels, stack0[..|stack0| - 1], toclear0, base, p, x.v,
                                           arena);
      AddedVars(toclear0, toclear, top);
      FreshBelow(|vardata|, old(seen), toclear[|toclear0|..]);
      if done {
        FrontExpanded(T(), ca, cr, x.v, seen);
        ExploreDone(T(), ca, seen, base, stack, p, x.v);
      }
    }

    ghost function Unflagged(): set<Var>
      reads this`vardata, this`seen
    {
      Below(|vardata|) - seen
    }

    /** Gives up on a literal: what was flagged for it is no longer. */
    method Rollback(toclear0: seq<Lit>, top: nat, ghost seen0: set<Var>, ghost base: set<Var>, ghost arena: seq<Clause>)
      returns (toclear: seq<Lit>)
      requires FlaggedFrom(seen0, seen, toclear0, top)
      requires Closed(T(), arena, seen0, base) && SameArena(arena, ca)
      modifies this`seen
      ensures seen == seen0 && toclear == toclear0[..top] && Closed(T(), ca, seen, base)
    {
      hide Closed, SameArena;
      ClosedMore(T(), arena, ca, seen0, base);
      Unflag(toclear0, top);
      toclear := toclear0[..top];
      assert seen == seen0;
    }

    /** Whether p is implied by literals of base, flagging whatever else is on the way: exactly if no path from p
        through the implication graph gets stuck before it comes to base or level 0. */
    method LitRedundant(p: Lit, abstractLevels: bv32, toclear0: seq<Lit>, ghost base: set<Var>, ghost level: nat)
      returns (redundant: bool, toclear: seq<Lit>)
      requires Analysing(S(), level) && Closed(T(), ca, seen, base) && T().False(p) && Reason(p.v) != UNDEF
      requires base <= seen && p.v in base && seen - base <= Passable(T(), abstractLevels)
      modifies this`ca, this`seen
      ensures Analysing(S(), level) && SameArena(old(ca), ca) && Closed(T(), ca, seen, base)
      ensures redundant ==> Expanded(T(), ca, seen, p.v)
      ensures redundant <==> !Stuck(T(), old(ca), base, Passable(T(), abstractLevels), p.v)
      ensures !redundant ==> seen == old(seen)
      ensures seen - base <= Passable(T(), abstractLevels)
      ensures toclear0 <= toclear && old(seen) <= seen <= old(seen) + Vars(toclear)
    {
      hide Analysing, Exploring, SameArena, Expanded, Closed, FlaggedFrom, OnPaths, Stuck, Passable;
      SameArenaRefl(ca);
      ExploreStart(T(), ca, seen, base, p);
      PathsStart(T(), ca, base, Passable(T(), abstractLevels), p, seen);
      FlaggedStart(seen, toclear0);
      var stack := [p];
      toclear := toclear0;
      while |stack| > 0
        invariant Analysing(S(), level) && SameArena(old(ca), ca)
        invariant Exploring(T(), ca, seen, base, stack, p.v, {})
        invariant OnPaths(T(), old(ca), base, Passable(T(), abstractLevels), p.v, seen, stack)
        invariant toclear0 <= toclear && FlaggedFrom(old(seen), seen, toclear, |toclear0|)
        decreases Unflagged(), |stack|
      {
        var done;
        done, stack, toclear := ExploreOne(abstractLevels, stack, toclear, |toclear0|, old(seen), base, p.v, level,
                                           old(ca));
        if !done {
          toclear := Rollback(toclear, |toclear0|, old(seen), base, old(ca));
          redundant := false;
          return;
        }
      }
      FlaggedEnd(old(seen), seen, toclear, |toclear0|);
      ExploreEnd(T(), ca, seen, base, p.v);
      PathsEnd(T(), old(ca), ca, base, Passable(T(), abstractLevels), p.v, seen);
      redundant := true;
    }

    /** Whether the reason of p mentions, besides p, only flagged literals and literals of level 0. */
    method LocallyRedundant(p: Lit, ghost level: nat) returns (redundant: bool)
      requires Analysing(S(), level) && T().False(p) && Reason(p.v) != UNDEF && p.v in seen
      ensures redundant ==> Expanded(T(), ca, seen, p.v)
      ensures redundant <==> Needs(T(), ca, seen, p.v) == {}
    {
      hide Analysing;
      ReasonOf(S(), level, p);
      var c := ca[Reason(p.v)];
      var k := if |c| == 2 then 0 else 1;
      var first := k;
      NeedsNothing(T(), ca, seen, p.v);
      while k < |c|
        invariant first <= k && forall i :: first <= i < k && i < |c| ==> c[i].v in seen || Level(c[i].v) == 0
      {
        if c[k].v !in seen && Level(c[k].v) > 0 {
          return false;
        }
        k := k + 1;
      }
      forall q | q in c && q.v != p.v
        ensures q.v in seen || Level(q.v) == 0
      {
        var i :| 0 <= i < |c| && c[i] == q;
        assert i >= first;
      }
      return true;
    }

    /** Whether minimisation in the given mode drops p: deep in mode 2, local in mode 1, never in others. Only mode 2
        flags anything. */
    method Droppable(mode: nat, p: Lit, abstractLevels: bv32, toclear0: seq<Lit>, ghost base: set<Var>,
                     ghost level: nat)
      returns (drop: bool, toclear: seq<Lit>)
      requires Analysing(S(), level) && Closed(T(), ca, seen, base) && T().False(p)
      requires base <= seen && p.v in base && seen - base <= Passable(T(), abstractLevels)
      requires mode != 2 ==> seen == base
      modifies this`ca, this`seen
      ensures Analysing(S(), level) && SameArena(old(ca), ca) && Closed(T(), ca, seen, base)
      ensures drop ==> Expanded(T(), ca, seen, p.v)
      ensures drop <==> Drops(mode, T(), old(ca), base, Passable(T(), abstractLevels), p.v)
      ensures seen - base <= Passable(T(), abstractLevels) && (mode != 2 ==> seen == base)
      ensures toclear0 <= toclear && old(seen) <= seen <= old(seen) + Vars(toclear)
    {
      hide Analysing, SameArena, Expanded, Closed, Stuck, Needs;
      SameArenaRefl(ca);
      drop, toclear := false, toclear0;
      if Reason(p.v) != UNDEF {
        if mode == 2 {
          drop, toclear := LitRedundant(p, abstractLevels, toclear0, base, level);
        } else if mode == 1 {
          drop := LocallyRedundant(p, level);
        }
      }
    }

    /** The levels of the learnt clause from its second literal on, as a mask. */
    method AbstractLevels(out: seq<Lit>) returns (mask: bv32)
      requires out != []
      ensures mask == MaskOf(T(), out[1..])
    {
      hide MaskOf, LevelBit;
      mask := 0;
      var i := 1;
      NoMask(T());
      assert out[1..1] == [];
      while i < |out|
        invariant 1 <= i <= |out| && mask == MaskOf(T(), out[1..i])
      {
        MaskNext(T(), out, i);
        mask := mask | LevelBit(Level(out[i].v));
        i := i + 1;
      }
      assert out[1..i] == out[1..];
    }

    /** Drops, in place, the literals of the learnt clause that the others imply: exactly those that the mode says. */
    method Minimise(out0: seq<Lit>, mode: nat, ghost level: nat, ghost stale: set<Var>)
      returns (out: seq<Lit>, toclear: seq<Lit>)
      requires Analysing(S(), level) && UipShape(T(), out0, level) && MinimalOf(formula, out0, out0)
      requires seen == Vars(out0[1..]) + stale && RootOnly(T(), stale)
      modifies this`ca, this`seen
      ensures Analysing(S(), level) && SameArena(old(ca), ca) && seen <= Vars(toclear) + stale
      ensures MinimalOf(formula, out0, out)
      ensures forall l :: l in out <==> l in out0 && Survives(mode, T(), old(ca), out0, stale, l)
    {
      hide Analysing, Minimising, Entails, Closed, Expanded, SameArena, Compacting, Drops, Thinning, MaskOf, Passable;
      MinimiseStart(S(), level, stale, out0);
      SameArenaRefl(ca);
      TailVars(out0);
      out, toclear := out0, out0;
      var mask := AbstractLevels(out);
      ghost var base, kept := Vars(out0[1..]) + stale, out0[..1];
      var i, j := 1, 1;
      CompactStart(out0, 1);
      ThinningStart(mode, T(), ca, base, Passable(T(), mask), out0);
      while i < |out|
        invariant 1 <= i <= |out| == |out0| && Compacting(out, out0, i, j, kept)
        invariant Thinning(mode, T(), old(ca), base, Passable(T(), mask), out0, i, kept)
        invariant base <= seen && seen - base <= Passable(T(), mask) && (mode != 2 ==> seen == base)
        invariant Minimising(S(), level, seen, stale, out0, i, kept)
        invariant SameArena(old(ca), ca) && out0 <= toclear && seen <= Vars(toclear) + stale
      {
        var p := out[i];
        ghost var s, seen0 := S(), seen;
        CompactNext(out, out0, i, j, kept);
        MinimiseNow(s, level, seen, stale, out0, i, kept);
        ghost var before := toclear;
        var drop;
        drop, toclear := Droppable(mode, p, mask, toclear, base, level);
        PrefixVars(before, toclear);
        ThinningStep(mode, T(), old(ca), s.ca, base, Passable(T(), mask), out0, i, kept, drop);
        SameArenaTrans(old(ca), s.ca, ca);
        MinimiseStep(s, S(), level, seen0, seen, stale, out0, i, kept, !drop);
        if !drop {
          out := out[j := p];
          j := j + 1;
          kept := kept + [p];
        }
        i := i + 1;
      }
      CompactEnd(out, out0, i, j, kept);
      MinimiseEnd(S(), level, seen, stale, out0, kept);
      ThinningEnd(mode, T(), old(ca), base, Passable(T(), mask), out0, kept);
      out := out[..j];
    }

    // ---------- binResMinimize ----------

    function Stamp(v: Var): nat
      reads this`seen2
    {
      if v in seen2 then seen2[v] else 0
    }

    /** No stamp is ahead of the counter. */
    predicate Stamps()
      reads this`seen2, this`counter
    {
      forall v :: v in seen2 ==> seen2[v] <= counter
    }

    /** Stamps the variables of out from index 1 on with a fresh number. */
    method StampTail(out: seq<Lit>)
      requires Stamps() && out != []
      modifies this`seen2, this`counter
      ensures Stamps() && counter > 0
      ensures forall v :: Stamp(v) == counter <==> v in Vars(out[1..])
    {
      counter := counter + 1;
      var i := 1;
      assert Vars(out[1..1]) == {};
      while i < |out|
        invariant 1 <= i <= |out| && Stamps() && counter > 0
        invariant forall v :: Stamp(v) == counter <==> v in Vars(out[1..i])
      {
        VarsPush(out[1..i], out[i]);
        assert out[1..i + 1] == out[1..i] + [out[i]];
        seen2 := seen2[out[i].v := counter];
        i := i + 1;
      }
      assert out[1..i] == out[1..];
    }

    /** The variables of vs whose literal is true and blocks one of the watchers. */
    ghost function Hits(ws: seq<Watcher>, vs: set<Var>): set<Var>
      reads this`assigns
    {
      set x | x in ws && x.blocker.v in vs && True(x.blocker) :: x.blocker.v
    }

    lemma HitsNext(ws: seq<Watcher>, vs: set<Var>, i: nat)
      requires i < |ws|
      ensures Hits(ws[..i + 1], vs)
           == Hits(ws[..i], vs) + if ws[i].blocker.v in vs && True(ws[i].blocker) then {ws[i].blocker.v} else {}
    {
      assert ws[..i + 1] == ws[..i] + [ws[i]];
    }

    /** Exactly the variables of vs that are not in bad bear the current stamp. */
    ghost predicate Stamped(vs: set<Var>, bad: set<Var>)
      reads this`seen2, this`counter
    {
      forall v :: Stamp(v) == counter <==> v in vs && v !in bad
    }

    method UnstampOne(v: Var, ghost vs: set<Var>, ghost bad: set<Var>)
      requires Stamps() && counter > 0 && Stamped(vs, bad)
      modifies this`seen2
      ensures Stamps() && Stamped(vs, bad + {v})
    {
      seen2 := seen2[v := counter - 1];
    }

    /** Unstamps what a binary clause with the first literal of out resolves away; bad is what it unstamps. */
    method UnstampResolvable(out: seq<Lit>, ghost level: nat) returns (toRemove: nat, ghost bad: set<Var>)
      requires Analysing(S(), level) && Stamps() && counter > 0 && out != [] && T().AllFalse(out)
      requires forall v :: Stamp(v) == counter <==> v in Vars(out[1..])
      modifies this`seen2
      ensures Stamps() && toRemove == |bad| && bad <= Vars(out[1..])
      ensures forall v :: v in Vars(out[1..]) ==> (Stamp(v) != counter <==> v in bad)
      ensures forall l :: l in out && l.v in bad ==> Entails(formula, [out[0], Neg(l)])
      ensures forall l :: l in out[1..] ==> (l.v in bad <==> HasBinary(ca, live, out[0], Neg(l)))
    {
      hide Analysing, Entails, HasBinary, Hits, Vars, Stamps, Stamped, Stamp;
      var ws := At(watchesBin, Neg(out[0]));
      toRemove, bad := 0, {};
      ghost var vs := Vars(out[1..]);
      var i := 0;
      assert ws[..0] == [];
      NoHits(vs);
      StampedStart(vs);
      while i < |ws|
        invariant 0 <= i <= |ws| && Stamps() && toRemove == |bad| && bad == Hits(ws[..i], vs)
        invariant bad <= vs && Stamped(vs, bad)
      {
        var other := ws[i].blocker;
        HitsNext(ws, vs, i);
        StampedAt(vs, bad, other.v);
        if Stamp(other.v) == counter && True(other) {
          UnstampOne(other.v, vs, bad);
          toRemove := toRemove + 1;
          bad := bad + {other.v};
        }
        i := i + 1;
      }
      assert ws[..i] == ws;
      BlockersExact(out, level);
      StampedEnd(vs, bad);
    }

    lemma StampedStart(vs: set<Var>)
      requires forall v :: Stamp(v) == counter <==> v in vs
      ensures Stamped(vs, {})
    {
    }

    lemma StampedAt(vs: set<Var>, bad: set<Var>, v: Var)
      requires Stamped(vs, bad)
      ensures Stamp(v) == counter <==> v in vs && v !in bad
    {
    }

    lemma StampedEnd(vs: set<Var>, bad: set<Var>)
      requires Stamped(vs, bad)
      ensures forall v :: v in vs ==> (Stamp(v) != counter <==> v in bad)
    {
    }

    lemma NoHits(vs: set<Var>)
      ensures Hits([], vs) == {}
    {
    }

    /** A false literal is resolved away exactly if its negation blocks a watcher of the first literal. */
    lemma BlockersExact(out: seq<Lit>, level: nat)
      requires Analysing(S(), level) && out != [] && T().AllFalse(out)
      ensures var bad := Hits(At(watchesBin, Neg(out[0])), Vars(out[1..]));
        && (forall l :: l in out[1..] ==> (l.v in bad <==> HasBinary(ca, live, out[0], Neg(l))))
        && (forall l :: l in out && l.v in bad ==> Entails(formula, [out[0], Neg(l)]))
    {
      hide Analysing, HasBinary, Entails;
      var ws, vs := At(watchesBin, Neg(out[0])), Vars(out[1..]);
      forall l | l in out[1..]
        ensures l.v in Hits(ws, vs) <==> HasBinary(ca, live, out[0], Neg(l))
      {
        BinaryExact(S(), level, out[0], Neg(l));
        assert l in out && T().False(l) && l.v in vs;
      }
      forall l | l in out && l.v in Hits(ws, vs)
        ensures Entails(formula, [out[0], Neg(l)])
      {
        var x :| x in ws && x.blocker.v == l.v && True(x.blocker);
        var i :| 0 <= i < |ws| && ws[i] == x;
        assert T().False(l);
        BinaryWatcher(S(), level, out[0], ws, i);
      }
    }

    /** Replaces, in place, the unstamped literals by literals from the end. */
    method RemoveUnstamped(out0: seq<Lit>, toRemove: nat, ghost bad: set<Var>) returns (out: seq<Lit>)
      requires out0 != [] && Distinct(out0) && bad <= Vars(out0[1..]) && toRemove == |bad|
      requires forall v :: v in Vars(out0[1..]) ==> (Stamp(v) != counter <==> v in bad)
      ensures out != [] && out[0] == out0[0] && Distinct(out)
      ensures (forall l :: l in out ==> l in out0) && (forall l :: l in out0 ==> l in out || l.v in bad)
      ensures forall l :: l in out ==> l == out0[0] || l.v !in bad
    {
      hide Shrinking;
      ShrinkStart(out0, bad);
      out := out0;
      var i, last := 1, |out| - 1;
      while i < |out0| - toRemove
        invariant 1 <= i <= |out0| - toRemove && |out| == |out0| && last < |out|
        invariant Shrinking(out0, out, i, last, bad, toRemove) && out[0] == out0[0]
        decreases |out0| - i, last
      {
        ShrinkRoom(out0, out, i, last, bad, toRemove);
        ShrinkMember(out0, out, i, last, bad, toRemove);
        if Stamp(out[i].v) != counter {
          ShrinkTake(out0, out, i, last, bad, toRemove);
          out := out[i := out[last]];
          last := last - 1;
        } else {
          ShrinkSkip(out0, out, i, last, bad, toRemove);
          i := i + 1;
        }
      }
      ShrinkEnd(out0, out, i, last, bad, toRemove);
      out := out[..|out| - toRemove];
    }

    /** Drops exactly the literals that a stored binary clause with the first literal resolves away. */
    method BinResMinimize(out0: seq<Lit>, ghost uip: seq<Lit>, ghost level: nat) returns (out: seq<Lit>)
      requires Analysing(S(), level) && Stamps() && UipShape(T(), uip, level) && MinimalOf(formula, uip, out0)
      modifies this`seen2, this`counter
      ensures Stamps() && MinimalOf(formula, uip, out) && out0 != []
      ensures forall l :: l in out <==> l in out0 && (l == out0[0] || !HasBinary(ca, live, out0[0], Neg(l)))
    {
      hide Analysing, Entails, HasBinary;
      StampTail(out0);
      var toRemove, bad := UnstampResolvable(out0, level);
      out := out0;
      if toRemove > 0 {
        out := RemoveUnstamped(out0, toRemove, bad);
        assert out[0] in out;
        BinaryEntailed(formula, out0, out);
      }
      forall l | l in out0 && l != out0[0]
        ensures l in out <==> !HasBinary(ca, live, out0[0], Neg(l))
      {
        InTail(out0, bad, l);
      }
    }

    static lemma InTail(out: seq<Lit>, bad: set<Var>, l: Lit)
      requires l in out && l != out[0] && bad <= Vars(out[1..])
      ensures l in out[1..] && l.v in Vars(out[1..])
    {
      var k :| 0 <= k < |out| && out[k] == l;
      assert out[1..][k - 1] == l;
    }

    // ---------- analyze, as a whole ----------

    /** Puts a literal of the highest level at index 1; its level is the one to backtrack to. */
    method BacktrackLevel(out0: seq<Lit>) returns (out: seq<Lit>, btLevel: nat)
      requires out0 != []
      ensures SameLits(out, out0) && (Distinct(out0) ==> Distinct(out)) && out[0] == out0[0]
      ensures NextHighest(T(), out, btLevel)
    {
      out, btLevel := out0, 0;
      if |out| > 1 {
        var maxI, i := 1, 2;
        while i < |out|
          invariant 1 <= maxI < |out| && 2 <= i
          invariant forall k :: 1 <= k < i && k < |out| ==> Level(out[k].v) <= Level(out[maxI].v)
        {
          if Level(out[i].v) > Level(out[maxI].v) {
            maxI := i;
          }
          i := i + 1;
        }
        SwapLits(out, 1, maxI);
        out := Swap(out, 1, maxI);
        btLevel := Level(out[1].v);
      }
    }

    /** First-UIP learning and minimisation. */
    method LearnMinimal(confl: int, level: nat, mode: nat, smallLbd: bool)
      returns (out: seq<Lit>, toclear: seq<Lit>, ghost uip: seq<Lit>)
      requires Analysing(S(), level) && confl in live && 0 <= confl < |ca| && T().AllFalse(ca[confl])
      requires RootOnly(T(), seen) && Stamps()
      requires forall j :: 0 <= j < |ca[confl]| ==> Level(ca[confl][j].v) <= level
      requires exists j :: 0 <= j < |ca[confl]| && Level(ca[confl][j].v) == level
      modifies this`ca, this`seen, this`seen2, this`counter
      ensures Analysing(S(), level) && SameArena(old(ca), ca) && seen <= Vars(toclear) + old(seen) && Stamps()
      ensures UipShape(T(), uip, level) && MinimalOf(formula, uip, out)
      ensures Analysed(T(), old(ca), live, old(ca)[confl], old(seen), level, mode, smallLbd, uip, out)
    {
      hide Analysing, SameArena, Vars, UipShape, MinimalOf, Survives, HasBinary, FirstUipClause;
      out := FirstUip(confl, level);
      uip := out;
      ghost var ca1 := ca;
      out, toclear := Minimise(out, mode, level, old(seen));
      ghost var min, ca2 := out, ca;
      SameArenaTrans(old(ca), ca1, ca);
      MinimalFront(formula, uip, min);
      if smallLbd {
        out := BinResMinimize(out, uip, level);
      }
      MinimalFront(formula, uip, out);
      forall l
        ensures l in out <==> l in uip && Stays(mode, smallLbd, T(), old(ca), live, uip, old(seen), l)
      {
        StaysSame(mode, T(), old(ca), ca1, live, uip, old(seen), l);
        StaysSame(mode, T(), old(ca), ca2, live, uip, old(seen), l);
        SurvivesFront(mode, T(), old(ca), uip, old(seen), l);
      }
    }

    /** Conflict analysis in the given minimisation mode; smallLbd says whether binary minimisation is tried. */
    method Analyze(confl: int, level: nat, mode: nat, smallLbd: bool)
      returns (out: seq<Lit>, btLevel: nat, ghost uip: seq<Lit>)
      requires Analysing(S(), level) && confl in live && 0 <= confl < |ca| && T().AllFalse(ca[confl])
      requires RootOnly(T(), seen) && Stamps()
      requires forall j :: 0 <= j < |ca[confl]| ==> Level(ca[confl][j].v) <= level
      requires exists j :: 0 <= j < |ca[confl]| && Level(ca[confl][j].v) == level
      modifies this`ca, this`seen, this`seen2, this`counter
      ensures Analysing(S(), level) && SameArena(old(ca), ca) && seen <= old(seen) && Stamps()
      ensures Learnt(T(), formula, out, level, btLevel)
      ensures Analysed(T(), old(ca), live, old(ca)[confl], old(seen), level, mode, smallLbd, uip, out)
    {
      hide Analysing, Entails, SameArena, SameLits, NextHighest, Learnt, UipShape, MinimalOf, FirstUipClause, Stays;
      var min, toclear;
      min, toclear, uip := LearnMinimal(confl, level, mode, smallLbd);
      MinimalShape(formula, uip, min);
      out, btLevel := BacktrackLevel(min);
      SameMembers(out, min);
      LearntShape(T(), formula, uip, min, out, level, btLevel);
      assert toclear[0..] == toclear;
      Unflag(toclear, 0);
    }

    // ---------- analyzeFinal ----------

    /** Flags the variables of level above 0 in the reason of x; in a longer clause its first literal is skipped. */
    method FlagReason(c: Clause, ghost x: Var)
      requires |c| >= 2 && (|c| > 2 ==> c[0].v == x)
      modifies this`seen
      ensures exists flagged :: seen == old(seen) + flagged && Flag(T(), c) - {x} <= flagged <= Flag(T(), c)
    {
      var j := if |c| == 2 then 0 else 1;
      ghost var first, flagged: set<Var> := j, {};
      while j < |c|
        invariant first <= j <= |c| && seen == old(seen) + flagged
        invariant forall v :: v in flagged <==> exists i :: first <= i < j && Level(c[i].v) > 0 && c[i].v == v
      {
        if Level(c[j].v) > 0 {
          seen := seen + {c[j].v};
          flagged := flagged + {c[j].v};
        }
        j := j + 1;
      }
      assert Flag(T(), c) - {x} <= flagged <= Flag(T(), c);
    }

    /** Expresses why p, the negation of an assumption, is true: a clause of p and negations of assumptions, exactly
        those on which p rests. */
    method AnalyzeFinal(p: Lit)
      requires Valid() && True(p) && RootFlags(T(), seen) && |trailLim| < |assumptions| && Neg(p) in assumptions
      requires Decided(T(), assumptions)
      modifies this`conflict, this`seen
      ensures seen <= old(seen) && Entails(formula, conflict) && conflict != [] && conflict[0] == p
      ensures forall l :: l in conflict ==> Neg(l) in assumptions || (l == Neg(p) && LateRootUnit(T(), p))
      ensures LateRootUnit(T(), p) ==> Neg(p) in conflict
      ensures conflict == FinalOf(T(), ca, p)
    {
      hide Entails, Explaining, Ready, Base, LateRootUnit, Justified, Consistent, Derived, Flag, RootFlags, Collect;
      FinalParts(S(), qhead);
      conflict := [p];
      ExplainStart(T(), ca, p);
      if |trailLim| == 0 {
        RootConflict(S(), p);
        return;
      }
      ghost var stale, flags, visited := seen, {p.v}, {p.v};
      seen := seen + {p.v};
      var i := |trail|;
      while i > trailLim[0]
        invariant trailLim[0] <= i <= |trail| && seen == flags + stale
        invariant Explaining(T(), ca, i, p, flags, visited, conflict)
      {
        i := i - 1;
        var x := trail[i].v;
        NotStale(T(), i, stale);
        if x in seen {
          if Reason(x) == UNDEF {
            ExplainDecision(T(), ca, i, p, flags, visited, conflict);
            conflict := conflict + [Neg(trail[i])];
          } else {
            TrailReason(S(), i);
            var c := ca[Reason(x)];
            ghost var seen0 := seen;
            FlagReason(c, x);
            ghost var flagged :| seen == seen0 + flagged && Flag(T(), c) - {x} <= flagged <= Flag(T(), c);
            ExplainReason(T(), ca, live, i, p, flags, visited, conflict, flagged);
            flags, visited := flags + flagged, visited + flagged;
          }
          flags := flags - {x};
          seen := seen - {x};
        } else {
          ExplainSkip(T(), ca, i, p, flags, visited, conflict);
        }
      }
      ExplainEnd(S(), p, flags, visited, conflict, assumptions);
      seen := seen - {p.v};
    }

    // ---------- Resolving a conflict ----------

    /** The state between two steps of the search. */
    ghost predicate Running()
      reads this`trail, this`trailLim, this`assigns, this`vardata, this`ca, this`live, this`watches, this`watchesBin
      reads this`dirties, this`dirtiesBin, this`clauses, this`formula, this`qhead, this`learnts, this`seen
      reads this`seen2, this`counter, this`assumptions, this`decision
    {
      && Valid() && Registered(clauses, learnts, live) && Stamps() && RootFlags(T(), seen) && Assuming(T(), assumptions)
      && InVars(assumptions, decision, |vardata|)
    }

    /** The state of the search when propagation has found a false clause. */
    ghost predicate InConflict(confl: int, bound: nat)
      reads this`trail, this`trailLim, this`assigns, this`vardata, this`ca, this`live, this`watches, this`watchesBin
      reads this`dirties, this`dirtiesBin, this`clauses, this`formula, this`learnts, this`seen
      reads this`seen2, this`counter, this`assumptions, this`decision
    {
      && Base(S()) && dirties == {} && dirtiesBin == {} && Conflicting(T(), ca, live, confl, bound)
      && Registered(clauses, learnts, live) && Stamps() && RootFlags(T(), seen) && Assuming(T(), assumptions)
      && InVars(assumptions, decision, |vardata|)
    }

    /** At level 0, with everything propagated. */
    ghost predicate Idle()
      reads this`trail, this`trailLim, this`assigns, this`vardata, this`ca, this`live, this`watches, this`watchesBin
      reads this`dirties, this`dirtiesBin, this`clauses, this`formula, this`qhead, this`learnts, this`seen
      reads this`seen2, this`counter, this`assumptions, this`decision
    {
      Running() && |trailLim| == 0 && qhead == |trail|
    }

    /** The formula has no models. */
    ghost predicate Hopeless()
      reads this`trail, this`trailLim, this`assigns, this`vardata, this`ca, this`live, this`watches, this`watchesBin
      reads this`dirties, this`dirtiesBin, this`clauses, this`formula
    {
      Base(S()) && forall m :: !Models(m, formula)
    }

    /** Stores a clause and lists it under its first two literals. */
    method Attach(c: Clause) returns (cr: int)
      requires |c| >= 2
      modifies this`ca, this`live, this`watches, this`watchesBin
      ensures S() == Attached(old(S()), c) && cr == old(|ca|) && ca == old(ca) + [c] && live == old(live) + {cr}
    {
      cr := |ca|;
      ca := ca + [c];
      live := live + {cr};
      if |c| == 2 {
        watchesBin := Push(watchesBin, Neg(c[0]), Watcher(cr, c[1]));
        watchesBin := Push(watchesBin, Neg(c[1]), Watcher(cr, c[0]));
      } else {
        watches := Push(watches, Neg(c[0]), Watcher(cr, c[1]));
        watches := Push(watches, Neg(c[1]), Watcher(cr, c[0]));
      }
    }

    /** Stores a learnt clause that is unit, and enqueues its first literal. */
    method AddLearnt(out: seq<Lit>, btLevel: nat)
      requires Valid() && UnitLearnt(S(), out, btLevel) && Registered(clauses, learnts, live)
      requires Assuming(T(), assumptions) && Consistent(T())
      modifies this`trail, this`assigns, this`vardata, this`ca, this`live, this`watches, this`watchesBin, this`learnts
      ensures Valid() && Registered(clauses, learnts, live) && Assuming(T(), assumptions) && |vardata| == old(|vardata|)
      ensures out != [] && out[0].v < |old(vardata)| && (old(Stock()) ==> Stock())
      ensures |out| == 1 ==> T() == Enqueue(old(T()), out[0], 0, UNDEF) && ca == old(ca) && learnts == old(learnts)
      ensures |out| > 1 ==> T() == Enqueue(old(T()), out[0], btLevel, old(|ca|)) && ca == old(ca) + [out]
                            && learnts == old(learnts) + [old(|ca|)]
    {
      hide Registered, InVars, Stamps, TrailStocked, Ready, Assuming, Enqueue, Consistent;
      UnitLearntParts(S(), out, btLevel);
      if |out| == 1 {
        UnitReady(S(), qhead, out[0]);
        EnqueueAssuming(T(), out[0], 0, UNDEF, assumptions);
        UncheckedEnqueue(out[0], 0, UNDEF);
      } else {
        AddLongLearnt(out, btLevel);
      }
      if old(Stock()) {
        StockEnqueue(O(), old(T()), out[0], if |out| == 1 then 0 else btLevel, if |out| == 1 then UNDEF else old(|ca|));
      }
    }

    method AddLongLearnt(out: seq<Lit>, btLevel: nat)
      requires Valid() && UnitLearnt(S(), out, btLevel) && |out| > 1
      requires Registered(clauses, learnts, live) && Assuming(T(), assumptions) && Consistent(T())
      modifies this`trail, this`assigns, this`vardata, this`ca, this`live, this`watches, this`watchesBin, this`learnts
      ensures Valid() && Registered(clauses, learnts, live) && Assuming(T(), assumptions) && |vardata| == old(|vardata|)
      ensures out[0].v < |old(vardata)| && T() == Enqueue(old(T()), out[0], btLevel, old(|ca|)) && ca == old(ca) + [out]
      ensures learnts == old(learnts) + [old(|ca|)]
    {
      hide Ready, Assuming, Enqueue, Attached, Consistent, Registered;
      UnitLearntParts(S(), out, btLevel);
      FreshRef(S(), qhead, clauses);
      RegisterLearnt(clauses, learnts, live, |learnts|, |ca|);
      assert learnts[..|learnts|] + [|ca|] + learnts[|learnts|..] == learnts + [|ca|];
      LearnReady(S(), qhead, out, btLevel);
      EnqueueAssuming(T(), out[0], btLevel, |ca|, assumptions);
      var cr := Attach(out);
      learnts := learnts + [cr];
      UncheckedEnqueue(out[0], btLevel, cr);
    }

    /** Backtracks, chronologically or not, so that the learnt clause is unit. */
    method BacktrackLearnt(out: seq<Lit>, level: nat, btLevel: nat)
      requires Analysing(S(), level) && Learnt(T(), formula, out, level, btLevel) && Assuming(T(), assumptions)
      modifies this`trail, this`trailLim, this`assigns, this`qhead, this`orderVsids, this`orderChb
      ensures Valid() && UnitLearnt(S(), out, btLevel) && Assuming(T(), assumptions) && Consistent(T())
      ensures btLevel <= |trailLim| < level <= |old(trailLim)| && T() == Backtracking.CancelUntil(old(T()), |trailLim|)
      ensures |trailLim| == BacktrackTo(conflToChrono, chrono, conflicts, |old(trailLim)|, level, btLevel)
      ensures old(Stock()) ==> Stock()
    {
      hide Registered, InVars, Stamps, TrailStocked, Restocked, Analysing, Learnt, Ready, Assuming, Consistent,
          Leveled, UnitLearnt;
      LearntLevels(T(), formula, out, level, btLevel);
      LevelAbove(level);
      var b := BacktrackTo(conflToChrono, chrono, conflicts, |trailLim|, level, btLevel);
      LearnCancel(S(), out, level, btLevel, b);
      CancelAssuming(T(), b, assumptions);
      CancelUntil(b);
      if old(Stock()) {
        StockCancel(old(O()), old(T()), b, O());
      }
    }

    /** The conflict has a single literal of its highest level: leaving that level makes it unit, nothing is learnt. */
    method LeaveLevel(confl: int, highest: nat)
      requires Located(confl, highest, true) && highest > 0
      modifies this`trail, this`trailLim, this`assigns, this`qhead, this`orderVsids, this`orderChb
      ensures Running() && |trailLim| == highest - 1 && (old(Stock()) ==> Stock())
      ensures highest <= |old(trailLim)| && T() == Backtracking.CancelUntil(old(T()), highest - 1)
    {
      hide Registered, InVars, Stamps, TrailStocked, Restocked, Base, Ready, Assuming, WatchInv, Consistent, Leveled,
          Fronted, RootFlags;
      FrontedBelow(confl, highest, true);
      CancelReady(S(), highest - 1);
      CancelAssuming(T(), highest - 1, assumptions);
      RootFlagsCancel(T(), highest - 1, seen);
      CancelUntil(highest - 1);
      if old(Stock()) {
        StockCancel(old(O()), old(T()), highest - 1, O());
      }
    }

    /** Below the level of the conflict everything is still propagated. */
    lemma FrontedBelow(confl: int, highest: nat, onlyOne: bool)
      requires Fronted(confl, highest, onlyOne) && highest > 0
      ensures Base(S()) && highest - 1 < |trailLim| && WatchInv(T(), ca, live, trailLim[highest - 1])
      ensures Consistent(T()) && Leveled(T())
    {
      hide WatchInv;
      BaseParts(S());
    }

    /** Analyses a conflict with two or more literals of its highest level, and exports what is learnt. */
    method LearnClause(confl: int, highest: nat, smallLbd: bool)
      returns (out: seq<Lit>, btLevel: nat, ghost uip: seq<Lit>)
      requires Located(confl, highest, false) && highest > 0
      modifies this`ca, this`seen, this`seen2, this`counter, this`exported
      ensures Analysing(S(), highest) && Leveled(T()) && Learnt(T(), formula, out, highest, btLevel)
      ensures Registered(clauses, learnts, live) && Stamps() && RootFlags(T(), seen) && Assuming(T(), assumptions)
      ensures SameArena(old(ca), ca) && 0 <= confl < |ca| && (old(Exports()) ==> Exports())
      ensures Analysed(T(), old(ca), live, old(ca)[confl], old(seen), highest, ccminMode, smallLbd, uip, out)
      ensures old(exported) <= exported <= old(exported) + {out}
    {
      hide Registered, InVars, Stamps, Ready, Assuming, Analysing, Learnt, RootFlags, RootOnly, Leveled, Fronted,
          SameArena, AllImportable, Analysed;
      StartLearning(confl, highest);
      RootFlagsLevel(T(), seen);
      out, btLevel, uip := Analyze(confl, highest, ccminMode, smallLbd);
      AnalysingLeveled(highest);
      RootFlagsFewer(T(), old(seen), seen);
      SameCount(old(ca), ca);
      var share := *;
      if share {
        ExportLearnt(out, highest, btLevel);
        exported := exported + {out};
      }
    }

    /** The solver has learnt from a conflict in c: the lesson is what analysis makes of it, and has been applied. */
    ghost predicate Learns(t0: Trail, ca0: seq<Clause>, live0: set<int>, seen0: set<Var>, learnts0: seq<int>, c: Clause,
                           level: nat, smallLbd: bool, lesson: Lesson)
      reads this`trail, this`trailLim, this`assigns, this`vardata, this`ca, this`learnts, this`formula, this`ccminMode
      reads this`conflToChrono, this`chrono, this`conflicts
    {
      && Learnt(t0, formula, lesson.out, level, lesson.btLevel) && SameArena(ca0, lesson.arena)
      && Analysed(t0, ca0, live0, c, seen0, level, ccminMode, smallLbd, lesson.uip, lesson.out)
      && HasLearnt(t0, lesson.arena, learnts0, lesson.out, level, lesson.btLevel)
    }

    /** Learns a clause from a conflict with two or more literals of its highest level, and backtracks. */
    method LearnFrom(confl: int, highest: nat, smallLbd: bool) returns (ghost lesson: Lesson)
      requires Located(confl, highest, false) && highest > 0
      modifies this`trail, this`trailLim, this`assigns, this`vardata, this`qhead, this`ca, this`live, this`watches
      modifies this`watchesBin, this`learnts, this`seen, this`seen2, this`counter, this`orderVsids, this`orderChb
      modifies this`exported
      ensures Running() && |vardata| == old(|vardata|) && |trailLim| < highest && (old(Stock()) ==> Stock())
      ensures 0 <= confl < |old(ca)|
      ensures Learns(old(T()), old(ca), old(live), old(seen), old(learnts), old(ca)[confl], highest, smallLbd, lesson)
      ensures (old(Exports()) ==> Exports()) && old(exported) <= exported <= old(exported) + {lesson.out}
    {
      hide Registered, InVars, Stamps, Stock, Ready, Assuming, Analysing, Learnt, RootFlags, RootOnly, Leveled,
          Fronted, SameArena, AllImportable, Analysed, HasLearnt;
      var out, btLevel;
      ghost var uip;
      out, btLevel, uip := LearnClause(confl, highest, smallLbd);
      SameCount(old(ca), ca);
      lesson := Lesson(uip, out, btLevel, ca);
      UseLearnt(out, highest, btLevel);
    }

    static lemma SameCount(ca: seq<Clause>, ca': seq<Clause>)
      requires SameArena(ca, ca')
      ensures |ca| == |ca'|
    {
    }

    /** The order of literals does not matter. */
    lemma LearnsSame(t0: Trail, ca0: seq<Clause>, ca1: seq<Clause>, live0: set<int>, seen0: set<Var>,
                     learnts0: seq<int>, confl: int, level: nat, smallLbd: bool, lesson: Lesson)
      requires SameArena(ca0, ca1) && 0 <= confl < |ca1| && 0 <= confl < |ca0|
      requires Learns(t0, ca1, live0, seen0, learnts0, ca1[confl], level, smallLbd, lesson)
      ensures Learns(t0, ca0, live0, seen0, learnts0, ca0[confl], level, smallLbd, lesson)
    {
      hide Learnt, Analysed, HasLearnt;
      assert SameLits(ca0[confl], ca1[confl]);
      AnalysedSame(t0, ca1, ca0, live0, ca1[confl], ca0[confl], seen0, level, ccminMode, smallLbd, lesson.uip,
                   lesson.out);
      SameArenaTrans(ca0, ca1, lesson.arena);
    }

    /** Whatever has been exported, any solver of the formula may import. */
    ghost predicate Exports()
      reads this`exported, this`formula, this`vardata
    {
      AllImportable(formula, |vardata|, exported)
    }

    lemma ExportLearnt(out: seq<Lit>, level: nat, btLevel: nat)
      requires Analysing(S(), level) && Learnt(T(), formula, out, level, btLevel)
      ensures Exports() ==> AllImportable(formula, |vardata|, exported + {out})
    {
      hide Learnt, Importable;
      AnalysingConsistent(level);
      LearntImportable(T(), formula, out, level, btLevel);
    }

    lemma AnalysingConsistent(level: nat)
      requires Analysing(S(), level)
      ensures Consistent(T())
    {
    }

    /** After a conflict of the given level on the trail t0, the solver has backtracked as the options say, and the
        learnt clause has implied its first literal: a unit at level 0, a longer clause at its own level, stored as the
        newest learnt clause and as the reason. */
    ghost predicate HasLearnt(t0: Trail, ca0: seq<Clause>, learnts0: seq<int>, out: Clause, level: nat, btLevel: nat)
      reads this`trail, this`trailLim, this`assigns, this`vardata, this`ca, this`learnts
      reads this`conflToChrono, this`chrono, this`conflicts
    {
      && level > 0 && out != [] && out[0].v < |t0.vardata|
      && var b := BacktrackTo(conflToChrono, chrono, conflicts, |t0.lim|, level, btLevel);
      && b < |t0.lim| && T() == LearntTrail(t0, out, btLevel, b, |ca0|)
      && (if |out| == 1 then ca == ca0 && learnts == learnts0 else ca == ca0 + [out] && learnts == learnts0 + [|ca0|])
    }

    /** Then the first literal is true, at the level of the clause. */
    lemma LearntHolds(t0: Trail, ca0: seq<Clause>, learnts0: seq<int>, out: Clause, level: nat, btLevel: nat)
      requires HasLearnt(t0, ca0, learnts0, out, level, btLevel)
      ensures True(out[0]) && Level(out[0].v) == if |out| == 1 then 0 else btLevel
      ensures Reason(out[0].v) == if |out| == 1 then UNDEF else |ca0|
      ensures |out| > 1 ==> |ca| > |ca0| && ca[|ca0|] == out && learnts == learnts0 + [|ca0|]
    {
      LearntTrue(t0, out, btLevel, BacktrackTo(conflToChrono, chrono, conflicts, |t0.lim|, level, btLevel), |ca0|);
      assert forall l: Lit :: T().True(l) == True(l);
    }

    /** Backtracks and adds the learnt clause. */
    method UseLearnt(out: seq<Lit>, level: nat, btLevel: nat)
      requires Analysing(S(), level) && Leveled(T()) && Learnt(T(), formula, out, level, btLevel)
      requires Registered(clauses, learnts, live) && Stamps() && RootFlags(T(), seen) && Assuming(T(), assumptions)
      requires InVars(assumptions, decision, |vardata|)
      modifies this`trail, this`trailLim, this`assigns, this`vardata, this`qhead, this`ca, this`live, this`watches
      modifies this`watchesBin, this`learnts, this`orderVsids, this`orderChb
      ensures Running() && |vardata| == old(|vardata|) && |trailLim| < level && (old(Stock()) ==> Stock())
      ensures HasLearnt(old(T()), old(ca), old(learnts), out, level, btLevel)
    {
      hide Registered, InVars, Stamps, Stock, Ready, Assuming, Analysing, Consistent, Learnt, UnitLearnt, RootFlags,
          Leveled;
      BacktrackLearnt(out, level, btLevel);
      RootFlagsCancel(old(T()), |trailLim|, seen);
      ghost var t := T();
      AddLearnt(out, btLevel);
      RootFlagsSame(t, T(), seen);
    }

    lemma StartLearning(confl: int, highest: nat)
      requires Located(confl, highest, false) && highest > 0
      ensures Analysing(S(), highest) && Leveled(T()) && confl in live && 0 <= confl < |ca| && T().AllFalse(ca[confl])
      ensures forall j :: 0 <= j < |ca[confl]| ==> Level(ca[confl][j].v) <= highest
      ensures exists j :: 0 <= j < |ca[confl]| && Level(ca[confl][j].v) == highest
    {
      hide Base, WatchInv, Analysing;
      StartAnalysing(S(), confl, highest);
      AnalysingLeveled(highest);
    }

    lemma AnalysingLeveled(level: nat)
      requires Analysing(S(), level)
      ensures Leveled(T())
    {
    }

    /** A conflict whose literal of the highest level has been moved to the front. */
    ghost predicate Located(confl: int, highest: nat, onlyOne: bool)
      reads this`trail, this`trailLim, this`assigns, this`vardata, this`ca, this`live, this`watches, this`watchesBin
      reads this`dirties, this`dirtiesBin, this`clauses, this`formula, this`learnts, this`seen
      reads this`seen2, this`counter, this`assumptions, this`decision
    {
      && Fronted(confl, highest, onlyOne) && dirties == {} && dirtiesBin == {}
      && Registered(clauses, learnts, live) && Stamps() && RootFlags(T(), seen) && Assuming(T(), assumptions)
      && InVars(assumptions, decision, |vardata|)
    }

    method Locate(confl: int, ghost bound: nat) returns (highest: nat, onlyOne: bool)
      requires InConflict(confl, bound)
      modifies this`ca, this`watches
      ensures Located(confl, highest, onlyOne) && highest <= |trailLim| && 0 <= confl < |old(ca)|
      ensures SameArena(old(ca), ca)
      ensures Highest(T(), old(ca)[confl], highest) && (onlyOne <==> AloneAt(T(), old(ca)[confl], highest))
    {
      hide Registered, InVars, Stamps, Base, Assuming, Conflicting, Fronted, RootFlags, SameArena, Highest, AloneAt;
      ConflictInside(confl, bound);
      highest, onlyOne := FindConflictLevel(confl, bound);
      FrontedTells(old(ca), confl, highest, onlyOne);
    }

    lemma ConflictInside(confl: int, bound: nat)
      requires InConflict(confl, bound)
      ensures 0 <= confl < |ca|
    {
    }

    lemma FrontedTells(ca0: seq<Clause>, confl: int, highest: nat, onlyOne: bool)
      requires Fronted(confl, highest, onlyOne) && SameArena(ca0, ca) && 0 <= confl < |ca0|
      ensures Highest(T(), ca0[confl], highest) && (onlyOne <==> AloneAt(T(), ca0[confl], highest))
    {
      hide Base, WatchInv;
      LiveDistinct(S(), confl);
      FrontTells(T(), ca0[confl], ca[confl], highest, onlyOne);
    }

    /** One conflict of the search. If its highest level is 0 the formula is refuted. If it has a single literal of that
        level, the solver leaves the level. Otherwise it learns a clause, backtracks, and lets the clause imply its
        first literal. */
    method HandleConflict(confl: int, ghost bound: nat, smallLbd: bool)
      returns (refuted: bool, ghost highest: nat, ghost lesson: Lesson)
      requires InConflict(confl, bound)
      modifies this`trail, this`trailLim, this`assigns, this`vardata, this`qhead, this`ca, this`live, this`watches
      modifies this`watchesBin, this`learnts, this`seen, this`seen2, this`counter, this`conflicts, this`orderVsids
      modifies this`orderChb, this`exported
      ensures |vardata| == old(|vardata|) && (old(Exports()) ==> Exports()) && conflicts == old(conflicts) + 1
      ensures 0 <= confl < |old(ca)| && Highest(old(T()), old(ca)[confl], highest) && (refuted <==> highest == 0)
      ensures refuted ==> Hopeless()
      ensures !refuted ==> Running() && |trailLim| < old(|trailLim|) && (old(Stock()) ==> Stock())
      ensures !refuted && AloneAt(old(T()), old(ca)[confl], highest) ==>
                highest <= |old(trailLim)| && T() == Backtracking.CancelUntil(old(T()), highest - 1)
                && SameArena(old(ca), ca) && learnts == old(learnts)
      ensures old(exported) <= exported <= old(exported) + {lesson.out}
      ensures refuted || AloneAt(old(T()), old(ca)[confl], highest) ==> exported == old(exported)
      ensures !refuted && !AloneAt(old(T()), old(ca)[confl], highest) ==>
                Learns(old(T()), old(ca), old(live), old(seen), old(learnts), old(ca)[confl], highest, smallLbd, lesson)
    {
      hide InConflict, Located, Running, Stock, Hopeless, AllImportable, SameArena, Highest, AloneAt, Learns;
      conflicts := conflicts + 1;
      var level, onlyOne := Locate(confl, bound);
      highest := level;
      refuted := level == 0;
      lesson := Lesson([], [], 0, ca);
      ghost var ca1 := ca;
      if level == 0 {
        FrontedRoot(confl, onlyOne);
      } else if onlyOne {
        LeaveLevel(confl, level);
      } else {
        lesson := LearnFrom(confl, level, smallLbd);
        LearnsSame(old(T()), old(ca), ca1, old(live), old(seen), old(learnts), confl, level, smallLbd, lesson);
      }
    }

    lemma FrontedRoot(confl: int, onlyOne: bool)
      requires Located(confl, 0, onlyOne)
      ensures Hopeless()
    {
      RootRefuted(S(), confl);
    }

    // ---------- Forgetting clauses ----------

    /** If the clause is the reason of a literal, of level 0, that literal loses its reason. */
    method FreeReason(cr: int)
      requires Valid() && cr in live && 0 <= cr < |ca| && |ca[cr]| >= 2 && Assuming(T(), assumptions)
      requires Locked(T(), ca[cr], cr) ==> Level(ImpliedOf(T(), ca[cr]).v) == 0
      modifies this`vardata
      ensures Valid() && Assuming(T(), assumptions) && |vardata| == old(|vardata|) && (old(Stock()) ==> Stock())
      ensures !Locked(old(T()), ca[cr], cr) ==> vardata == old(vardata)
      ensures forall i :: 0 <= i < |trail| ==> T().Reason(trail[i].v) != cr
      ensures RootSatisfied(old(T()), ca[cr]) ==> RootSatisfied(T(), ca[cr])
    {
      hide Registered, InVars, Stamps, Ready, Assuming, RootSatisfied, TrailStocked, Locked, ImpliedOf;
      ReasonFreed(S(), qhead, cr, assumptions);
      var t := Trail(trail, trailLim, assigns, vardata);
      if Locked(t, ca[cr], cr) {
        var implied := ImpliedOf(t, ca[cr]).v;
        vardata := vardata[implied := VarData(UNDEF, vardata[implied].level)];
        StockSame(O(), old(T()), T());
      }
    }

    /** Takes a clause out of use; its watchers stay until their lists are cleaned. */
    method Smudge(cr: int)
      requires 0 <= cr < |ca| && |ca[cr]| >= 2
      modifies this`live, this`dirties, this`dirtiesBin
      ensures S().(problem := S().problem - {cr}) == Removed(old(S()), cr) && live == old(live) - {cr}
    {
      var c := ca[cr];
      if |c| == 2 {
        dirtiesBin := dirtiesBin + {Neg(c[0]), Neg(c[1])};
      } else {
        dirties := dirties + {Neg(c[0]), Neg(c[1])};
      }
      live := live - {cr};
    }

    /** Marks a clause as removed. A literal of level 0 that the clause implies loses its reason. */
    method RemoveClause(cr: int)
      requires Valid() && cr in live && 0 <= cr < |ca| && |ca[cr]| >= 2 && Assuming(T(), assumptions)
      requires cr in clauses ==> RootSatisfied(T(), ca[cr])
      requires Locked(T(), ca[cr], cr) ==> Level(ImpliedOf(T(), ca[cr]).v) == 0
      modifies this`live, this`dirties, this`dirtiesBin, this`vardata
      ensures Ready(S().(problem := S().problem - {cr}), qhead) && live == old(live) - {cr}
      ensures !Locked(old(T()), ca[cr], cr) ==> vardata == old(vardata)
      ensures Assuming(T(), assumptions) && |vardata| == old(|vardata|) && (old(Stock()) ==> Stock())
    {
      hide Registered, InVars, Stamps, Ready, Assuming, RootSatisfied, TrailStocked, Locked, ImpliedOf, Removed;
      FreeReason(cr);
      RemovedReady(S(), qhead, cr);
      Smudge(cr);
    }

    ghost predicate SomeTrue(c: Clause)
      reads this`assigns
    {
      exists l :: l in c && True(l)
    }

    method Satisfied(c: Clause) returns (r: bool)
      ensures r <==> SomeTrue(c)
    {
      var i := 0;
      while i < |c|
        invariant forall k :: 0 <= k < i && k < |c| ==> !True(c[k])
      {
        if True(c[i]) {
          return true;
        }
        i := i + 1;
      }
      return false;
    }

    /** At level 0, removes the problem clauses that are satisfied. */
    method RemoveSatisfied()
      requires Running() && |trailLim| == 0
      modifies this`live, this`dirties, this`dirtiesBin, this`vardata, this`clauses
      ensures Running() && |trailLim| == 0 && |vardata| == old(|vardata|)
      ensures forall k :: 0 <= k < |clauses| ==> 0 <= clauses[k] < |ca| && !SomeTrue(ca[clauses[k]])
      ensures forall cr :: cr in old(clauses) && cr !in clauses ==> 0 <= cr < |ca| && SomeTrue(ca[cr])
    {
      hide Running;
      var i := 0;
      while i < |clauses|
        invariant Running() && |trailLim| == 0 && |vardata| == old(|vardata|)
        invariant forall k :: 0 <= k < i && k < |clauses| ==> 0 <= clauses[k] < |ca| && !SomeTrue(ca[clauses[k]])
        invariant forall cr :: cr in old(clauses) && cr !in clauses ==> 0 <= cr < |ca| && SomeTrue(ca[cr])
        decreases |clauses| - i
      {
        RefsInside();
        var sat := Satisfied(ca[clauses[i]]);
        if sat {
          DropClause(i);
        } else {
          i := i + 1;
        }
      }
    }

    lemma RefsInside()
      requires Running()
      ensures forall i :: 0 <= i < |clauses| ==> clauses[i] in live && 0 <= clauses[i] < |ca|
      ensures forall i :: 0 <= i < |learnts| ==> learnts[i] in live && 0 <= learnts[i] < |ca| && |ca[learnts[i]]| >= 2
    {
      forall i | 0 <= i < |clauses|
        ensures clauses[i] in live && 0 <= clauses[i] < |ca|
      {
        StoredClause(S(), qhead, clauses[i]);
      }
      forall i | 0 <= i < |learnts|
        ensures learnts[i] in live && 0 <= learnts[i] < |ca| && |ca[learnts[i]]| >= 2
      {
        StoredClause(S(), qhead, learnts[i]);
      }
    }

    /** Removes a problem clause that level 0 satisfies. */
    method DropClause(i: nat)
      requires Running() && |trailLim| == 0 && i < |clauses| && 0 <= clauses[i] < |ca|
      requires SomeTrue(ca[clauses[i]])
      modifies this`live, this`dirties, this`dirtiesBin, this`vardata, this`clauses
      ensures Running() && |vardata| == old(|vardata|) && clauses == old(clauses)[..i] + old(clauses)[i + 1..]
    {
      hide Ready, Assuming, RootSatisfied, RootFlags, Stamps, TrailStocked, Registered, InVars, Locked, ImpliedOf;
      var cr := clauses[i];
      StoredClause(S(), qhead, cr);
      SatisfiedAtRoot(S(), qhead, cr);
      RemoveClause(cr);
      RootFlagsSame(old(T()), T(), seen);
      DropClauseRegistered(clauses, learnts, old(live), i);
      clauses := clauses[..i] + clauses[i + 1..];
    }

    /** The clause is the reason of nothing. */
    ghost predicate UnlockedClause(cr: int)
      reads this`trail, this`trailLim, this`assigns, this`vardata, this`ca
    {
      0 <= cr < |ca| && |ca[cr]| >= 2 && !Locked(T(), ca[cr], cr)
    }

    /** Removes some learnt clauses that are not reasons. */
    method ReduceDB()
      requires Running()
      modifies this`live, this`dirties, this`dirtiesBin, this`vardata, this`learnts
      ensures Running() && T() == old(T()) && (old(Stock()) ==> Stock())
      ensures forall cr :: cr in old(learnts) && cr !in learnts ==> UnlockedClause(cr)
    {
      hide Running, TrailStocked, Locked;
      var i := 0;
      while i < |learnts|
        invariant Running() && T() == old(T()) && (old(Stock()) ==> Stock())
        invariant forall cr :: cr in old(learnts) && cr !in learnts ==> UnlockedClause(cr)
        decreases |learnts| - i
      {
        RefsInside();
        var cr := learnts[i];
        var unwanted := *;
        if unwanted && !Locked(Trail(trail, trailLim, assigns, vardata), ca[cr], cr) {
          DropLearnt(i);
        } else {
          i := i + 1;
        }
      }
    }

    /** At level 0, removes the learnt clauses that are satisfied, reasons or not. */
    method RemoveSatisfiedLearnts()
      requires Running() && |trailLim| == 0
      modifies this`live, this`dirties, this`dirtiesBin, this`vardata, this`learnts
      ensures Running() && |trailLim| == 0 && |vardata| == old(|vardata|)
      ensures forall k :: 0 <= k < |learnts| ==> 0 <= learnts[k] < |ca| && !SomeTrue(ca[learnts[k]])
      ensures forall cr :: cr in old(learnts) && cr !in learnts ==> 0 <= cr < |ca| && SomeTrue(ca[cr])
    {
      hide Running;
      var i := 0;
      while i < |learnts|
        invariant Running() && |trailLim| == 0 && |vardata| == old(|vardata|)
        invariant forall k :: 0 <= k < i && k < |learnts| ==> 0 <= learnts[k] < |ca| && !SomeTrue(ca[learnts[k]])
        invariant forall cr :: cr in old(learnts) && cr !in learnts ==> 0 <= cr < |ca| && SomeTrue(ca[cr])
        decreases |learnts| - i
      {
        RefsInside();
        var sat := Satisfied(ca[learnts[i]]);
        if sat {
          DropLearnt(i);
        } else {
          i := i + 1;
        }
      }
    }

    /** Removes a learnt clause that is no reason, or that level 0 satisfies. */
    method DropLearnt(i: nat)
      requires Running() && i < |learnts| && 0 <= learnts[i] < |ca|
      requires !Locked(T(), ca[learnts[i]], learnts[i]) || (|trailLim| == 0 && SomeTrue(ca[learnts[i]]))
      modifies this`live, this`dirties, this`dirtiesBin, this`vardata, this`learnts
      ensures Running() && |vardata| == old(|vardata|) && learnts == old(learnts)[..i] + old(learnts)[i + 1..]
      ensures old(Stock()) ==> Stock()
      ensures !Locked(old(T()), ca[old(learnts[i])], old(learnts[i])) ==> vardata == old(vardata)
    {
      hide Ready, Assuming, RootSatisfied, RootFlags, Stamps, TrailStocked, Registered, InVars, Locked, ImpliedOf;
      var cr := learnts[i];
      DropLearntRegistered(clauses, learnts, live, i);
      StoredClause(S(), qhead, cr);
      if Locked(Trail(trail, trailLim, assigns, vardata), ca[cr], cr) {
        SatisfiedAtRoot(S(), qhead, cr);
      }
      RemoveClause(cr);
      RootFlagsSame(old(T()), T(), seen);
      learnts := learnts[..i] + learnts[i + 1..];
    }

    // ---------- search and solve_ ----------

    /** Opens a decision level and enqueues its decision. */
    method Decide(next: Lit)
      requires Running() && qhead == |trail| && next.v < |vardata| && next.v !in assigns
      requires |trailLim| < |assumptions| ==> next == assumptions[|trailLim|]
      modifies this`trailLim, this`trail, this`assigns, this`vardata
      ensures Running() && |vardata| == old(|vardata|)
      ensures next.v < |old(vardata)| && T() == Enqueue(NewLevel(old(T())), next, |old(trailLim)| + 1, UNDEF)
    {
      hide Registered, InVars, Stamps, Ready, Assuming, Enqueue;
      DecideAll(S(), next, assumptions);
      NewDecisionLevel();
      UncheckedEnqueue(next, |trailLim|, UNDEF);
    }

    /** Gives the assumptions their turn: each opens a level, true ones a dummy one; stops at the first that is
        undefined, to decide on it, or false, having analysed why. */
    method NextAssumption() returns (next: Choice, failed: bool)
      requires Running() && qhead == |trail| && conflict == []
      modifies this`trailLim, this`conflict, this`seen
      ensures Running() && qhead == |trail|
      ensures next.Chosen? ==> !failed && next.lit.v < |vardata| && next.lit.v !in assigns
                               && |trailLim| < |assumptions| && next.lit == assumptions[|trailLim|]
      ensures next.Nothing? && !failed ==> |trailLim| >= |assumptions|
      ensures !failed ==> conflict == []
      ensures failed ==> FinalConflictOk() && |trailLim| < |assumptions| && conflict[0] == Neg(assumptions[|trailLim|])
      ensures old(trailLim) <= trailLim
      ensures forall k :: |old(trailLim)| <= k < |trailLim| && k < |assumptions| ==>
                trailLim[k] == |trail| && True(assumptions[k])
    {
      hide Registered, Stamps, Ready, Assuming, Decided;
      next, failed := Nothing, false;
      while |trailLim| < |assumptions|
        invariant Running() && qhead == |trail| && conflict == []
        invariant old(trailLim) <= trailLim
        invariant forall k :: |old(trailLim)| <= k < |trailLim| && k < |assumptions| ==>
                    trailLim[k] == |trail| && True(assumptions[k])
        decreases |assumptions| - |trailLim|
      {
        var p := assumptions[|trailLim|];
        assert p in assumptions;
        if True(p) {
          DummyLevel(S(), assumptions);
          NewDecisionLevel();
        } else if False(p) {
          AssumingParts(T(), assumptions);
          assert Neg(Neg(p)) == p;
          AnalyzeFinal(Neg(p));
          return Nothing, true;
        } else {
          return Chosen(p), false;
        }
      }
    }

    /** Under the assumptions the formula is refuted, by an entailed clause of negated assumptions, those on which the
        falsified one rests; a late root unit brings in the assumption it falsifies besides. */
    ghost predicate FinalConflictOk()
      reads this`conflict, this`formula, this`assumptions, this`assigns, this`trail, this`trailLim, this`vardata
      reads this`ca
    {
      && conflict != [] && conflict == FinalOf(T(), ca, conflict[0])
      && Entails(formula, conflict) && Neg(conflict[0]) in assumptions && True(conflict[0])
      && (forall l :: l in conflict ==> Neg(l) in assumptions || (l == Neg(conflict[0])
                                                                  && LateRootUnit(T(), conflict[0])))
      && (LateRootUnit(T(), conflict[0]) ==> Neg(conflict[0]) in conflict)
    }

    /** Takes variables off the heap in use until one can be decided on, with any sign. Nothing, and with it the answer
        l_True, means that the heap holds no unassigned decision variable; so the assignment is complete exactly if
        the heap lacked none. */
    method PickBranchLit() returns (next: Choice)
      modifies this`orderVsids, this`orderChb
      ensures O() == old(O()).WithActive(O().Active())
      ensures next.Chosen? ==> next.lit.v in old(O()).Active() && next.lit.v in decision && next.lit.v !in assigns
      ensures forall v :: v in old(O()).Active() && v !in O().Active() ==>
                v !in decision || v in assigns || (next.Chosen? && v == next.lit.v)
      ensures next.Nothing? <==> forall v :: v in old(O()).Active() && v in decision ==> v in assigns
      ensures next.Nothing? ==> O().Active() == {} && (decision <= assigns.Keys <==> HeapFull(old(O()), assigns.Keys))
    {
      var sign := *;
      next := Nothing;
      while next.Nothing? && O().Active() != {}
        invariant O() == old(O()).WithActive(O().Active()) && O().Active() <= old(O()).Active()
        invariant forall v :: v in old(O()).Active() && v !in O().Active() ==>
                    v !in decision || v in assigns || (next.Chosen? && v == next.lit.v)
        invariant next.Chosen? ==> next.lit.v in old(O()).Active() && next.lit.v in decision && next.lit.v !in assigns
        decreases next.Nothing?, O().Active()
      {
        var v := RemoveMin();
        if v in decision && v !in assigns {
          next := Chosen(Lit(v, sign));
        }
      }
      if next.Nothing? {
        NothingExact(old(O()), assigns.Keys);
      }
    }

    /** Takes some variable off the heap in use; which one is up to the activities. */
    method RemoveMin() returns (v: Var)
      requires O().Active() != {}
      modifies this`orderVsids, this`orderChb
      ensures v in old(O()).Active() && O() == old(O()).WithActive(old(O()).Active() - {v})
    {
      if vsids {
        v :| v in orderVsids;
        orderVsids := orderVsids - {v};
      } else {
        v :| v in orderChb;
        orderChb := orderChb - {v};
      }
    }

    /** Both heaps get exactly the unassigned decision variables. */
    method RebuildOrderHeap()
      modifies this`orderVsids, this`orderChb
      ensures O() == old(O()).Rebuilt(assigns.Keys)
    {
      orderChb := decision - assigns.Keys;
      orderVsids := decision - assigns.Keys;
    }

    /** Simplification of the database at level 0, unless nothing has been assigned there since the last time or too
        little has been propagated. Otherwise the order heaps are rebuilt. */
    method Simplify() returns (fine: bool)
      requires Idle()
      modifies this`ca, this`watches, this`watchesBin, this`dirties, this`dirtiesBin, this`trail, this`assigns
      modifies this`vardata
      modifies this`qhead, this`live, this`clauses, this`learnts, this`simpDbAssigns, this`simpDbProps
      modifies this`orderVsids, this`orderChb
      ensures |vardata| == old(|vardata|) && (if fine then Idle() && (old(Stock()) ==> Stock()) else Hopeless())
      ensures fine ==> if simpDbAssigns == old(simpDbAssigns) then O() == old(O())
                       else simpDbAssigns == |trail| && O() == old(O()).Rebuilt(assigns.Keys)
    {
      hide Running, Base, InConflict, Extends, Stock, Hopeless;
      var confl, bound := PropagateRunning();
      if confl != UNDEF {
        RootConflicts(confl, bound);
        return false;
      }
      if |trail| != simpDbAssigns && simpDbProps <= 0 {
        Housekeep();
      }
      return true;
    }

    /** Removes the satisfied clauses, those of the problem only if the option says so. */
    method ForgetSatisfied()
      requires Idle()
      modifies this`vardata, this`live, this`dirties, this`dirtiesBin, this`clauses, this`learnts
      ensures Idle() && |vardata| == old(|vardata|)
      ensures forall k :: 0 <= k < |learnts| ==> 0 <= learnts[k] < |ca| && !SomeTrue(ca[learnts[k]])
      ensures forall cr :: cr in old(learnts) && cr !in learnts ==> 0 <= cr < |ca| && SomeTrue(ca[cr])
      ensures forall cr :: cr in old(clauses) && cr !in clauses ==> 0 <= cr < |ca| && SomeTrue(ca[cr])
    {
      hide Running, Stock;
      RemoveSatisfiedLearnts();
      var removeSatisfied := *;
      if removeSatisfied {
        RemoveSatisfied();
      }
    }

    /** Removes satisfied clauses and rebuilds the order heaps. */
    method Housekeep()
      requires Idle()
      modifies this`vardata, this`live, this`dirties, this`dirtiesBin, this`clauses, this`learnts
      modifies this`simpDbAssigns, this`simpDbProps, this`orderVsids, this`orderChb
      ensures Idle() && Stock() && |vardata| == old(|vardata|)
      ensures simpDbAssigns == |trail| && O() == old(O()).Rebuilt(assigns.Keys)
    {
      hide Running, Stock, BothFull;
      ForgetSatisfied();
      RebuildOrderHeap();
      RebuiltFull(old(O()), assigns.Keys);
      RootStock();
      simpDbAssigns := |trail|;
      var literals: nat := *;
      simpDbProps := literals;
    }

    /** At level 0 both heaps lack assigned variables only. */
    lemma RootStock()
      requires Running() && |trailLim| == 0
      ensures Stock() <==> BothFull(O(), assigns.Keys)
    {
      hide Registered, InVars, Stamps, Ready, Assuming;
      RunningReady();
      ReadyTrail(S(), qhead);
      RootBottom(T());
    }

    /** Propagation within the search. */
    method PropagateRunning() returns (confl: int, ghost bound: nat)
      requires Running()
      modifies this`ca, this`watches, this`watchesBin, this`dirties, this`dirtiesBin
      modifies this`trail, this`assigns, this`vardata, this`qhead, this`simpDbProps
      ensures |vardata| == old(|vardata|) && old(assigns).Keys <= assigns.Keys
      ensures Extends(old(T()), T()) && (old(Stock()) ==> Stock())
      ensures confl == UNDEF ==>
                Running() && qhead == |trail| && simpDbProps == old(simpDbProps) - (|trail| - old(qhead))
      ensures SameArena(old(ca), ca)
      ensures confl != UNDEF ==> InConflict(confl, bound) && trailLim == old(trailLim)
    {
      hide Running, InConflict, TrailStocked, SameArena;
      var numProps;
      confl, bound, numProps := PropagateKeeping();
      simpDbProps := simpDbProps - numProps;
      if old(Stock()) {
        StockExtends(O(), old(T()), T());
      }
    }

    method PropagateKeeping() returns (confl: int, ghost bound: nat, numProps: nat)
      requires Running()
      modifies this`ca, this`watches, this`watchesBin, this`dirties, this`dirtiesBin
      modifies this`trail, this`assigns, this`vardata, this`qhead
      ensures Extends(old(T()), T()) && |vardata| == old(|vardata|)
      ensures confl == UNDEF ==> Running() && qhead == |trail| && numProps == |trail| - old(qhead)
      ensures SameArena(old(ca), ca)
      ensures confl != UNDEF ==> InConflict(confl, bound) && trailLim == old(trailLim)
    {
      hide Registered, InVars, Stamps, Ready, Assuming, Base, Conflicting, Extends, Consistent, RootFlags, SameArena;
      ReadyParts(S(), qhead);
      confl, bound, numProps := Propagate();
      ExtendsAssuming(old(T()), T(), assumptions);
      RootFlagsExtends(old(T()), T(), seen);
    }

    /** The formula itself is refuted. */
    ghost predicate Refuted()
      reads this`trail, this`trailLim, this`assigns, this`vardata, this`ca, this`live, this`watches, this`watchesBin
      reads this`dirties, this`dirtiesBin, this`clauses, this`formula, this`conflict
    {
      conflict == [] && Hopeless()
    }

    /** When the search answers l_True: all is propagated and every assumption has had its turn. */
    ghost predicate Exhausted()
      reads this`trail, this`trailLim, this`assigns, this`vardata, this`ca, this`live, this`watches, this`watchesBin
      reads this`dirties, this`dirtiesBin, this`clauses, this`formula, this`qhead, this`learnts, this`seen
      reads this`seen2, this`counter, this`assumptions, this`decision, this`conflict
    {
      Running() && qhead == |trail| && |trailLim| >= |assumptions| && conflict == []
    }

    /** Then the assumptions hold, and if every variable is assigned the trail is a model of the formula. */
    lemma TrailIsModel()
      requires Exhausted()
      ensures AllHold(ModelOf(assigns), assumptions)
      ensures (forall v: Var :: v < |vardata| ==> v in assigns) ==> Models(ModelOf(assigns), formula)
    {
      hide Base, WatchInv, Decided;
      if forall v: Var :: v < |vardata| ==> v in assigns {
        FullModel(S());
      }
      forall p | p in assumptions
        ensures Holds(ModelOf(assigns), p)
      {
        var k :| 0 <= k < |assumptions| && assumptions[k] == p;
        assert T().True(assumptions[k]);
      }
    }

    /** A step without conflict: housekeeping, then the next assumption or decision. */
    method Extend() returns (verdict: Status)
      requires Running() && qhead == |trail| && conflict == []
      modifies this`trail, this`trailLim, this`assigns, this`vardata, this`qhead, this`ca, this`live, this`watches
      modifies this`watchesBin, this`dirties, this`dirtiesBin, this`learnts, this`clauses, this`seen, this`conflict
      modifies this`simpDbAssigns, this`simpDbProps, this`orderVsids, this`orderChb
      ensures |vardata| == old(|vardata|) && (old(Stock()) && (verdict != LFalse || conflict != []) ==> Stock())
      ensures verdict == LTrue ==> Exhausted() && O().Active() == {} && (old(Stock()) ==> decision <= assigns.Keys)
      ensures verdict == LFalse ==> Refuted() || (Running() && FinalConflictOk())
      ensures verdict == LUndef ==> Running() && conflict == [] && JustDecided() && |trailLim| > |old(trailLim)|
    {
      hide Running, FinalConflictOk, Base, TrailStocked, Hopeless, HeapFull, JustDecided;
      if |trailLim| == 0 {
        var fine := Simplify();
        if !fine {
          return LFalse;
        }
      }
      var reduce := *;
      if reduce {
        ReduceDB();
      }
      ghost var t := T();
      var next, failed := NextAssumption();
      StockSame(O(), t, T());
      if failed {
        return LFalse;
      }
      verdict := Branch(next);
    }

    /** The newest literal is the decision of the newest level, an assumption if it is the turn of one. */
    ghost predicate JustDecided()
      reads this`trail, this`trailLim, this`assigns, this`vardata, this`assumptions
    {
      && trail != [] && trailLim != [] && trailLim[|trailLim| - 1] == |trail| - 1 && True(trail[|trail| - 1])
      && Newest().v < |vardata| && Level(Newest().v) == |trailLim| && Reason(Newest().v) == UNDEF
      && (|trailLim| <= |assumptions| ==> Newest() == assumptions[|trailLim| - 1])
    }

    ghost function Newest(): Lit
      reads this`trail
    {
      if trail == [] then Lit(0, false) else trail[|trail| - 1]
    }

    /** Decides on the assumption whose turn it is, or on a variable taken off the heap. */
    method Branch(assumed: Choice) returns (verdict: Status)
      requires Running() && qhead == |trail| && conflict == []
      requires assumed.Chosen? ==> assumed.lit.v < |vardata| && assumed.lit.v !in assigns
                                   && |trailLim| < |assumptions| && assumed.lit == assumptions[|trailLim|]
      requires assumed.Nothing? ==> |trailLim| >= |assumptions|
      modifies this`trail, this`trailLim, this`assigns, this`vardata, this`orderVsids, this`orderChb
      ensures |vardata| == old(|vardata|) && (old(Stock()) ==> Stock()) && (verdict == LTrue || verdict == LUndef)
      ensures verdict == LTrue <==> assumed.Nothing? && forall v :: v in old(O()).Active() && v in decision ==>
                v in old(assigns)
      ensures verdict == LTrue ==> Exhausted() && O().Active() == {} && T() == old(T())
      ensures verdict == LTrue ==> (decision <= assigns.Keys <==> HeapFull(old(O()), assigns.Keys))
      ensures verdict == LTrue && old(Stock()) ==> decision <= assigns.Keys
      ensures verdict == LUndef ==>
                Running() && JustDecided() && T() == Enqueue(NewLevel(old(T())), Newest(), |trailLim|, UNDEF)
      ensures verdict == LUndef && assumed.Chosen? ==> Newest() == assumed.lit
      ensures verdict == LUndef && assumed.Nothing? ==> Newest().v in old(O()).Active() && Newest().v in decision
    {
      hide Running, TrailStocked, Restocked, HeapFull;
      var next := assumed;
      if assumed.Nothing? {
        next := PickBranchLit();
        if next.Nothing? {
          if old(Stock()) {
            StockPick(old(O()), O(), T());
            StockHeap(old(O()), T());
          }
          return LTrue;
        }
      }
      DecisionVars();
      Decide(next.lit);
      assert True(next.lit);
      if old(Stock()) {
        StockDecide(old(O()), O(), old(T()), next.lit);
      }
      verdict := LUndef;
    }

    lemma DecisionVars()
      requires Running()
      ensures forall v :: v in decision ==> v < |vardata|
    {
    }

    /** Back to level 0. */
    method Restart()
      requires Running()
      modifies this`trail, this`trailLim, this`assigns, this`qhead, this`orderVsids, this`orderChb
      ensures Running() && |trailLim| == 0 && (old(Stock()) ==> Stock())
      ensures T() == if |old(trailLim)| > 0 then Backtracking.CancelUntil(old(T()), 0) else old(T())
      ensures O() == old(O()).WithActive(O().Active())
    {
      hide Registered, InVars, Stamps, Ready, Assuming, Consistent, Leveled, TrailStocked, Restocked;
      ReadyParts(S(), qhead);
      if |trailLim| > 0 {
        ReadyCancel(S(), qhead, 0);
        CancelAssuming(T(), 0, assumptions);
        RootFlagsCancel(T(), 0, seen);
        CancelUntil(0);
        RestockedOther(old(O()), old(assigns).Keys, assigns.Keys, O());
        if old(Stock()) {
          StockCancel(old(O()), old(T()), 0, O());
        }
      }
    }

    /** Searches until a verdict, a restart, or an interruption after the given number of steps. Only an interruption
        leaves the search above level 0. */
    method Search(steps: nat, pool: Pool) returns (status: Status, interrupted: bool)
      requires Running() && |trailLim| == 0 && conflict == [] && pool.Sound(formula, |vardata|)
      modifies this`trail, this`trailLim, this`assigns, this`vardata, this`qhead, this`ca, this`live, this`watches
      modifies this`watchesBin, this`dirties, this`dirtiesBin, this`learnts, this`clauses, this`seen, this`seen2
      modifies this`counter, this`conflict, this`conflicts, this`simpDbAssigns, this`simpDbProps, this`orderVsids
      modifies this`orderChb, this`exported, this`starts, this`turns
      ensures |vardata| == old(|vardata|) && (old(Exports()) ==> Exports()) && starts == old(starts) + 1
      ensures old(Stock()) && (status != LFalse || conflict != []) ==> Stock()
      ensures status == LTrue ==> Exhausted() && O().Active() == {} && (old(Stock()) ==> decision <= assigns.Keys)
      ensures status == LFalse ==> Refuted() || (Running() && FinalConflictOk())
      ensures status == LUndef ==> Running() && conflict == [] && (!interrupted ==> |trailLim| == 0)
      ensures old(turns) <= turns <= old(turns) + steps && (interrupted ==> turns == old(turns) + steps)
    {
      hide Running, Base, Exhausted, FinalConflictOk, InConflict, Extends, Stock, Hopeless, Importable, AllImportable,
          JustDecided;
      starts := starts + 1;
      var due := *;
      if due {
        var fine := SimplifyAll();
        if !fine {
          return LFalse, false;
        }
      }
      var left := steps;
      while left > 0
        invariant Running() && conflict == [] && (old(Stock()) ==> Stock())
        invariant |vardata| == old(|vardata|) && (old(Exports()) ==> Exports())
        invariant starts == old(starts) + 1 && 0 <= left <= steps && turns == old(turns) + steps - left
      {
        left := left - 1;
        var restarted;
        status, restarted := SearchStep(pool);
        if status != LUndef || restarted {
          return status, false;
        }
      }
      return LUndef, true;
    }

    /** One turn of the loop of search: at level 0 clauses are imported; then propagation and a conflict, a restart,
        or a decision. */
    method SearchStep(pool: Pool) returns (status: Status, restarted: bool)
      requires Running() && conflict == [] && pool.Sound(formula, |vardata|)
      modifies this`trail, this`trailLim, this`assigns, this`vardata, this`qhead, this`ca, this`live, this`watches
      modifies this`watchesBin, this`dirties, this`dirtiesBin, this`learnts, this`clauses, this`seen, this`seen2
      modifies this`counter, this`conflict, this`conflicts, this`simpDbAssigns, this`simpDbProps, this`orderVsids
      modifies this`orderChb, this`exported, this`turns
      ensures turns == old(turns) + 1 && |vardata| == old(|vardata|) && (old(Exports()) ==> Exports())
      ensures old(Stock()) && (status != LFalse || conflict != []) ==> Stock()
      ensures status == LTrue ==> Exhausted() && O().Active() == {} && (old(Stock()) ==> decision <= assigns.Keys)
      ensures status == LFalse ==> Refuted() || (Running() && FinalConflictOk())
      ensures status == LUndef ==> Running() && conflict == [] && (restarted ==> |trailLim| == 0)
      ensures status == LUndef && !restarted ==>
                conflicts == old(conflicts) + 1 || (JustDecided() && |trailLim| > |old(trailLim)|)
    {
      hide Running, Base, Exhausted, FinalConflictOk, InConflict, Extends, Stock, Hopeless, Importable, AllImportable,
          JustDecided;
      turns := turns + 1;
      if |trailLim| == 0 {
        var fine := Import(pool);
        if !fine {
          return LFalse, false;
        }
      }
      status, restarted := Advance();
    }

    /** Propagation, then a conflict, a restart, or a decision. */
    method Advance() returns (status: Status, restarted: bool)
      requires Running() && conflict == []
      modifies this`trail, this`trailLim, this`assigns, this`vardata, this`qhead, this`ca, this`live, this`watches
      modifies this`watchesBin, this`dirties, this`dirtiesBin, this`learnts, this`clauses, this`seen, this`seen2
      modifies this`counter, this`conflict, this`conflicts, this`simpDbAssigns, this`simpDbProps, this`orderVsids
      modifies this`orderChb, this`exported
      ensures |vardata| == old(|vardata|) && (old(Exports()) ==> Exports())
      ensures old(Stock()) && (status != LFalse || conflict != []) ==> Stock()
      ensures status == LTrue ==> Exhausted() && O().Active() == {} && (old(Stock()) ==> decision <= assigns.Keys)
      ensures status == LFalse ==> Refuted() || (Running() && FinalConflictOk())
      ensures status == LUndef ==> Running() && conflict == [] && (restarted ==> |trailLim| == 0)
      ensures status == LUndef && !restarted ==>
                conflicts == old(conflicts) + 1 || (JustDecided() && |trailLim| > |old(trailLim)|)
    {
      hide Running, Base, Exhausted, FinalConflictOk, InConflict, Extends, Stock, Hopeless, AllImportable, JustDecided,
          Learns, Highest, AloneAt;
      status, restarted := LUndef, false;
      var confl, bound := PropagateRunning();
      if confl != UNDEF {
        var smallLbd := *;
        var refuted;
        ghost var highest, lesson;
        refuted, highest, lesson := HandleConflict(confl, bound, smallLbd);
        if refuted {
          status := LFalse;
        }
      } else {
        restarted := *;
        if restarted {
          Restart();
        } else {
          status := Extend();
        }
      }
    }

    /** Between two calls of solve_: the solver is at level 0, or has found its formula refuted. */
    ghost predicate Settled()
      reads this
    {
      if ok then Running() && |trailLim| == 0 else forall m :: !Models(m, formula)
    }

    /** The conflict names assumptions that cannot hold together; the assumption first blamed may also appear
        itself. */
    ghost predicate Blames()
      reads this`conflict, this`formula, this`assumptions
    {
      && conflict != [] && Entails(formula, conflict) && Neg(conflict[0]) in assumptions
      && (forall l :: l in conflict ==> Neg(l) in assumptions || l == Neg(conflict[0]))
    }

    lemma BlamesUnsat()
      requires Running() && FinalConflictOk()
      ensures UnsatUnder(formula, assumptions) && Blames()
    {
      hide Registered, InVars, Stamps, Ready, Assuming, LateRootUnit, Entails;
      var p := conflict[0];
      LateUnitEntailed(S(), qhead, p);
      BlamedUnsat(T(), formula, conflict, assumptions);
    }

    /** Chooses the assumptions of the next call. */
    method Assume(ps: seq<Lit>)
      requires Settled() && AddedVarsOk(ps)
      modifies this`assumptions
      ensures Settled() && assumptions == ps
    {
      hide Ready;
      if ok {
        RootAssuming(S(), qhead, ps);
      }
      assumptions := ps;
    }

    /** Every variable has a value. */
    ghost predicate Complete(values: map<Var, bool>)
      reads this`vardata
    {
      forall v: Var :: v < |vardata| ==> v in values
    }

    /** Where the loops of solve_ are between two searches: undecided at level 0, interrupted, or decided. */
    ghost predicate Between(status: Status, interrupted: bool)
      reads this`trail, this`trailLim, this`assigns, this`vardata, this`ca, this`live, this`watches, this`watchesBin
      reads this`dirties, this`dirtiesBin, this`clauses, this`formula, this`qhead, this`learnts, this`seen
      reads this`seen2, this`counter, this`assumptions, this`decision, this`conflict
    {
      match status
      case LUndef => Running() && conflict == [] && (!interrupted ==> |trailLim| == 0)
      case LTrue => Exhausted()
      case LFalse => Refuted() || (Running() && FinalConflictOk())
    }

    /** What is known of the heaps between two searches, if they were full to begin with. The last search ran in mode
        searched; only if that is still the mode are both heaps sure to be full after the final backtrack. */
    ghost predicate Accounted(full: bool, status: Status, interrupted: bool, searched: bool)
      reads this`decision, this`vsids, this`orderVsids, this`orderChb, this`trail, this`trailLim, this`assigns
      reads this`vardata
      reads this`conflict
    {
      && (status == LUndef && !interrupted ==> searched == vsids)
      && (full && searched == vsids && (status != LFalse || conflict != []) ==> Stock())
      && (status == LTrue ==> O().Heap(searched) == {} && (full ==> decision <= assigns.Keys))
    }

    /** Changes the heuristic mode. */
    method SwitchMode(mode: bool, status: Status, interrupted: bool, ghost full: bool, ghost searched0: bool)
      returns (ghost searched: bool)
      requires Between(status, interrupted) && searched0 == vsids && Accounted(full, status, interrupted, searched0)
      modifies this`vsids
      ensures vsids == mode && Accounted(full, status, interrupted, searched)
      ensures status == LUndef && !interrupted ==> searched == mode
      ensures status != LUndef ==> searched == searched0
    {
      hide Running, Exhausted, FinalConflictOk, Hopeless, TrailStocked;
      searched := searched0;
      if status == LUndef && !interrupted {
        RootStock();
        BothFullToggled(O(), assigns.Keys, mode);
        searched := mode;
      }
      vsids := mode;
      if status == LUndef && !interrupted {
        RootStock();
      }
    }

    /** Solves under the current assumptions, restarting at most the given number of times in each phase: first in VSIDS
        mode, then in the other, which may change between searches. The last search ran in the mode searched. If both
        heaps lack assigned variables only, the answer l_True comes with a complete model; they still do afterwards,
        unless the mode has changed since the last search. After an answer l_True with a change of mode, the heap of
        that search is empty. */
    method Solve(restarts: nat, steps: nat, pool: Pool)
      returns (status: Status, interrupted: bool, ghost searched: bool)
      requires Settled() && pool.Sound(formula, |vardata|)
      modifies this`trail, this`trailLim, this`assigns, this`vardata, this`qhead, this`ca, this`live, this`watches
      modifies this`watchesBin, this`dirties, this`dirtiesBin, this`learnts, this`clauses, this`seen, this`seen2
      modifies this`counter, this`conflict, this`conflicts, this`simpDbAssigns, this`simpDbProps, this`orderVsids
      modifies this`orderChb, this`exported, this`starts, this`turns, this`vsids, this`model, this`ok
      ensures Settled() && |vardata| == old(|vardata|) && (old(Exports()) ==> Exports())
      ensures status == LTrue ==>
                AllHold(ModelOf(model), assumptions) && (Complete(model) ==> Models(ModelOf(model), formula))
      ensures status == LTrue && old(BothFull(O(), assigns.Keys)) ==> decision <= model.Keys
      ensures status == LFalse ==> UnsatUnder(formula, assumptions) && (ok ==> Blames())
      ensures ok && searched == vsids && old(BothFull(O(), assigns.Keys)) ==> BothFull(O(), assigns.Keys)
      ensures status == LTrue && searched != vsids ==>
                O().Heap(searched) == {} && (BothFull(O(), assigns.Keys) <==> decision <= assigns.Keys)
      ensures status == LUndef && !interrupted ==> starts == old(starts) + restarts + restarts
      ensures interrupted ==> turns >= old(turns) + steps
    {
      hide Running, Exhausted, FinalConflictOk, Blames, Hopeless, Accounted, BothFull, Models, AllHold, Entails,
          Between, Complete, Importable, AllImportable;
      Begin();
      searched := vsids;
      status, interrupted := LUndef, false;
      if !ok {
        return LFalse, false, searched;
      }
      ghost var full := BothFull(O(), assigns.Keys);
      StartSolving();
      status, interrupted, searched := Phases(restarts, steps, pool, full, searched);
      Finish(status, interrupted, full, searched);
      if status == LTrue && searched != vsids {
        EmptyHeapFull(O(), searched, assigns.Keys);
      }
    }

    /** The two phases: in VSIDS mode, and with changes of mode. */
    method Phases(restarts: nat, steps: nat, pool: Pool, ghost full: bool, ghost searched0: bool)
      returns (status: Status, interrupted: bool, ghost searched: bool)
      requires ok && Between(LUndef, false) && Accounted(full, LUndef, false, searched0) && searched0 == vsids
      requires pool.Sound(formula, |vardata|)
      modifies this`trail, this`trailLim, this`assigns, this`vardata, this`qhead, this`ca, this`live, this`watches
      modifies this`watchesBin, this`dirties, this`dirtiesBin, this`learnts, this`clauses, this`seen, this`seen2
      modifies this`counter, this`conflict, this`conflicts, this`simpDbAssigns, this`simpDbProps, this`orderVsids
      modifies this`orderChb, this`exported, this`starts, this`turns, this`vsids
      ensures |vardata| == old(|vardata|) && Between(status, interrupted) && (old(Exports()) ==> Exports())
      ensures Accounted(full, status, interrupted, searched)
      ensures status == LUndef && !interrupted ==> starts == old(starts) + restarts + restarts
      ensures interrupted ==> turns >= old(turns) + steps
    {
      hide Running, Exhausted, FinalConflictOk, Hopeless, Stock, Importable, AllImportable, Between, Accounted;
      status, interrupted := LUndef, false;
      searched := SwitchMode(true, LUndef, false, full, searched0);
      status, interrupted, searched := Phase(restarts, steps, pool, false, status, interrupted, full, searched);
      searched := SwitchMode(false, status, interrupted, full, searched);
      status, interrupted, searched := Phase(restarts, steps, pool, true, status, interrupted, full, searched);
    }

    lemma StartSolving()
      requires Settled() && ok && conflict == []
      ensures Between(LUndef, false) && Accounted(BothFull(O(), assigns.Keys), LUndef, false, vsids)
    {
      hide Running;
      RootStock();
    }

    /** Searches again and again until a verdict or an interruption, changing the mode in between if it may. */
    method Phase(restarts: nat, steps: nat, pool: Pool, mayChange: bool, status0: Status, interrupted0: bool,
                 ghost full: bool, ghost searched0: bool)
      returns (status: Status, interrupted: bool, ghost searched: bool)
      requires ok && Between(status0, interrupted0) && Accounted(full, status0, interrupted0, searched0)
      requires pool.Sound(formula, |vardata|)
      requires !mayChange ==> searched0 == vsids
      modifies this`trail, this`trailLim, this`assigns, this`vardata, this`qhead, this`ca, this`live, this`watches
      modifies this`watchesBin, this`dirties, this`dirtiesBin, this`learnts, this`clauses, this`seen, this`seen2
      modifies this`counter, this`conflict, this`conflicts, this`simpDbAssigns, this`simpDbProps, this`orderVsids
      modifies this`orderChb, this`exported, this`starts, this`turns, this`vsids
      ensures |vardata| == old(|vardata|) && Between(status, interrupted) && (old(Exports()) ==> Exports())
      ensures Accounted(full, status, interrupted, searched)
      ensures !mayChange ==> searched == vsids
      ensures status == LUndef && !interrupted ==>
                status0 == LUndef && !interrupted0 && starts == old(starts) + restarts
      ensures status0 != LUndef || interrupted0 ==>
                starts == old(starts) && status == status0 && interrupted == interrupted0
      ensures turns >= old(turns) + if interrupted && !interrupted0 then steps else 0
    {
      hide Running, Exhausted, FinalConflictOk, Hopeless, Stock, Importable, AllImportable;
      status, interrupted, searched := status0, interrupted0, searched0;
      var left := restarts;
      while status == LUndef && !interrupted && left > 0
        invariant |vardata| == old(|vardata|) && Between(status, interrupted) && (old(Exports()) ==> Exports())
        invariant Accounted(full, status, interrupted, searched)
        invariant !mayChange ==> searched == vsids
        invariant 0 <= left <= restarts && starts == old(starts) + restarts - left
        invariant turns >= old(turns) + if interrupted && !interrupted0 then steps else 0
        invariant left < restarts ==> status0 == LUndef && !interrupted0
        invariant left == restarts ==> status == status0 && interrupted == interrupted0
      {
        status, interrupted := Search(steps, pool);
        left := left - 1;
        var change := *;
        if mayChange && change {
          searched := SwitchMode(!vsids, status, interrupted, full, searched);
        }
      }
    }

    method Begin()
      requires Settled()
      modifies this`model, this`conflict
      ensures Settled() && conflict == [] && model == map[]
    {
      model, conflict := map[], [];
    }

    /** Records the verdict and returns to level 0. */
    method Finish(status: Status, interrupted: bool, ghost full: bool, ghost searched: bool)
      requires ok && Between(status, interrupted) && Accounted(full, status, interrupted, searched)
      modifies this`model, this`ok, this`trail, this`trailLim, this`assigns, this`qhead, this`orderVsids, this`orderChb
      ensures Settled()
      ensures status == LTrue ==>
                AllHold(ModelOf(model), assumptions) && (Complete(model) ==> Models(ModelOf(model), formula))
      ensures status == LTrue && full ==> decision <= model.Keys
      ensures status == LFalse ==> UnsatUnder(formula, assumptions) && (ok ==> Blames())
      ensures ok && full && searched == vsids ==> BothFull(O(), assigns.Keys)
      ensures status == LTrue && searched != vsids ==> O().Heap(searched) == {}
    {
      hide Running, Hopeless, FinalConflictOk, Entails, Models, AllHold, TrailStocked, BothFull;
      if status == LTrue {
        TrailIsModel();
        model := assigns;
      } else if status == LFalse {
        if conflict == [] {
          RefutedOnly();
          ok := false;
        } else {
          BlamesUnsat();
        }
      }
      Retreat();
      if ok {
        SettledStock();
      }
    }

    lemma SettledStock()
      requires Settled() && ok
      ensures Stock() <==> BothFull(O(), assigns.Keys)
    {
      hide Running;
      RootStock();
    }

    lemma RefutedOnly()
      requires conflict == [] && (Refuted() || (Running() && FinalConflictOk()))
      ensures Hopeless() && UnsatUnder(formula, assumptions)
    {
    }

    /** The final return to level 0. */
    method Retreat()
      requires (ok && Running()) || (!ok && Hopeless())
      modifies this`trail, this`trailLim, this`assigns, this`qhead, this`orderVsids, this`orderChb
      ensures Settled() && (ok && old(Stock()) ==> Stock()) && O() == old(O()).WithActive(O().Active())
    {
      hide Running, Base, Consistent, Leveled, Restocked, TrailStocked;
      if ok {
        Restart();
      } else {
        BaseParts(S());
        CancelUntil(0);
        RestockedOther(old(O()), old(assigns).Keys, assigns.Keys, O());
      }
    }

    // ---------- addClause_ ----------

    /** Sorts the literals and drops, in place, the false ones and repetitions; stops at once if the clause turns
        out to be redundant. What is left is the first j entries. */
    method NormaliseClause(ps: array<Lit>) returns (redundant: bool, j: nat)
      modifies ps
      ensures redundant <==> Redundant(T(), old(ps[..]))
      ensures !redundant ==> j <= ps.Length && Reduces(T(), old(ps[..]), ps[..j])
    {
      hide Redundant, Reduces;
      ghost var c := ps[..];
      SortLits(ps);
      redundant, j := CompactLits(ps, c);
    }

    method SortLits(ps: array<Lit>)
      modifies ps
      ensures multiset(ps[..]) == multiset(old(ps[..])) && Sorting.Sorted(ps[..], LitLess)
    {
      LitLessIsStrictWeak();
      ghost var c := ps[..];
      Sorting.Sort(ps, 0, ps.Length, LitLess);
      SortedWhole(c, ps[..]);
    }

    /** The single pass over the sorted literals. */
    method CompactLits(ps: array<Lit>, ghost c: Clause) returns (redundant: bool, j: nat)
      requires multiset(ps[..]) == multiset(c) && Sorting.Sorted(ps[..], LitLess)
      modifies ps
      ensures redundant <==> Redundant(T(), c)
      ensures !redundant ==> j <= ps.Length && Reduces(T(), c, ps[..j])
    {
      hide Redundant, Reduces, Normalising, Sorting.Sorted, LitLess;
      ghost var s := ps[..];
      NormaliseStart(T(), s);
      j := 0;
      var i := 0;
      var p := Nothing;
      while i < ps.Length
        invariant 0 <= j <= i <= ps.Length && ps[i..] == s[i..]
        invariant Normalising(T(), s, i, ps[..j])
        invariant if j == 0 then p == Nothing else p == Chosen(ps[j - 1])
      {
        assert ps[i] == ps[i..][0] == s[i];
        ghost var kept := ps[..j];
        assert j > 0 ==> kept[|kept| - 1] == ps[j - 1];
        if True(ps[i]) || (p.Chosen? && ps[i] == Neg(p.lit)) {
          EarlyReturn(T(), c, s, i, kept);
          return true, j;
        } else if !False(ps[i]) && !(p.Chosen? && ps[i] == p.lit) {
          NormaliseKeep(T(), s, i, kept);
          p := Chosen(ps[i]);
          ps[j] := ps[i];
          j := j + 1;
          assert ps[..j] == kept + [s[i]];
        } else {
          NormaliseSkip(T(), s, i, kept);
        }
        i := i + 1;
        assert ps[i..] == s[i..];
      }
      NormaliseEnd(T(), c, s, ps[..j]);
      redundant := false;
    }

    /** Adds a clause to the formula at level 0; false means the formula is now refuted. */
    method AddClause(ps: array<Lit>) returns (r: bool)
      requires Settled() && AddedVarsOk(ps[..])
      modifies this, ps
      ensures Settled() && r == ok && formula == old(formula) + {old(ps[..])} && |vardata| == old(|vardata|)
      ensures O() == old(O()) && old(assigns).Keys <= assigns.Keys && exported == old(exported)
    {
      hide Registered, InVars, Stamps, Redundant, Reduces, Ready, Assuming;
      ghost var c := ps[..];
      if !ok {
        StillUnsat(formula, c);
        formula := formula + {c};
        return false;
      }
      ReadyParts(S(), qhead);
      var redundant, j := NormaliseClause(ps);
      if redundant {
        RedundantAdds(S(), qhead, c);
        formula := formula + {c};
        return true;
      }
      ReducedVars(T(), c, ps[..j], |vardata|);
      r := StoreReduced(ps[..j], c);
    }

    /** Stores what is left of the clause c. */
    method StoreReduced(d: Clause, ghost c: Clause) returns (r: bool)
      requires ok && Running() && |trailLim| == 0 && Reduces(T(), c, d) && forall q :: q in d ==> q.v < |vardata|
      modifies this
      ensures Settled() && r == ok && formula == old(formula) + {c} && |vardata| == old(|vardata|)
      ensures O() == old(O()) && old(assigns).Keys <= assigns.Keys && exported == old(exported)
    {
      hide Redundant, Reduces, Running;
      if |d| == 0 {
        assert d == [];
        RunningReady();
        EmptyRefutes(S(), qhead, c);
        formula := formula + {c};
        ok := false;
      } else if |d| == 1 {
        assert d == [d[0]] && d[0] in d;
        StoreUnit(d[0], c);
      } else {
        StoreLong(d, c);
      }
      r := ok;
    }

    lemma RunningReady()
      requires Running()
      ensures Ready(S(), qhead) && Assuming(T(), assumptions) && Consistent(T())
    {
    }

    method StoreUnit(p: Lit, ghost c: Clause)
      requires ok && Running() && |trailLim| == 0 && Reduces(T(), c, [p]) && p.v < |vardata|
      modifies this`ok, this`formula, this`ca, this`watches, this`watchesBin, this`dirties, this`dirtiesBin
      modifies this`trail, this`assigns, this`vardata, this`qhead, this`simpDbProps
      ensures Settled() && formula == old(formula) + {c} && |vardata| == old(|vardata|)
      ensures O() == old(O()) && old(assigns).Keys <= assigns.Keys && exported == old(exported)
    {
      hide Reduces, Running, InConflict, Extends, Hopeless, Stock, SameArena;
      EnqueueUnit(p, c);
      var confl, bound := PropagateRunning();
      if confl == UNDEF {
        StillSettled();
      } else {
        RootConflicts(confl, bound);
        ok := false;
      }
    }

    lemma StillSettled()
      requires ok && Running() && |trailLim| == 0
      ensures Settled()
    {
    }

    lemma RootConflicts(confl: int, bound: nat)
      requires InConflict(confl, bound) && |trailLim| == 0
      ensures Hopeless()
    {
      ConflictAtRoot(S(), confl, bound);
    }

    /** The unit clause that is left of c, as a literal of level 0. */
    method EnqueueUnit(p: Lit, ghost c: Clause)
      requires Running() && Reduces(T(), c, [p]) && p.v < |vardata| && |trailLim| == 0
      modifies this`formula, this`trail, this`assigns, this`vardata
      ensures Running() && formula == old(formula) + {c} && |vardata| == old(|vardata|)
      ensures old(assigns).Keys <= assigns.Keys
    {
      hide Registered, InVars, Stamps, Reduces, Ready, Assuming, Enqueue;
      RunningReady();
      UnitAdds(S(), qhead, c, p);
      EnqueueAssuming(T(), p, 0, UNDEF, assumptions);
      formula := formula + {c};
      UncheckedEnqueue(p, 0, UNDEF);
      assert assigns == old(assigns)[p.v := !p.neg] by {
        EnqueuedValue(old(T()), p, 0, UNDEF);
      }
    }

    method StoreLong(d: Clause, ghost c: Clause)
      requires ok && Running() && |trailLim| == 0 && Reduces(T(), c, d) && |d| >= 2
      requires forall q :: q in d ==> q.v < |vardata|
      modifies this`ca, this`live, this`watches, this`watchesBin, this`clauses, this`formula
      ensures Settled() && formula == old(formula) + {c}
    {
      hide Reduces, Ready, Assuming, Attached, RootFlags, Stamps, Consistent, Registered, InVars;
      RunningReady();
      StoreReady(S(), qhead, c, d);
      FreshRef(S(), qhead, clauses);
      RegisterClause(clauses, learnts, live, |ca|);
      var cr := Attach(d);
      RefsPush(clauses, cr);
      clauses := clauses + [cr];
      formula := formula + {c};
    }

    predicate AddedVarsOk(c: Clause)
      reads this`vardata
    {
      forall q :: q in c ==> q.v < |vardata|
    }

    // ---------- vivification ----------

    /** The solver's trail with virtual levels: levels are not recorded while vivifying, and every literal assumed
        counts as having opened one. */
    ghost predicate Shadows(t: Trail)
      reads this`trail, this`assigns, this`vardata
    {
      && t.lits == trail && t.assigns == assigns && |t.vardata| == |vardata|
      && (forall v: Var :: t.Reason(v) == Reason(v))
    }

    ghost predicate SameLevels(vd: seq<VarData>, vd': seq<VarData>) {
      |vd| == |vd'| && forall v :: 0 <= v < |vd| ==> vd'[v].level == vd[v].level
    }

    lemma SameLevelsRefl(vd: seq<VarData>)
      ensures SameLevels(vd, vd)
    {
    }

    lemma SameLevelsTrans(vd0: seq<VarData>, vd1: seq<VarData>, vd2: seq<VarData>)
      requires SameLevels(vd0, vd1) && SameLevels(vd1, vd2)
      ensures SameLevels(vd0, vd2) && |vd0| == |vd2|
    {
    }

    method SimpleUncheckEnqueue(p: Lit, from: int, ghost t0: Trail) returns (ghost t: Trail)
      requires Shadows(t0) && p.v < |vardata| && p.v !in assigns
      modifies this`trail, this`assigns, this`vardata
      ensures t == Enqueue(t0, p, |t0.lim|, from) && Shadows(t)
      ensures SameLevels(old(vardata), vardata)
    {
      assigns := assigns[p.v := !p.neg];
      vardata := vardata[p.v := vardata[p.v].(reason := from)];
      trail := trail + [p];
      t := Enqueue(t0, p, |t0.lim|, from);
      forall v: Var
        ensures t.Reason(v) == Reason(v)
      {
        assert t0.Reason(v) == old(Reason(v));
      }
    }

    /** As PropagateBinary, without levels. */
    method SimplePropagateBinary(ghost q: nat, p: Lit, ghost t0: Trail, ghost start: nat)
      returns (confl: int, ghost t: Trail)
      requires Shadows(t0) && TopFrom(t0, start) && start <= q < |trail| && trail[q] == p
      requires Visiting(t0, ca, live, q, At(watchesBin, p) + At(watches, p))
      requires ListOk(ca, live, {}, true, p, At(watchesBin, p)) && Stored(V(t0))
      modifies this`trail, this`assigns, this`vardata
      ensures Shadows(t) && TopFrom(t, start) && Stored(V(t)) && Extends(t0, t) && q < |trail| && trail[q] == p
      ensures SameLevels(old(vardata), vardata)
      ensures confl == UNDEF ==> Visiting(t, ca, live, q, At(watches, p))
      ensures confl != UNDEF ==> confl in live && 0 <= confl < |ca| && t.AllFalse(ca[confl])
                                 && exists ws :: Visiting(t, ca, live, q, ws)
    {
      hide Visiting, Derived, Covering, WatcherOk, Extends, Consistent;
      ExtendsRefl(t0);
      t := t0;
      var ws := At(watchesBin, p);
      ghost var long := At(watches, p);
      var k := 0;
      assert ws[0..] == ws;
      while k < |ws|
        invariant 0 <= k <= |ws|
        invariant Visiting(t, ca, live, q, ws[k..] + long)
        invariant Shadows(t) && TopFrom(t, start) && Stored(V(t)) && Extends(t0, t)
        invariant q < |trail| && trail[q] == p && SameLevels(old(vardata), vardata)
      {
        var x := ws[k];
        var imp := x.blocker;
        ghost var rest := ws[k + 1..] + long;
        assert ws[k..] + long == [x] + rest;
        BinaryStep(t, ca, live, S().problem, formula, q, x, rest);
        if False(imp) {
          return x.cref, t;
        }
        if !True(imp) {
          VisitingConsistent(t, ca, live, q, [x] + rest);
          EnqueueExtends(t0, t, imp, |t.lim|, x.cref);
          EnqueueTop(t, imp, x.cref, start);
          t := SimpleUncheckEnqueue(imp, x.cref, t);
        }
        k := k + 1;
      }
      assert ws[k..] + long == long;
      return UNDEF, t;
    }

    /** One iteration over the long watch list of p, the literal at trail position q. */
    method SimpleVisit(ghost q: nat, p: Lit, ghost a: seq<Watcher>, x: Watcher, ghost z: seq<Watcher>, ghost t0: Trail,
                       ghost start: nat)
      returns (keep: bool, y: Watcher, conflict: bool, ghost t: Trail)
      requires Shadows(t0) && TopFrom(t0, start) && start <= q < |trail| && trail[q] == p && Mid(V(t0), q, a, [x] + z)
      modifies this`ca, this`watches, this`trail, this`assigns, this`vardata
      ensures Shadows(t) && TopFrom(t, start) && Extends(t0, t) && q < |trail| && trail[q] == p
      ensures SameLevels(old(vardata), vardata) && SameArena(old(ca), ca)
      ensures !conflict ==> Mid(V(t), q, if keep then a + [y] else a, z)
      ensures conflict ==> keep && y.cref == x.cref && Mid(V(t), q, a, [x] + z)
                           && x.cref in live && 0 <= x.cref < |ca| && y.blocker in ca[x.cref] && t.AllFalse(ca[x.cref])
    {
      hide Mid, Visiting, Extends, SameArena;
      SameArenaRefl(ca);
      ExtendsRefl(t0);
      t := t0;
      FrontWatcher(V(t), q, a, x, z);
      if True(x.blocker) {
        MidSatisfied(V(t), q, a, x, x, z);
        keep, y, conflict := true, x, false;
        return;
      }
      var cr := x.cref;
      FalseSecond(q, p, a, x, z, t);
      SameArenaSwap(ca, cr);
      var first := ca[cr][0];
      y, conflict, keep := Watcher(cr, first), false, true;
      if first != x.blocker && True(first) {
        MidSatisfied(V(t), q, a, x, y, z);
        return;
      }
      var k := FindNewWatch(ca[cr]);
      if k < |ca[cr]| {
        MidMove(V(t), q, a, x, y, z, k);
        SameArenaTrans(old(ca), ca, ca[cr := Swap(ca[cr], 1, k)]);
        ca := ca[cr := Swap(ca[cr], 1, k)];
        watches := Push(watches, Neg(ca[cr][1]), y);
        keep := false;
      } else if False(first) {
        conflict := true;
      } else {
        t := SimpleImply(q, a, x, y, z, t, start);
      }
    }

    /** The clause of x is unit. */
    method SimpleImply(ghost q: nat, ghost a: seq<Watcher>, x: Watcher, ghost y: Watcher, ghost z: seq<Watcher>,
                       ghost t0: Trail, ghost start: nat) returns (ghost t: Trail)
      requires Shadows(t0) && TopFrom(t0, start) && start <= q < |trail| && Mid(V(t0), q, a, [x] + z)
      requires 0 <= x.cref < |ca| && |ca[x.cref]| > 2 && ca[x.cref][1] == Neg(trail[q]) && True(trail[q])
      requires y == Watcher(x.cref, ca[x.cref][0]) && y.blocker.v !in assigns
      requires forall n :: 2 <= n < |ca[x.cref]| ==> False(ca[x.cref][n])
      modifies this`trail, this`assigns, this`vardata
      ensures Shadows(t) && TopFrom(t, start) && Extends(t0, t) && q < |trail| && trail[q] == old(trail[q])
      ensures SameLevels(old(vardata), vardata)
      ensures Mid(V(t), q, a + [y], z)
    {
      hide Mid, Visiting, Implies, Enqueue, Extends, Consistent;
      ExtendsRefl(t0);
      MidConsistent(V(t0), q, a, [x] + z);
      FrontWatcher(V(t0), q, a, x, z);
      MidLevels(V(t0), q, a, [x] + z);
      var first := ca[x.cref][0];
      assert t0.Level(ca[x.cref][1].v) == t0.LevelAt(q) == |t0.lim|;
      ImpliesFirst(t0, ca[x.cref], 1, |t0.lim|);
      MidUnit(V(t0), q, a, x, y, z, |t0.lim|);
      EnqueueExtends(t0, t0, first, |t0.lim|, x.cref);
      EnqueueTop(t0, first, x.cref, start);
      t := SimpleUncheckEnqueue(first, x.cref, t0);
    }

    /** t continues t0, whose literal at position q is p; levels on record stay as in vd. */
    ghost predicate Following(t0: Trail, t: Trail, start: nat, q: nat, p: Lit, vd: seq<VarData>)
      reads this`trail, this`assigns, this`vardata
    {
      && Shadows(t) && TopFrom(t, start) && Extends(t0, t) && SameLevels(vd, vardata)
      && start <= q < |trail| && trail[q] == p
    }

    /** As SimpleVisit, in the course of the loop. */
    method SimpleVisitNext(ghost q: nat, p: Lit, ghost a: seq<Watcher>, x: Watcher, ghost z: seq<Watcher>,
                           ghost t0: Trail, ghost t1: Trail, ghost start: nat, ghost vd: seq<VarData>)
      returns (keep: bool, y: Watcher, conflict: bool, ghost t: Trail)
      requires Following(t0, t1, start, q, p, vd) && Mid(V(t1), q, a, [x] + z)
      modifies this`ca, this`watches, this`trail, this`assigns, this`vardata
      ensures Following(t0, t, start, q, p, vd) && t.lits == trail && q < |trail| && trail[q] == p
      ensures SameArena(old(ca), ca)
      ensures !conflict ==> Mid(V(t), q, if keep then a + [y] else a, z)
      ensures conflict ==> keep && y.cref == x.cref && Mid(V(t), q, a, [x] + z)
                           && x.cref in live && 0 <= x.cref < |ca| && y.blocker in ca[x.cref] && t.AllFalse(ca[x.cref])
    {
      hide Mid, Extends, Consistent, TopFrom, SameLevels, SameArena;
      MidConsistent(V(t1), q, a, [x] + z);
      ghost var vd1 := vardata;
      keep, y, conflict, t := SimpleVisit(q, p, a, x, z, t1, start);
      ExtendsTrans(t0, t1, t);
      SameLevelsTrans(vd, vd1, vardata);
    }

    /** As PropagateLong, without levels. */
    method SimplePropagateLong(ghost q: nat, p: Lit, ghost t0: Trail, ghost start: nat)
      returns (confl: int, ghost t: Trail)
      requires Shadows(t0) && TopFrom(t0, start) && start <= q < |trail| && trail[q] == p
      requires Mid(V(t0), q, [], At(watches, p))
      modifies this`ca, this`watches, this`trail, this`assigns, this`vardata, this`qhead
      ensures Shadows(t) && TopFrom(t, start) && Extends(t0, t) && SameLevels(old(vardata), vardata)
      ensures SameArena(old(ca), ca)
      ensures confl == UNDEF ==> Base(V(t)) && WatchInv(t, ca, live, q + 1) && qhead == old(qhead)
      ensures confl != UNDEF ==> Base(V(t)) && Conflicting(t, ca, live, confl, q) && qhead == |trail|
    {
      hide Mid, Base, Conflicting, Following, Extends, TopFrom, Shadows, SameLevels, SameArena;
      SameArenaRefl(ca);
      FollowingStart(t0, start, q, p);
      t := t0;
      var ws := At(watches, p);
      var i, j := 0, 0;
      confl := UNDEF;
      assert ws[..0] == [] && ws[0..] == ws;
      while i < |ws|
        invariant 0 <= j <= i <= |ws| && t.lits == trail && q < |trail| && trail[q] == p
        invariant Following(t0, t, start, q, p, old(vardata)) && SameArena(old(ca), ca)
        invariant confl == UNDEF ==> Mid(V(t), q, ws[..j], ws[i..]) && qhead == old(qhead)
        invariant confl != UNDEF ==> i == |ws| && qhead == |trail| && Conflicting(t, ca, live, confl, q)
                                     && Base(V(t).(w := watches[p := ws[..j]]))
      {
        var x := ws[i];
        ghost var a, z, ca1 := ws[..j], ws[i + 1..], ca;
        assert ws[i..] == [x] + z;
        i := i + 1;
        var keep, y, conflict;
        keep, y, conflict, t := SimpleVisitNext(q, p, a, x, z, t0, t, start, old(vardata));
        SameArenaTrans(old(ca), ca1, ca);
        i, j, ws := Compact(i, j, ws, keep, y, conflict);
        if conflict {
          MidConflict(V(t), q, a, x, y, z);
          confl := x.cref;
          qhead := |trail|;
        }
      }
      if confl == UNDEF {
        assert ws[i..] == [];
        MidEnd(V(t), q, ws[..j]);
      }
      FollowingEnd(t0, t, start, q, p, old(vardata));
      watches := watches[p := ws[..j]];
    }

    lemma FollowingStart(t0: Trail, start: nat, q: nat, p: Lit)
      requires Shadows(t0) && TopFrom(t0, start) && start <= q < |trail| && trail[q] == p
      ensures Following(t0, t0, start, q, p, vardata) && t0.lits == trail
    {
      ExtendsRefl(t0);
    }

    lemma FollowingEnd(t0: Trail, t: Trail, start: nat, q: nat, p: Lit, vd: seq<VarData>)
      requires Following(t0, t, start, q, p, vd)
      ensures Shadows(t) && TopFrom(t, start) && Extends(t0, t) && SameLevels(vd, vardata)
    {
    }

    /** Propagates the literal at qhead. */
    method SimplePropagateNext(ghost t0: Trail, ghost start: nat) returns (confl: int, ghost t: Trail, ghost bound: nat)
      requires Shadows(t0) && TopFrom(t0, start) && start <= qhead < |trail|
      requires Ready(V(t0), qhead) && dirties == {} && dirtiesBin == {}
      modifies this`ca, this`watches, this`trail, this`assigns, this`vardata, this`qhead
      ensures Shadows(t) && TopFrom(t, start) && Extends(t0, t) && SameLevels(old(vardata), vardata)
      ensures SameArena(old(ca), ca)
      ensures confl == UNDEF ==> Ready(V(t), qhead) && qhead == old(qhead) + 1
      ensures confl != UNDEF ==> Base(V(t)) && Conflicting(t, ca, live, confl, bound) && start <= bound
    {
      hide Base, Visiting, Mid, Conflicting, ListOk, WatchInv, At, Consistent, TopFrom, SameArena;
      SameArenaRefl(ca);
      var p := trail[qhead];
      bound := qhead;
      ReadyVisit(V(t0), qhead);
      qhead := qhead + 1;
      confl, t := SimplePropagateBinary(bound, p, t0, start);
      if confl != UNDEF {
        BinaryConflict(V(t), bound, confl);
      } else {
        MidStart(V(t), bound);
        ghost var t1 := t;
        VisitingConsistent(t1, ca, live, bound, At(watches, p));
        confl, t := SimplePropagateLong(bound, p, t1, start);
        ExtendsTrans(t0, t1, t);
      }
    }

    /** Unit propagation without levels: whatever is implied belongs to the newest virtual level. */
    method SimplePropagate(ghost t0: Trail) returns (confl: int, ghost t: Trail, ghost bound: nat)
      requires Shadows(t0) && TopFrom(t0, qhead) && Ready(V(t0), qhead)
      modifies this`ca, this`watches, this`watchesBin, this`dirties, this`dirtiesBin
      modifies this`trail, this`assigns, this`vardata, this`qhead
      ensures Shadows(t) && TopFrom(t, old(qhead)) && Extends(t0, t) && SameLevels(old(vardata), vardata)
      ensures dirties == {} && dirtiesBin == {} && SameArena(old(ca), ca)
      ensures confl == UNDEF ==> Ready(V(t), qhead) && qhead == |trail|
      ensures confl != UNDEF ==> Base(V(t)) && Conflicting(t, ca, live, confl, bound) && old(qhead) <= bound
    {
      hide Base, Conflicting, WatchInv, Extends, Consistent, TopFrom, SameArena;
      SameArenaRefl(ca);
      ExtendsRefl(t0);
      confl, t, bound := UNDEF, t0, 0;
      ReadyParts(V(t), qhead);
      CleanAll();
      CleanReady(old(V(t0)), V(t), qhead);
      while qhead < |trail|
        invariant Shadows(t) && TopFrom(t, old(qhead)) && Extends(t0, t) && SameLevels(old(vardata), vardata)
        invariant dirties == {} && dirtiesBin == {} && old(qhead) <= qhead
        invariant Ready(V(t), qhead) && confl == UNDEF && SameArena(old(ca), ca)
        decreases |vardata| - qhead
      {
        BaseBound(V(t));
        ReadyParts(V(t), qhead);
        ghost var t1, ca1 := t, ca;
        confl, t, bound := SimplePropagateNext(t, old(qhead));
        ExtendsTrans(t0, t1, t);
        SameArenaTrans(old(ca), ca1, ca);
        if confl != UNDEF {
          return;
        }
      }
    }

    /** Makes x, which the clause implies, its first literal; only binary clauses need it. */
    method SimpleNormalise(cr: int, x: Lit, ghost t: Trail)
      requires Shadows(t) && Analysing(V(t), 1) && cr in live && 0 <= cr < |ca| && x in ca[cr] && True(x)
      requires forall q :: q in ca[cr] && q != x ==> False(q)
      requires |ca[cr]| > 2 ==> ca[cr][0] == x
      modifies this`ca
      ensures Shadows(t) && Analysing(V(t), 1) && SameArena(old(ca), ca) && |ca[cr]| > 0 && ca[cr][0] == x
      ensures Distinct(old(ca)[cr]) ==> Distinct(ca[cr])
    {
      hide Base, WatchInv;
      SwapLits(ca[cr], 0, if |ca[cr]| > 1 then 1 else 0);
      assert ca[cr][0] in ca[cr];
      if |ca[cr]| == 2 && False(ca[cr][0]) {
        SwapBinary(V(t), 1, cr);
        ca := ca[cr := Swap(ca[cr], 0, 1)];
      }
    }

    /** Flags the literals of a clause from index j0 on, all of them falsified below position k. */
    method FlagClause(cr: int, j0: nat, pathC0: nat, ghost t: Trail, ghost k: nat, ghost stale: set<Var>,
                      ghost visited0: set<Var>, ghost out: seq<Lit>, ghost cur: set<Var>)
      returns (pathC: nat, ghost visited: set<Var>)
      requires 0 <= cr < |ca| && j0 <= |ca[cr]| && Consistent(t) && Searching(t, ca, k, seen, visited0, out, cur)
      requires stale <= seen && pathC0 == |seen - stale|
      requires forall j :: j0 <= j < |ca[cr]| ==> FoundBelow(t, ca[cr][j].v, k)
      modifies this`seen
      ensures Searching(t, ca, k, seen, visited, out, cur) && stale <= seen && pathC == |seen - stale|
      ensures visited0 <= visited && forall j :: j0 <= j < |ca[cr]| ==> ca[cr][j].v in visited
      ensures seen == old(seen) + Vars(ca[cr][j0..])
    {
      hide Searching, Consistent, FoundBelow, Vars;
      pathC, visited := pathC0, visited0;
      var j := j0;
      NoVars();
      assert ca[cr][j0..j0] == [];
      while j < |ca[cr]|
        invariant j0 <= j <= |ca[cr]| && seen == old(seen) + Vars(ca[cr][j0..j])
        invariant Searching(t, ca, k, seen, visited, out, cur) && stale <= seen && pathC == |seen - stale|
        invariant visited0 <= visited && forall i :: j0 <= i < j && i < |ca[cr]| ==> ca[cr][i].v in visited
      {
        var q := ca[cr][j];
        VarsPush(ca[cr][j0..j], q);
        assert ca[cr][j0..j + 1] == ca[cr][j0..j] + [q];
        SearchFlag(t, ca, k, seen, visited, out, cur, q.v);
        visited := visited + {q.v};
        if q.v !in seen {
          assert seen + {q.v} - stale == (seen - stale) + {q.v};
          seen := seen + {q.v};
          pathC := pathC + 1;
        } else {
          assert seen + {q.v} == seen;
        }
        j := j + 1;
      }
      assert ca[cr][j0..j] == ca[cr][j0..];
    }

    /** Takes the next flagged literal off the trail, unless it precedes the assumed ones. */
    method TakeFlagged(index0: int, trailRecord: nat, ghost t: Trail, ghost stale: set<Var>, ghost visited: set<Var>,
                       ghost out: seq<Lit>)
      returns (index: int, found: bool)
      requires Shadows(t) && Consistent(t) && -1 <= index0 < |trail| && stale < seen
      requires Searching(t, ca, index0 + 1, seen, visited, out, {})
      requires FlaggedBelow(t, stale, trailRecord)
      requires Leveled(t) && t.lim != [] && trailRecord == t.lim[0]
      modifies this`seen
      ensures -1 <= index < index0 && (found <==> index + 1 >= trailRecord)
      ensures forall j :: index + 1 < j <= index0 ==> trail[j].v !in old(seen)
      ensures found ==>
                seen == old(seen) - {trail[index + 1].v} && trail[index + 1].v in old(seen) - stale && stale <= seen
                        && Searching(t, ca, index + 1, seen, visited, out, {trail[index + 1].v})
      ensures !found ==> Searched(t, ca, visited, out) && FlaggedBelow(t, seen, trailRecord)
    {
      hide Searching, Searched, Leveled, Consistent, FoundBelow;
      ghost var open := seen - stale;
      assert open != {} by {
        assert seen == stale + open;
      }
      SearchOpen(t, ca, index0 + 1, seen, visited, out, {}, T());
      index := ScanSeen(index0, open);
      index := index - 1;
      found := trailRecord <= index + 1;
      if found {
        SearchTake(t, ca, index0 + 1, seen, visited, out, index + 1);
        FoundOnce(t, index + 1, trailRecord);
        seen := seen - {trail[index + 1].v};
      } else {
        LeftBehind(t, ca, index0 + 1, seen, visited, out, trailRecord);
      }
    }

    /** Flags what the conflict, or the reason cr of the literal p just taken, speaks of. */
    method FlagNext(p: Choice, cr: int, trueConfl: bool, pathC0: nat, ghost t: Trail, ghost k: nat,
                    ghost stale: set<Var>, ghost visited0: set<Var>, ghost out: seq<Lit>)
      returns (pathC: nat, ghost visited: set<Var>)
      requires Shadows(t) && Analysing(V(t), 1) && stale <= seen && pathC0 == |seen - stale|
      requires p.Nothing? ==> 0 <= cr < |ca| && Searching(t, ca, k, seen, visited0, out, {})
      requires p.Nothing? && trueConfl ==> ca[cr] != []
      requires p.Nothing? ==> forall j :: (if trueConfl then 1 else 0) <= j < |ca[cr]| ==> FoundBelow(t, ca[cr][j].v, k)
      requires p.Chosen? ==> k < |trail| && p.lit == trail[k] && cr == Reason(p.lit.v) != UNDEF
                             && Searching(t, ca, k, seen, visited0, out, {p.lit.v})
      modifies this`ca, this`seen
      ensures Shadows(t) && Analysing(V(t), 1) && SameArena(old(ca), ca) && stale <= seen && pathC == |seen - stale|
      ensures Searching(t, ca, k, seen, visited, out, {}) && visited0 <= visited
      ensures p.Nothing? ==> ca == old(ca) && Covers(ca[cr], if trueConfl then 1 else 0, visited)
      ensures p.Nothing? ==> seen == old(seen) + Vars(ca[cr][if trueConfl then 1 else 0..])
      ensures p.Chosen? ==> 0 <= cr < |ca| && |ca[cr]| > 0 && Distinct(ca[cr]) && ca[cr][0] == p.lit
                            && seen == old(seen) + Vars(ca[cr][1..])
    {
      hide Searching, Analysing, Expanded, FoundBelow, Consistent;
      SameArenaRefl(ca);
      VirtualConsistent(t);
      ghost var cur: set<Var> := if p.Chosen? then {p.lit.v} else {};
      if p.Chosen? {
        ReasonAt(V(t), 1, k);
        SimpleNormalise(cr, p.lit, t);
        SearchArena(t, old(ca), ca, k, seen, visited0, out, cur);
        ReasonBelowFront(V(t), old(ca), k);
      }
      var j0 := if p.Nothing? && !trueConfl then 0 else 1;
      pathC, visited := FlagClause(cr, j0, pathC0, t, k, stale, visited0, out, cur);
      if p.Chosen? {
        FrontExpanded(t, ca, cr, p.lit.v, visited);
        SearchDone(t, ca, k, seen, visited, out, p.lit.v);
      }
    }

    lemma VirtualConsistent(t: Trail)
      requires Analysing(V(t), 1)
      ensures Consistent(t) && Leveled(t) && t.lim != [] && t.lim[0] <= |t.lits|
    {
    }

    /** The search of simpleAnalyze has come down to position k, where it has taken p off the trail, if anything yet. */
    ghost predicate Walking(t: Trail, c0: Clause, j0: nat, out0: seq<Lit>, k: nat, p: Choice, cr: int, stale: set<Var>,
                            visited: set<Var>, out: seq<Lit>, pathC: nat)
      reads this
    {
      && Shadows(t) && Analysing(V(t), 1) && k <= |trail| && stale <= seen && pathC == |seen - stale|
      && Searching(t, ca, k, seen, visited, out, if p.Chosen? then {p.lit.v} else {})
      && AddsAssumed(t, out0, out, if p.Chosen? then k + 1 else k)
      && (if p.Nothing? then 0 <= cr < |ca| && ca[cr] == c0 && k == |trail| && forall j :: j0 <= j < |c0| ==>
          FoundBelow(t, c0[j].v, k)
          else k < |trail| && p.lit == trail[k] && cr == Reason(p.lit.v) && t.LevelAt(k) > 0 && Covers(c0, j0, visited))
    }

    /** How far the walk has come that starts by flagging c0 from index j0 on: it is about to flag c0, or has taken the
        literal at position k. */
    ghost predicate OnTrack(t: Trail, ca0: seq<Clause>, c0: Clause, j0: nat, out0: seq<Lit>, k: nat, p: Choice,
                            out: seq<Lit>)
      reads this`ca, this`seen
    {
      && SameArena(ca0, ca) && j0 <= |c0|
      && if p.Chosen? then Tracks(t, ca0, Above(t, c0[j0..]), out0, k, seen, out, true)
         else k == |t.lits| && Positive(t, seen) == {} && out == out0
    }

    /** Expands the literal just taken, or adds its negation to the clause if it was assumed. */
    method SimpleResolve(p: Choice, cr: int, trueConfl: bool, out1: seq<Lit>, pathC0: nat, ghost t: Trail,
                         ghost ca0: seq<Clause>, ghost c0: Clause, ghost out0: seq<Lit>, ghost k: nat,
                         ghost stale: set<Var>, ghost visited0: set<Var>)
      returns (out: seq<Lit>, pathC: nat, ghost visited: set<Var>)
      requires Walking(t, c0, if trueConfl then 1 else 0, out0, k, p, cr, stale, visited0, out1, pathC0)
      requires OnTrack(t, ca0, c0, if trueConfl then 1 else 0, out0, k, p, out1)
      modifies this`ca, this`seen
      ensures SameArena(ca0, ca) && (if trueConfl then 1 else 0) <= |c0|
      ensures Tracks(t, ca0, Above(t, c0[if trueConfl then 1 else 0..]), out0, k, seen, out, false)
      ensures Shadows(t) && Analysing(V(t), 1) && SameArena(old(ca), ca) && stale <= seen && pathC == |seen - stale|
      ensures Searching(t, ca, k, seen, visited, out, {}) && AddsAssumed(t, out0, out, k)
      ensures Covers(c0, if trueConfl then 1 else 0, visited)
    {
      hide Searching, Analysing, AddsAssumed, Covers, FoundBelow, SameArena, Consistent, Leveled, Tracks, Above;
      SameArenaRefl(ca);
      VirtualConsistent(t);
      ghost var ca1, seen1, j0 := ca, seen, if trueConfl then 1 else 0;
      out, pathC, visited := out1, pathC0, visited0;
      if cr != UNDEF {
        pathC, visited := FlagNext(p, cr, trueConfl, pathC, t, k, stale, visited, out);
        SameArenaTrans(ca0, ca1, ca);
        if p.Chosen? {
          AddsLower(t, out0, out, k + 1, k);
          CoversMore(c0, if trueConfl then 1 else 0, visited0, visited);
          TracksReason(t, ca0, ca, Above(t, c0[j0..]), out0, k, seen1, seen, out, cr);
        } else {
          TracksStart(t, ca0, c0[j0..], out0, seen1, seen);
        }
      } else {
        SearchDecision(t, ca, k, seen, visited, out);
        TracksDecision(t, ca0, Above(t, c0[j0..]), out0, k, seen, out);
        AddsOne(t, out0, out, k);
        out := out + [Neg(p.lit)];
      }
    }

    /** Follows the conflict, or the reason of a true literal, back to the literals assumed. Flags of level 0 stay. */
    method SimpleAnalyze(confl: int, out0: seq<Lit>, trueConfl: bool, trailRecord: nat, ghost t: Trail)
      returns (out: seq<Lit>, ghost visited: set<Var>)
      requires Shadows(t) && Analysing(V(t), 1) && 0 <= confl < |ca| && |t.lim| > 0 && trailRecord == t.lim[0]
      requires trueConfl ==> ca[confl] != []
      requires AboveRoot(t, trailRecord)
      requires FlaggedBelow(t, seen, trailRecord)
      requires forall j :: (if trueConfl then 1 else 0) <= j < |ca[confl]| ==> FoundBelow(t, ca[confl][j].v, |trail|)
      modifies this`ca, this`seen
      ensures Shadows(t) && Analysing(V(t), 1) && SameArena(old(ca), ca)
      ensures Searched(t, ca, visited, out) && FlaggedBelow(t, seen, trailRecord)
      ensures Covers(old(ca)[confl], if trueConfl then 1 else 0, visited) && AddsAssumed(t, out0, out, 0)
      ensures out == Collect(t, old(ca), Above(t, old(ca)[confl][if trueConfl then 1 else 0..]), 1, out0, trailRecord)
    {
      hide Walking, Searching, Analysing, FoundBelow, Searched, SameArena, Covers, AddsAssumed, Tracks, Collect, Above,
          OnTrack;
      SameArenaRefl(ca);
      ghost var stale, c0 := seen, ca[confl];
      WalkStart(confl, trueConfl, out0, trailRecord, t);
      visited, out := stale, out0;
      var pathC, p, cr, index, done := 0, Nothing, confl, |trail| - 1, false;
      while !done
        invariant SameArena(old(ca), ca) && -1 <= index < |trail| && (!done ==> trailRecord <= index + 1)
        invariant !done ==>
                    Walking(t, c0, if trueConfl then 1 else 0, out0, index + 1, p, cr, stale, visited, out, pathC)
                    && OnTrack(t, old(ca), c0, if trueConfl then 1 else 0, out0, index + 1, p, out)
        invariant done ==> out == Collect(t, old(ca), Above(t, c0[if trueConfl then 1 else 0..]), 1, out0, trailRecord)
        invariant done ==> Shadows(t) && Analysing(V(t), 1) && Searched(t, ca, visited, out)
                           && FlaggedBelow(t, seen, trailRecord)
                           && Covers(c0, if trueConfl then 1 else 0, visited) && AddsAssumed(t, out0, out, 0)
        decreases !done, index
      {
        out, pathC, visited := SimpleResolve(p, cr, trueConfl, out, pathC, t, old(ca), c0, out0, index + 1, stale,
                                             visited);
        done, index, p, cr, pathC := SimpleAdvance(index, pathC, trailRecord, t, old(ca), c0,
                                                   if trueConfl then 1 else 0, out0, stale, visited, out);
      }
    }

    lemma WalkStart(confl: int, trueConfl: bool, out0: seq<Lit>, trailRecord: nat, t: Trail)
      requires Shadows(t) && Analysing(V(t), 1) && 0 <= confl < |ca| && |t.lim| > 0 && trailRecord == t.lim[0]
      requires FlaggedBelow(t, seen, trailRecord) && (trueConfl ==> ca[confl] != [])
      requires forall j :: (if trueConfl then 1 else 0) <= j < |ca[confl]| ==> FoundBelow(t, ca[confl][j].v, |trail|)
      ensures Walking(t, ca[confl], if trueConfl then 1 else 0, out0, |trail|, Nothing, confl, seen, seen, out0, 0)
      ensures OnTrack(t, ca, ca[confl], if trueConfl then 1 else 0, out0, |trail|, Nothing, out0)
      ensures trailRecord <= |trail|
    {
      hide Analysing, Positive;
      VirtualConsistent(t);
      NonePositive(t, seen);
      SameArenaRefl(ca);
      AddsRefl(t, out0, |trail|);
      LowFlags(t, seen, trailRecord);
      SearchStart(t, ca, seen, out0);
      assert seen - seen == {};
    }

    /** Takes the next flagged literal, if one has been flagged since the walk began. */
    method SimpleAdvance(index0: int, pathC0: nat, trailRecord: nat, ghost t: Trail, ghost ca0: seq<Clause>,
                         ghost c0: Clause, ghost j0: nat, ghost out0: seq<Lit>, ghost stale: set<Var>,
                         ghost visited: set<Var>, ghost out: seq<Lit>)
      returns (done: bool, index: int, p: Choice, cr: int, pathC: nat)
      requires -1 <= index0 < |trail| && Shadows(t) && Analysing(V(t), 1) && stale <= seen && pathC0 == |seen - stale|
      requires Searching(t, ca, index0 + 1, seen, visited, out, {}) && AddsAssumed(t, out0, out, index0 + 1)
      requires Covers(c0, j0, visited)
      requires |t.lim| > 0 && trailRecord == t.lim[0] && AboveRoot(t, trailRecord)
      requires FlaggedBelow(t, stale, trailRecord) && j0 <= |c0| && SameArena(ca0, ca) && trailRecord <= index0 + 1
      requires Tracks(t, ca0, Above(t, c0[j0..]), out0, index0 + 1, seen, out, false)
      modifies this`seen
      ensures -1 <= index <= index0 && (!done ==> index < index0 && trailRecord <= index + 1)
      ensures !done ==> Walking(t, c0, j0, out0, index + 1, p, cr, stale, visited, out, pathC)
      ensures if done then out == Collect(t, ca0, Above(t, c0[j0..]), 1, out0, trailRecord)
              else OnTrack(t, ca0, c0, j0, out0, index + 1, p, out)
      ensures done ==>
                Searched(t, ca, visited, out) && FlaggedBelow(t, seen, trailRecord) && AddsAssumed(t, out0, out, 0)
    {
      hide Walking, Searching, Analysing, FoundBelow, Consistent, AddsAssumed, Searched, Leveled, Covers, FlaggedBelow,
          AboveRoot, Tracks, Collect, Above, SameArena;
      VirtualConsistent(t);
      LowFlags(t, stale, trailRecord);
      done, index, p, cr, pathC := true, index0, Nothing, UNDEF, pathC0;
      OpenFlags(seen, stale);
      AddsLower(t, out0, out, index0 + 1, 0);
      if pathC0 == 0 {
        NothingLeft(t, ca, index0 + 1, seen, visited, out, trailRecord);
        TracksEnd(t, ca0, Above(t, c0[j0..]), out0, index0 + 1, seen, out, trailRecord);
        return;
      }
      ghost var seen1 := seen;
      var found;
      index, found := TakeFlagged(index0, trailRecord, t, stale, visited, out);
      if found {
        done, p, cr, pathC := false, Chosen(trail[index + 1]), Reason(trail[index + 1].v), pathC0 - 1;
        OneOpenFewer(seen1, stale, p.lit.v);
        AboveAt(t, trailRecord, index + 1);
        AddsLower(t, out0, out, index0 + 1, index + 2);
        TracksTake(t, ca0, Above(t, c0[j0..]), out0, index0 + 1, seen1, out, index + 1);
        WalkOn(t, c0, j0, out0, index + 1, p, cr, stale, visited, out, pathC);
      } else {
        TracksEnd(t, ca0, Above(t, c0[j0..]), out0, index0 + 1, seen1, out, trailRecord);
      }
    }

    lemma WalkOn(t: Trail, c0: Clause, j0: nat, out0: seq<Lit>, k: nat, p: Choice, cr: int, stale: set<Var>,
                 visited: set<Var>, out: seq<Lit>, pathC: nat)
      requires Shadows(t) && Analysing(V(t), 1) && k < |trail| && stale <= seen && pathC == |seen - stale|
      requires p == Chosen(trail[k]) && cr == Reason(trail[k].v) && t.LevelAt(k) > 0
      requires Searching(t, ca, k, seen, visited, out, {trail[k].v}) && AddsAssumed(t, out0, out, k + 1)
      requires Covers(c0, j0, visited)
      ensures Walking(t, c0, j0, out0, k, p, cr, stale, visited, out, pathC)
    {
    }

    method CancelUntilTrailRecord(trailRecord: nat)
      requires trailRecord <= |trail|
      modifies this`trail, this`assigns, this`qhead
      ensures trail == old(trail)[..trailRecord] && qhead == trailRecord
      ensures assigns == old(assigns) - Vars(old(trail)[trailRecord..])
    {
      var c := |trail|;
      assert trail[c..] == [];
      while c > trailRecord
        invariant trailRecord <= c <= |trail| && trail == old(trail)
        invariant assigns == old(assigns) - Vars(trail[c..])
      {
        c := c - 1;
        assert trail[c..] == [trail[c]] + trail[c + 1..];
        assert Vars(trail[c..]) == {trail[c].v} + Vars(trail[c + 1..]) by {
          VarsPush([], trail[c]);
          assert [] + [trail[c]] == [trail[c]];
          VarsConcat([trail[c]], trail[c + 1..]);
        }
        assigns := assigns - {trail[c].v};
      }
      qhead := trailRecord;
      trail := trail[..trailRecord];
    }

    /** Assumes the negation of k and propagates. */
    method AssumeNegation(k: Lit, ghost root: Trail, ghost ks: Clause, ghost t0: Trail)
      returns (confl: int, ghost t: Trail)
      requires Shadows(t0) && Ready(V(t0), qhead) && qhead == |trail| && Probing(root, t0, ks) && Consistent(t0)
      requires k.v < |vardata| && k.v !in assigns
      modifies this`ca, this`watches, this`watchesBin, this`dirties, this`dirtiesBin
      modifies this`trail, this`assigns, this`vardata, this`qhead
      ensures Shadows(t) && Probing(root, t, ks + [k]) && SameLevels(old(vardata), vardata) && dirties == {}
      ensures dirtiesBin == {}
      ensures (forall l :: t0.False(l) ==> t.False(l)) && SameArena(old(ca), ca)
      ensures k.v < |t0.vardata| && Extends(Enqueue(NewLevel(t0), Neg(k), |t0.lim| + 1, UNDEF), t)
      ensures confl == UNDEF ==> Ready(V(t), qhead) && qhead == |trail|
      ensures confl != UNDEF ==> Analysing(V(t), 1) && confl in live && 0 <= confl < |ca| && ca[confl] != []
                                 && t.AllFalse(ca[confl]) && FalsifiedFrom(t, ca[confl][0], |root.lits|)
    {
      hide Ready, Base, Conflicting, Probing, TopFrom, Consistent, SameArena;
      AssumeReady(V(t0), k);
      ProbeDecide(root, t0, ks, k);
      ProbeParts(root, t0, ks);
      assert |NewLevel(t0).lim| == |t0.lim| + 1;
      t := SimpleUncheckEnqueue(Neg(k), UNDEF, NewLevel(t0));
      assert V(t) == old(V(t0)).(t := t);
      ghost var t1, bound := t, 0;
      confl, t, bound := SimplePropagate(t);
      ProbeExtends(root, t1, t, ks + [k], |t0.lits|);
      if confl != UNDEF {
        ConflictAnalysing(V(t), root, ks + [k], confl, bound);
      }
    }

    /** Level 0, everything propagated. The flags that vivification leaves behind are of level 0. */
    ghost predicate AtRoot()
      reads this`trail, this`trailLim, this`assigns, this`vardata, this`ca, this`live, this`watches, this`watchesBin
      reads this`dirties, this`dirtiesBin, this`clauses, this`formula, this`qhead, this`seen
    {
      Valid() && qhead == |trail| && trailLim == [] && FlaggedBelow(T(), seen, |trail|)
    }

    /** Assumes the negations of the literals, one by one, until a conflict, a true literal, or the end. */
    method Probe(c0: Clause)
      returns (c: Clause, confl: int, trueConfl: bool, ghost t: Trail, ghost ks: Clause, ghost n: nat)
      requires AtRoot() && c0 != [] && Distinct(c0) && forall l :: l in c0 ==> l.v < |vardata| && l.v !in assigns
      modifies this`ca, this`watches, this`watchesBin, this`dirties, this`dirtiesBin
      modifies this`trail, this`assigns, this`vardata, this`qhead
      ensures Shadows(t) && Probed(V(t), old(T()), c0, c, ks, confl, trueConfl) && SameLevels(old(vardata), vardata)
      ensures Tried(old(T()), live, c0, Trial(t, ca, ks, n, c, confl, trueConfl)) && SameArena(old(ca), ca)
    {
      hide Ready, Base, Assembling, Probing, Analysing, Probed, FalsifiedFrom, Consistent, Compacting, SameLevels,
          Extends, Tried, SameArena;
      ghost var root := T();
      SameArenaRefl(ca);
      SameLevelsRefl(vardata);
      ReadyTrail(S(), qhead);
      AssembleStart(root, c0);
      t, ks, c, n := root, [], c0, 0;
      var i, j := 0, 0;
      confl, trueConfl := UNDEF, false;
      CompactStart(c0, 0);
      while i < |c|
        invariant i <= |c| == |c0| && Compacting(c, c0, i, j, ks) && |vardata| == old(|vardata|) && confl == UNDEF
        invariant Shadows(t) && Assembling(root, t, c0, i, ks) && !trueConfl && SameLevels(old(vardata), vardata)
        invariant Ready(V(t), qhead) && qhead == |trail| && (i > 0 ==> dirties == {} && dirtiesBin == {})
        invariant SameArena(old(ca), ca)
      {
        var k := c[i];
        n := i + 1;
        CompactNext(c, c0, i, j, ks);
        ReadyTrail(V(t), qhead);
        AssembledParts(root, t, c0, i, ks);
        if k.v !in assigns {
          ghost var vd, t1, ca1 := vardata, t, ca;
          confl, t := AssumeNegation(k, root, ks, t);
          AssembleAssume(root, t1, t, c0, i, ks);
          SameArenaTrans(old(ca), ca1, ca);
          SameLevelsTrans(old(vardata), vd, vardata);
          c := c[j := k];
          ks := ks + [k];
          j := j + 1;
          if confl != UNDEF {
            EndFalse(V(t), root, c0, n, ks, confl);
            return c[..j], confl, false, t, ks, n;
          }
        } else if True(k) {
          EndTrue(V(t), root, c0, i, ks);
          c := c[j := k];
          j := j + 1;
          return c[..j], Reason(k.v), true, t, ks, n;
        } else {
          AssembleDrop(root, t, c0, i, ks);
        }
        i := i + 1;
      }
      CompactEnd(c, c0, i, j, ks);
      EndAll(V(t), root, c0, ks);
      n := i;
      c := c[..j];
    }

    /** What a conflict, or a literal found true, rests on, if that is less than what has been assumed. */
    method PickConfirmed(c0: Clause, c1: Clause, confl: int, trueConfl: bool, trailRecord: nat, ghost root: Trail,
                         ghost t: Trail, ghost ks: Clause, ghost n: nat) returns (c: Clause)
      requires Shadows(t) && Probed(V(t), root, c0, c1, ks, confl, trueConfl) && trailRecord == |root.lits|
      requires FlaggedBelow(t, seen, trailRecord)
      modifies this`ca, this`seen
      ensures Shadows(t) && Analysing(V(t), 1) && Vivified(t, ca, live, c0, c)
      ensures FlaggedBelow(t, seen, trailRecord) && Outcome(Trial(t, old(ca), ks, n, c1, confl, trueConfl), c)
      ensures SameArena(old(ca), ca)
    {
      hide Probing, Analysing, Probed, Consistent, Leveled, Searched, SameArena, Covers, AddsAssumed, FoundBelow,
          MeetsDb, Collect, Above;
      SameArenaRefl(ca);
      ghost var s := V(t);
      c := c1;
      ProbedParts(s, root, c0, c, ks, confl, trueConfl);
      if confl != UNDEF || trueConfl {
        ProbedConflict(s, root, c0, c, ks, confl, trueConfl);
        ProbeParts(root, t, ks);
        var out: seq<Lit> := if trueConfl then [c[|c| - 1]] else [];
        ghost var visited;
        out, visited := SimpleAnalyze(confl, out, trueConfl, trailRecord, t);
        AnalysedVivifies(s, V(t), root, c0, c, ks, confl, trueConfl, visited, out);
        if |out| < |c| {
          c := out;
        }
      } else {
        KeptVivifies(s, root, c0, c, ks);
      }
    }

    /** Takes everything assumed back. */
    method LeaveProbe(trailRecord: nat, ghost root: Trail, ghost t: Trail, ghost ks: Clause)
      requires Shadows(t) && Analysing(V(t), 1) && Probing(root, t, ks) && ks != [] && trailRecord == |root.lits|
      requires trailLim == []
      requires |root.vardata| == |vardata| && forall v :: v in root.assigns ==> root.Level(v) == Level(v)
      requires FlaggedBelow(t, seen, trailRecord)
      modifies this`trail, this`assigns, this`qhead
      ensures AtRoot() && trail == root.lits && assigns == root.assigns && qhead == |trail| && SameAssigned(root, T())
    {
      hide Probing, Analysing, Consistent, Leveled;
      VirtualConsistent(t);
      ProbeParts(root, t, ks);
      ProbeRestores(root, t, ks);
      CancelUntilTrailRecord(trailRecord);
      ProbedCancel(old(V(t)), root, ks, T());
    }

    /** Shortens a learnt clause that has been detached: assumes the negations of its literals one by one and keeps
        those that a conflict, or a literal found true, rests on. */
    method SimplifyLearnt(c0: Clause) returns (c: Clause, ghost trial: Trial)
      requires AtRoot() && c0 != [] && Distinct(c0) && forall l :: l in c0 ==> l.v < |vardata| && l.v !in assigns
      modifies this`ca, this`watches, this`watchesBin, this`dirties, this`dirtiesBin
      modifies this`trail, this`assigns, this`vardata, this`qhead, this`seen
      ensures AtRoot() && trail == old(trail) && assigns == old(assigns) && qhead == old(qhead)
      ensures |vardata| == old(|vardata|)
      ensures Vivified(T(), ca, live, c0, c)
      ensures Tried(old(T()), live, c0, trial) && Outcome(trial, c)
      ensures SameArena(old(ca), trial.ca) && SameArena(old(ca), ca)
    {
      hide Ready, Probing, Analysing, Probed, Consistent, Leveled, Vivified, Tried, Outcome,
          SameArena;
      var trailRecord := |trail|;
      ghost var root := T();
      var confl, trueConfl;
      ghost var t, ks, n;
      c, confl, trueConfl, t, ks, n := Probe(c0);
      trial := Trial(t, ca, ks, n, c, confl, trueConfl);
      ProbedParts(V(t), root, c0, c, ks, confl, trueConfl);
      ProbeParts(root, t, ks);
      ProbePrefix(root, t, ks);
      c := PickConfirmed(c0, c, confl, trueConfl, trailRecord, root, t, ks, n);
      SameArenaTrans(old(ca), trial.ca, ca);
      LeaveProbe(trailRecord, root, t, ks);
      VivifiedBack(root, t, ks, T(), ca, live, c0, c);
    }

    // ---------- simplifyAll ----------

    /** Takes the watchers of cr out of two lists. */
    method RemoveWatchers(w0: Lists, l0: Lit, l1: Lit, cr: int) returns (w: Lists)
      requires l0 != l1 && Listed(w0, l0, cr) && Listed(w0, l1, cr)
      ensures exists ws0, ws1 :: TakenOut(At(w0, l0), cr, ws0) && TakenOut(At(w0, l1), cr, ws1)
                && w == w0[l0 := ws0][l1 := ws1]
    {
      var ws0, ws1;
      ghost var j0, j1;
      ws0, j0 := RemoveWatcher(At(w0, l0), cr);
      w := w0[l0 := ws0];
      ws1, j1 := RemoveWatcher(At(w, l1), cr);
      w := w[l1 := ws1];
      assert TakenOut(At(w0, l0), cr, ws0) && TakenOut(At(w0, l1), cr, ws1);
    }

    /** Takes a clause out of its two watch lists. */
    method DetachClause(cr: int)
      requires Valid() && cr in live && 0 <= cr < |ca| && |ca[cr]| >= 2
      modifies this`live, this`watches, this`watchesBin
      ensures Detached(old(S()), cr, S())
    {
      hide Ready, TakenOut;
      WatchedTwice(S(), qhead, cr);
      var c := ca[cr];
      if |c| == 2 {
        watchesBin := RemoveWatchers(watchesBin, Neg(c[0]), Neg(c[1]), cr);
      } else {
        watches := RemoveWatchers(watches, Neg(c[0]), Neg(c[1]), cr);
      }
      live := live - {cr};
    }

    /** Takes a learnt clause without true literals out of use. */
    method DetachLearnt(i: nat)
      requires Running() && i < |learnts| && 0 <= learnts[i] < |ca| && !SomeTrue(ca[learnts[i]])
      modifies this`live, this`watches, this`watchesBin, this`learnts
      ensures Running() && learnts == old(learnts)[..i] + old(learnts)[i + 1..]
      ensures live == old(live) - {old(learnts[i])}
    {
      hide Ready, Assuming, Detached, RootFlags, Registered, InVars, Stamps;
      var cr := learnts[i];
      DropLearntRegistered(clauses, learnts, live, i);
      StoredClause(S(), qhead, cr);
      ghost var s := S();
      DetachClause(cr);
      DetachReady(s, qhead, cr, S());
      DetachedParts(s, cr, S());
      learnts := learnts[..i] + learnts[i + 1..];
    }

    /** Drops the false literals. */
    method DropFalse(c0: Clause) returns (c: Clause)
      requires Distinct(c0)
      ensures Distinct(c) && forall l :: l in c <==> l in c0 && !False(l)
    {
      hide Compacting;
      c := c0;
      var i, j := 0, 0;
      ghost var kept: Clause := [];
      CompactStart(c0, 0);
      while i < |c|
        invariant i <= |c| == |c0| && Compacting(c, c0, i, j, kept)
        invariant Distinct(kept) && forall l :: l in kept <==> l in c0[..i] && !False(l)
      {
        CompactNext(c, c0, i, j, kept);
        if !False(c[i]) {
          DistinctKept(c0, i, kept);
          kept := kept + [c[i]];
          c := c[j := c[i]];
          j := j + 1;
        }
        i := i + 1;
      }
      CompactEnd(c, c0, i, j, kept);
      c := c[..j];
    }

    /** Stores a consequence of the formula, all of its literals unassigned, as the i-th learnt clause, under a
        reference of its own. */
    method StoreLearnt(i: nat, c: Clause)
      requires Running() && i <= |learnts| && |c| >= 2 && Distinct(c) && Entails(formula, c)
      requires forall l :: l in c ==> l.v < |vardata| && l.v !in assigns
      modifies this`ca, this`live, this`watches, this`watchesBin, this`learnts
      ensures Running() && ca == old(ca) + [c] && learnts == old(learnts)[..i] + [old(|ca|)] + old(learnts)[i..]
    {
      hide Ready, Assuming, Attached, RootFlags, Entails, Registered, InVars, Stamps;
      FreshRef(S(), qhead, clauses);
      RegisterLearnt(clauses, learnts, live, i, |ca|);
      AttachReady(S(), qhead, c);
      var cr := Attach(c);
      learnts := learnts[..i] + [cr] + learnts[i..];
    }

    /** Enqueues a literal that follows from the formula, at level 0. */
    method AssertUnit(p: Lit)
      requires Running() && p.v < |vardata| && p.v !in assigns && Entails(formula, [p])
      modifies this`trail, this`assigns, this`vardata
      ensures Running() && p.v < |old(vardata)| && T() == Enqueue(old(T()), p, 0, UNDEF)
    {
      hide Registered, InVars, Stamps, Ready, Assuming, Enqueue, RootFlags, Entails;
      RunningReady();
      UnitReady(S(), qhead, p);
      EnqueueAssuming(T(), p, 0, UNDEF, assumptions);
      UncheckedEnqueue(p, 0, UNDEF);
      RootFlagsSame(old(T()), T(), seen);
    }

    /** Shortens a detached clause, whose literals are all unassigned. */
    method Shorten(c0: Clause) returns (c: Clause, ghost trial: Trial)
      requires Idle() && c0 != [] && Distinct(c0) && Entails(formula, c0)
      requires forall l :: l in c0 ==> l.v < |vardata| && l.v !in assigns
      modifies this`ca, this`watches, this`watchesBin, this`dirties, this`dirtiesBin
      modifies this`trail, this`assigns, this`vardata, this`qhead, this`seen
      ensures Idle() && trail == old(trail) && assigns == old(assigns) && |vardata| == old(|vardata|)
      ensures c != [] && Distinct(c) && Entails(formula, c) && forall l :: l in c ==> l in c0
      ensures Tried(old(T()), live, c0, trial) && Outcome(trial, c)
      ensures SameArena(old(ca), trial.ca) && SameArena(old(ca), ca)
    {
      hide Registered, InVars, Stamps, Ready, Entails, FoundBelow, MeetsDb, Assuming, Tried, Outcome, SameArena;
      c, trial := SimplifyLearnt(c0);
      VivifiedFollows(S(), qhead, c0, c);
      RootAssuming(S(), qhead, assumptions);
    }

    /** Vivifies one learnt clause. It stays, as the outcome of its trial, or goes, because a literal of level 0
        satisfies it, before the trial or after it. */
    method SimplifyAt(i: nat)
      returns (fine: bool, kept: bool, ghost c0: Clause, ghost trial: Trial, ghost outcome: Clause)
      requires Idle() && i < |learnts| && 0 <= learnts[i] < |ca|
      modifies this`ca, this`live, this`watches, this`watchesBin, this`dirties, this`dirtiesBin, this`learnts
      modifies this`trail, this`assigns, this`vardata, this`qhead, this`simpDbProps, this`seen
      ensures |vardata| == old(|vardata|) && old(assigns).Keys <= assigns.Keys && (if fine then Idle() else Hopeless())
      ensures fine && !kept ==> |learnts| == old(|learnts|) - 1 && SomeTrue(old(ca[learnts[i]]))
      ensures old(SomeTrue(ca[learnts[i]])) ==> fine && !kept && trail == old(trail)
      ensures !old(SomeTrue(ca[learnts[i]])) ==>
                Vivifies(old(T()), old(ca), old(live), old(learnts[i]), c0, trial, outcome) && (kept <==> |outcome| > 1)
      ensures kept ==> fine && |learnts| == old(|learnts|) && 0 <= learnts[i] < |ca| && ca[learnts[i]] == outcome
    {
      hide Running, Stock, Hopeless, Vivifies;
      c0, outcome := [], [];
      trial := Trial(T(), ca, [], 0, [], UNDEF, false);
      RefsInside();
      var sat := Satisfied(ca[learnts[i]]);
      if sat {
        DropLearnt(i);
        return true, false, c0, trial, outcome;
      }
      fine, kept, c0, trial, outcome := VivifyAt(i);
    }

    /** The trial of what is not false of the clause at cr, which has been detached, ends with outcome. */
    static ghost predicate Vivifies(t: Trail, ca: seq<Clause>, live: set<int>, cr: int, c0: Clause, trial: Trial,
                                    outcome: Clause) {
      && 0 <= cr < |ca| && (forall l :: l in c0 <==> l in ca[cr] && !t.False(l))
      && SameArena(ca, trial.ca) && Tried(t, live - {cr}, c0, trial) && Outcome(trial, outcome)
      && outcome != [] && forall l :: l in outcome ==> l in c0
    }

    /** Vivifies a clause that level 0 does not satisfy: c0 is what is not false of it; the outcome of its trial takes
        its place or, as a unit, becomes a fact of level 0. */
    method VivifyAt(i: nat)
      returns (fine: bool, kept: bool, ghost c0: Clause, ghost trial: Trial, ghost outcome: Clause)
      requires Idle() && i < |learnts| && 0 <= learnts[i] < |ca| && !SomeTrue(ca[learnts[i]])
      modifies this`ca, this`live, this`watches, this`watchesBin, this`dirties, this`dirtiesBin, this`learnts
      modifies this`trail, this`assigns, this`vardata, this`qhead, this`simpDbProps, this`seen
      ensures |vardata| == old(|vardata|) && old(assigns).Keys <= assigns.Keys && (if fine then Idle() else Hopeless())
      ensures Vivifies(old(T()), old(ca), old(live), old(learnts[i]), c0, trial, outcome)
      ensures (kept <==> |outcome| > 1) && (kept ==> fine) && outcome != []
      ensures kept ==> |learnts| == old(|learnts|) && 0 <= learnts[i] < |ca| && ca[learnts[i]] == outcome
      ensures fine && !kept ==> |learnts| == old(|learnts|) - 1 && True(outcome[0]) && SomeTrue(old(ca[learnts[i]]))
    {
      hide Running, Stock, Distinct, Entails, Hopeless, Tried, Outcome, SameArena;
      var c := FreeLits(i);
      c0 := c;
      DetachLearnt(i);
      c, trial := Shorten(c);
      outcome := c;
      fine, kept := true, |c| > 1;
      if kept {
        StoreLearnt(i, c);
      } else {
        fine := Conclude(c);
      }
    }

    /** The literals of a stored clause that are not false. */
    method FreeLits(i: nat) returns (c: Clause)
      requires Idle() && i < |learnts| && 0 <= learnts[i] < |ca| && !SomeTrue(ca[learnts[i]])
      ensures |c| >= 2 && Distinct(c) && Entails(formula, c)
      ensures forall l :: l in c ==> l.v < |vardata| && l.v !in assigns
      ensures forall l :: l in c <==> l in ca[learnts[i]] && !False(l)
    {
      hide Registered, InVars, Stamps, Ready, Distinct, Entails, RootFlags, Assuming;
      RefsInside();
      IdleClause(i);
      c := DropFalse(ca[learnts[i]]);
      assert forall l :: l in ca[learnts[i]] ==> !T().True(l);
      FalseDropped(S(), learnts[i], c);
    }

    /** The unit clause that is left is a fact of level 0. */
    method Conclude(c: Clause) returns (fine: bool)
      requires Idle() && |c| == 1 && Entails(formula, c) && c[0].v < |vardata| && c[0].v !in assigns
      modifies this`ca, this`watches, this`watchesBin, this`dirties, this`dirtiesBin
      modifies this`trail, this`assigns, this`vardata, this`qhead, this`simpDbProps
      ensures |vardata| == old(|vardata|) && old(assigns).Keys <= assigns.Keys
      ensures if fine then Idle() && True(c[0]) else Hopeless()
    {
      hide Running, InConflict, Entails;
      assert c == [c[0]];
      AssertUnit(c[0]);
      var confl, bound := PropagateRunning();
      fine := confl == UNDEF;
      if !fine {
        RootConflicts(confl, bound);
      }
    }

    /** One pass over the learnt clauses, vivifying those that are due. */
    method SimplifyPass() returns (fine: bool)
      requires Idle()
      modifies this`ca, this`live, this`watches, this`watchesBin, this`dirties, this`dirtiesBin, this`learnts
      modifies this`trail, this`assigns, this`vardata, this`qhead, this`simpDbProps, this`seen
      ensures |vardata| == old(|vardata|) && old(assigns).Keys <= assigns.Keys && (if fine then Idle() else Hopeless())
    {
      hide Running, Base;
      var i := 0;
      while i < |learnts|
        invariant Idle() && |vardata| == old(|vardata|) && old(assigns).Keys <= assigns.Keys
        decreases |learnts| - i
      {
        var due := *;
        var kept := true;
        if due {
          RefsInside();
          ghost var c0, trial, outcome;
          fine, kept, c0, trial, outcome := SimplifyAt(i);
          if !fine {
            return;
          }
        }
        if kept {
          i := i + 1;
        }
      }
      fine := true;
    }

    /** Vivification of the learnt clauses worth keeping, first those of the core, then those of the second tier. */
    method SimplifyAll() returns (fine: bool)
      requires Running() && |trailLim| == 0
      modifies this`ca, this`live, this`watches, this`watchesBin, this`dirties, this`dirtiesBin, this`learnts
      modifies this`trail, this`assigns, this`vardata, this`qhead, this`simpDbProps, this`seen
      ensures |vardata| == old(|vardata|) && (if fine then Idle() && (old(Stock()) ==> Stock()) else Hopeless())
    {
      hide Running, Base, InConflict, Extends, TrailStocked;
      var confl, bound := PropagateRunning();
      if confl != UNDEF {
        RootConflicts(confl, bound);
        return false;
      }
      fine := SimplifyPass();
      if fine {
        fine := SimplifyPass();
      }
      if fine && old(Stock()) {
        IdleTrail();
        StockRoot(O(), old(T()), T());
      }
    }

    lemma IdleTrail()
      requires Idle()
      ensures Consistent(T()) && Leveled(T()) && trailLim == []
    {
    }

    lemma IdleClause(i: nat)
      requires Idle() && i < |learnts| && 0 <= learnts[i] < |ca|
      ensures Ready(S(), |trail|) && learnts[i] in live && Distinct(ca[learnts[i]]) && |ca[learnts[i]]| >= 2
    {
    }

    // ---------- importUnitClauses and importClauses ----------

    /** The literals without value, unless some literal is true. */
    method DropAssigned(c0: Clause) returns (sat: bool, c: Clause)
      requires Distinct(c0)
      ensures sat <==> SomeTrue(c0)
      ensures !sat ==> Distinct(c) && forall l :: l in c <==> l in c0 && l.v !in assigns
    {
      hide Compacting;
      c := c0;
      var i, j := 0, 0;
      ghost var kept: Clause := [];
      CompactStart(c0, 0);
      while i < |c|
        invariant i <= |c| == |c0| && Compacting(c, c0, i, j, kept)
        invariant Distinct(kept) && forall l :: l in kept <==> l in c0[..i] && l.v !in assigns
        invariant forall l :: l in c0[..i] ==> !True(l)
      {
        CompactNext(c, c0, i, j, kept);
        if True(c[i]) {
          return true, c;
        }
        if c[i].v !in assigns {
          DistinctKept(c0, i, kept);
          kept := kept + [c[i]];
          c := c[j := c[i]];
          j := j + 1;
        }
        i := i + 1;
      }
      CompactEnd(c, c0, i, j, kept);
      assert c0[..i] == c0;
      sat, c := false, c[..j];
    }

    /** Takes over a literal that follows from the formula; false means that it refutes the formula. */
    method ImportUnit(l: Lit) returns (fine: bool)
      requires Running() && |trailLim| == 0 && Importable(formula, |vardata|, [l])
      modifies this`trail, this`assigns, this`vardata
      ensures fine <==> !old(False(l))
      ensures |vardata| == old(|vardata|) && trailLim == old(trailLim)
      ensures if fine then Running() && True(l) && (old(Stock()) ==> Stock()) else Hopeless()
    {
      hide Running, Entails, TrailStocked;
      assert l in [l];
      fine := true;
      if l.v !in assigns {
        AssertUnit(l);
        if old(Stock()) {
          StockEnqueue(O(), old(T()), l, 0, UNDEF);
        }
      } else if False(l) {
        ImportRefutes([l]);
        fine := false;
      }
    }

    /** A clause that follows from the formula is false at level 0. */
    lemma ImportRefutes(c: Clause)
      requires Running() && |trailLim| == 0 && Entails(formula, c) && forall l :: l in c ==> False(l)
      ensures Hopeless()
    {
      hide Base, Entails;
      RunningReady();
      assert forall l :: l in c ==> T().False(l);
      FalseImported(S(), c);
    }

    /** What is left of the clause follows from the formula. */
    lemma ImportLeft(c0: Clause, c: Clause)
      requires Running() && |trailLim| == 0 && Importable(formula, |vardata|, c0) && !SomeTrue(c0)
      requires forall l :: l in c <==> l in c0 && l.v !in assigns
      ensures Entails(formula, c) && forall l :: l in c ==> l.v < |vardata| && l.v !in assigns
    {
      hide Base, Entails;
      RunningReady();
      assert forall l :: l in c0 && !T().False(l) ==> l in c;
      FalseLeft(S(), c0, c);
    }

    /** The stored clause at cr consists of the literals of c that had no value. */
    ghost predicate StoredAs(cr: int, c: Clause, valued: set<Var>)
      reads this`ca
    {
      0 <= cr < |ca| && forall l :: l in ca[cr] <==> l in c && l.v !in valued
    }

    /** Takes over a clause that follows from the formula: what is left of it at level 0 becomes a learnt clause or a
        fact of level 0, unless it is satisfied; false means that it refutes the formula. */
    method ImportClause(c0: Clause) returns (fine: bool)
      requires Running() && |trailLim| == 0 && Importable(formula, |vardata|, c0)
      modifies this`ca, this`live, this`watches, this`watchesBin, this`learnts, this`trail, this`assigns, this`vardata
      ensures fine <==> !old(forall l :: l in c0 ==> False(l))
      ensures |vardata| == old(|vardata|) && trailLim == old(trailLim)
      ensures if fine then Running() && (old(Stock()) ==> Stock()) else Hopeless()
      ensures old(SomeTrue(c0)) ==> T() == old(T()) && learnts == old(learnts)
      ensures fine && !old(SomeTrue(c0)) ==> SomeTrue(c0) || (learnts == old(learnts) + [old(|ca|)]
                                                              && StoredAs(old(|ca|), c0, old(assigns).Keys))
    {
      hide Running, Entails, TrailStocked, Distinct;
      fine := true;
      var sat, c := DropAssigned(c0);
      if sat {
        return;
      }
      ImportLeft(c0, c);
      if |c| == 0 {
        ImportRefutes(c0);
        fine := false;
      } else if |c| == 1 {
        assert c == [c[0]] && c[0] in c;
        fine := ImportUnit(c[0]);
      } else {
        assert c[0] in c;
        StoreLearnt(|learnts|, c);
      }
    }

    /** Empties the queue of units; what arrives there, and when, is up to the other solvers. */
    method ImportUnits(units: set<Lit>) returns (fine: bool)
      requires Running() && |trailLim| == 0
      requires forall l :: l in units ==> Importable(formula, |vardata|, [l])
      modifies this`trail, this`assigns, this`vardata
      ensures |vardata| == old(|vardata|) && trailLim == old(trailLim)
      ensures if fine then Running() && (old(Stock()) ==> Stock()) else Hopeless()
    {
      hide Running, Importable, TrailStocked;
      fine := true;
      var left: nat := *;
      while left > 0 && units != {}
        invariant fine && |vardata| == old(|vardata|)
        invariant Running() && (old(Stock()) ==> Stock())
      {
        var l :| l in units;
        left := left - 1;
        fine := ImportUnit(l);
        if !fine {
          return;
        }
      }
    }

    /** Empties the queue of clauses. */
    method ImportClauses(cs: set<Clause>) returns (fine: bool)
      requires Running() && |trailLim| == 0 && AllImportable(formula, |vardata|, cs)
      modifies this`ca, this`live, this`watches, this`watchesBin, this`learnts, this`trail, this`assigns, this`vardata
      ensures |vardata| == old(|vardata|) && trailLim == old(trailLim)
      ensures if fine then Running() && (old(Stock()) ==> Stock()) else Hopeless()
    {
      hide Running, Importable, TrailStocked;
      fine := true;
      var left: nat := *;
      while left > 0 && cs != {}
        invariant fine && |vardata| == old(|vardata|)
        invariant Running() && (old(Stock()) ==> Stock())
      {
        var c :| c in cs;
        left := left - 1;
        fine := ImportClause(c);
        if !fine {
          return;
        }
      }
    }

    /** At level 0, takes over what other solvers have handed over. */
    method Import(pool: Pool) returns (fine: bool)
      requires Running() && |trailLim| == 0 && pool.Sound(formula, |vardata|)
      modifies this`ca, this`live, this`watches, this`watchesBin, this`learnts, this`trail, this`assigns, this`vardata
      ensures |vardata| == old(|vardata|) && trailLim == old(trailLim)
      ensures if fine then Running() && (old(Stock()) ==> Stock()) else Hopeless()
    {
      hide Running, Importable, TrailStocked;
      fine := ImportUnits(pool.units);
      if fine {
        fine := ImportClauses(pool.clauses);
      }
    }
  }
}
