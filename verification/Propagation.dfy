/** One step of unit propagation: what visiting a single watcher keeps. */
module Propagation {
  import opened Cnf
  import opened Trails
  import opened Watching
  import opened Database

  ghost predicate Pending(ws: seq<Watcher>, cr: int) {
    exists k :: 0 <= k < |ws| && ws[k].cref == cr
  }

  /** Position q is being propagated: only the clauses of the pending watchers remain to be visited. */
  ghost predicate Visiting(t: Trail, ca: seq<Clause>, live: set<int>, q: nat, pending: seq<Watcher>) {
    && q < |t.lits| && (forall a :: 0 <= a < |t.lim| ==> t.lim[a] <= q)
    && TrailInv(t, ca, live) && ClausesOk(ca, live, |t.vardata|)
    && WatchInv(t, ca, live, q)
    && (forall cr :: cr in live && 0 <= cr < |ca| && !Pending(pending, cr) ==> WatchedOk(t, ca[cr], q))
  }

  lemma VisitingAssigned(t: Trail, ca: seq<Clause>, live: set<int>, q: nat, pending: seq<Watcher>)
    requires Visiting(t, ca, live, q, pending)
    ensures q < |t.lits| && t.True(t.lits[q]) && t.LevelAt(q) <= |t.lim|
    ensures forall a :: 0 <= a < |t.lim| ==> t.lim[a] <= q
    ensures ClausesOk(ca, live, |t.vardata|)
  {
  }

  lemma VisitingConsistent(t: Trail, ca: seq<Clause>, live: set<int>, q: nat, pending: seq<Watcher>)
    requires Visiting(t, ca, live, q, pending)
    ensures Consistent(t) && Leveled(t) && Justified(t, ca, live)
  {
  }

  lemma PendingSplit(x: Watcher, rest: seq<Watcher>, cr: int)
    ensures Pending([x] + rest, cr) ==> cr == x.cref || Pending(rest, cr)
  {
    if k :| 0 <= k < |[x] + rest| && ([x] + rest)[k].cref == cr {
      assert k > 0 ==> rest[k - 1].cref == cr;
    }
  }

  lemma TrueBlocks(t: Trail, c: Clause, l: Lit, q: nat)
    requires l in c && t.True(l) && (forall a :: 0 <= a < |t.lim| ==> t.lim[a] <= q)
    ensures WatchedOk(t, c, q)
  {
    assert Within(t, l, q);
  }

  lemma VisitedOne(t: Trail, ca: seq<Clause>, live: set<int>, q: nat, x: Watcher, rest: seq<Watcher>)
    requires Visiting(t, ca, live, q, [x] + rest)
    requires 0 <= x.cref < |ca| ==> WatchedOk(t, ca[x.cref], q)
    ensures Visiting(t, ca, live, q, rest)
  {
    forall cr | cr in live && 0 <= cr < |ca| && !Pending(rest, cr)
      ensures WatchedOk(t, ca[cr], q)
    {
      PendingSplit(x, rest, cr);
    }
  }

  /** Rearranging a clause that is no reason, or whose first literal stays first, keeps the trail invariant. */
  lemma RearrangeTrail(t: Trail, ca: seq<Clause>, live: set<int>, cr: int, c: Clause)
    requires TrailInv(t, ca, live) && 0 <= cr < |ca| && SameLits(c, ca[cr])
    requires c != [] && (c[0] == ca[cr][0] || |c| == 2 || !t.True(ca[cr][0]))
    ensures TrailInv(t, ca[cr := c], live)
  {
    var ca' := ca[cr := c];
    forall i | 0 <= i < |t.lits|
      ensures Antecedents(t, ca', live, i) && LevelIsMax(t, ca', i)
    {
      assert Antecedents(t, ca, live, i) && LevelIsMax(t, ca, i) && t.True(t.lits[i]);
    }
  }

  lemma RearrangeClauses(ca: seq<Clause>, live: set<int>, n: nat, cr: int, c: Clause)
    requires ClausesOk(ca, live, n) && 0 <= cr < |ca| && SameLits(c, ca[cr]) && (Distinct(ca[cr]) ==> Distinct(c))
    ensures ClausesOk(ca[cr := c], live, n)
  {
  }

  lemma VisitSwap(t: Trail, ca: seq<Clause>, live: set<int>, q: nat, pending: seq<Watcher>, cr: int)
    requires Visiting(t, ca, live, q, pending) && cr in live && 0 <= cr < |ca| && |ca[cr]| >= 2 && t.False(ca[cr][0])
    ensures Visiting(t, ca[cr := Swap(ca[cr], 0, 1)], live, q, pending)
  {
    var c := Swap(ca[cr], 0, 1);
    SwapLits(ca[cr], 0, 1);
    RearrangeTrail(t, ca, live, cr, c);
    RearrangeClauses(ca, live, |t.vardata|, cr, c);
    forall i | 0 <= i <= q
      ensures WatchedOk(t, ca[cr], i) ==> WatchedOk(t, c, i)
    {
      SwapWatched(t, ca[cr], i);
    }
  }

  lemma VisitMove(t: Trail, ca: seq<Clause>, live: set<int>, q: nat, x: Watcher, rest: seq<Watcher>, k: nat)
    requires Visiting(t, ca, live, q, [x] + rest) && x.cref in live && 0 <= x.cref < |ca|
    requires 2 <= k < |ca[x.cref]| && ca[x.cref][1] == Neg(t.lits[q]) && !t.False(ca[x.cref][k])
    ensures Visiting(t, ca[x.cref := Swap(ca[x.cref], 1, k)], live, q, rest)
  {
    var cr := x.cref;
    var c := Swap(ca[cr], 1, k);
    SwapLits(ca[cr], 1, k);
    RearrangeTrail(t, ca, live, cr, c);
    RearrangeClauses(ca, live, |t.vardata|, cr, c);
    forall i | 0 <= i < q
      ensures WatchedOk(t, ca[cr], i) ==> WatchedOk(t, c, i)
    {
      if WatchedOk(t, ca[cr], i) {
        MoveWatched(t, ca[cr], k, i);
      }
    }
    assert WatchedOk(t, c, q) by {
      assert t.True(t.lits[q]);
      assert c[0] != ca[cr][1];
    }
    VisitRest(t, ca, live, q, x, rest, c);
  }

  lemma VisitRest(t: Trail, ca: seq<Clause>, live: set<int>, q: nat, x: Watcher, rest: seq<Watcher>, c: Clause)
    requires Visiting(t, ca, live, q, [x] + rest) && 0 <= x.cref < |ca|
    requires TrailInv(t, ca[x.cref := c], live) && ClausesOk(ca[x.cref := c], live, |t.vardata|)
    requires forall i :: 0 <= i < q ==> WatchedOk(t, ca[x.cref], i) ==> WatchedOk(t, c, i)
    requires WatchedOk(t, c, q)
    ensures Visiting(t, ca[x.cref := c], live, q, rest)
  {
    forall cr | cr in live && 0 <= cr < |ca| && !Pending(rest, cr)
      ensures WatchedOk(t, ca[x.cref := c][cr], q)
    {
      PendingSplit(x, rest, cr);
    }
  }

  /** The clause implies one of its literals: enqueueing it finishes the visit. */
  lemma VisitUnit(t: Trail, ca: seq<Clause>, live: set<int>, q: nat, x: Watcher, rest: seq<Watcher>, p: Lit, level: nat)
    requires Visiting(t, ca, live, q, [x] + rest) && x.cref in live && 0 <= x.cref < |ca| && level <= |t.lim|
    requires Implies(t, ca[x.cref], p, level) && t.Undef(p)
    ensures p.v < |t.vardata|
    ensures Visiting(Enqueue(t, p, level, x.cref), ca, live, q, rest)
  {
    var t' := Enqueue(t, p, level, x.cref);
    EnqueueKeepsInv(t, p, level, x.cref, ca, live);
    EnqueueWatchInv(t, p, level, x.cref, ca, live, q);
    forall cr | cr in live && 0 <= cr < |ca| && !Pending([x] + rest, cr)
      ensures WatchedOk(t', ca[cr], q)
    {
      EnqueueWatched(t, p, level, x.cref, ca[cr], q);
    }
    TrueBlocks(t', ca[x.cref], p, q);
    VisitedOne(t', ca, live, q, x, rest);
  }

  /** A clause that is true by its first literal may watch any literal of at least the same level. */
  lemma VisitRewatch(t: Trail, ca: seq<Clause>, live: set<int>, q: nat, rest: seq<Watcher>, cr: int, k: nat)
    requires Visiting(t, ca, live, q, rest) && cr in live && 0 <= cr < |ca| && 1 < k < |ca[cr]|
    requires t.True(ca[cr][0]) && t.Level(ca[cr][0].v) <= t.Level(ca[cr][k].v)
    ensures Visiting(t, ca[cr := Swap(ca[cr], 1, k)], live, q, rest)
  {
    var c := Swap(ca[cr], 1, k);
    SwapLits(ca[cr], 1, k);
    RearrangeTrail(t, ca, live, cr, c);
    RearrangeClauses(ca, live, |t.vardata|, cr, c);
    forall i | 0 <= i <= q
      ensures WatchedOk(t, c, i)
    {
      UnitWatched(t, c, c[0], i);
    }
  }

  lemma AssignedLevel(t: Trail, l: Lit)
    requires Consistent(t) && Leveled(t) && (t.True(l) || t.False(l))
    ensures t.Level(l.v) <= |t.lim| && l.v < |t.vardata|
  {
    assert t.OnTrail(l.v);
    var j :| 0 <= j < |t.lits| && t.lits[j].v == l.v;
    assert t.LevelAt(j) <= |t.lim|;
  }

  /** A binary clause implies its other literal at the level of the literal being propagated. */
  lemma BinaryImplies(t: Trail, c: Clause, q: nat, other: Lit)
    requires Consistent(t) && q < |t.lits| && |c| == 2
    requires other in c && Neg(t.lits[q]) in c && other != Neg(t.lits[q])
    ensures Implies(t, c, other, t.LevelAt(q))
  {
    assert t.True(t.lits[q]) && t.False(Neg(t.lits[q]));
    assert forall l :: l in c <==> l == c[0] || l == c[1];
  }

  lemma ListedPending(a: seq<Watcher>, b: seq<Watcher>, cr: int)
    ensures Pending(a, cr) || Pending(b, cr) ==> Pending(a + b, cr)
  {
    if i :| 0 <= i < |a| && a[i].cref == cr {
      assert (a + b)[i].cref == cr;
    }
    if i :| 0 <= i < |b| && b[i].cref == cr {
      assert (a + b)[|a| + i].cref == cr;
    }
  }

  /** Visiting one binary watcher of the literal at position q. */
  lemma BinaryStep(t: Trail, ca: seq<Clause>, live: set<int>, problem: set<int>, f: set<Clause>,
                   q: nat, x: Watcher, rest: seq<Watcher>)
    requires Visiting(t, ca, live, q, [x] + rest) && Derived(t, ca, live, f) && Covering(t, ca, problem, f)
    requires 0 <= x.cref < |ca| && WatcherOk(ca, live, {}, true, t.lits[q], x)
    ensures t.False(x.blocker) ==> x.cref in live && t.AllFalse(ca[x.cref])
    ensures t.True(x.blocker) ==> Visiting(t, ca, live, q, rest)
    ensures t.Undef(x.blocker) ==>
              && x.blocker.v < |t.vardata|
              && Visiting(Enqueue(t, x.blocker, t.LevelAt(q), x.cref), ca, live, q, rest)
              && Derived(Enqueue(t, x.blocker, t.LevelAt(q), x.cref), ca, live, f)
              && Covering(Enqueue(t, x.blocker, t.LevelAt(q), x.cref), ca, problem, f)
  {
    var other, level := x.blocker, t.LevelAt(q);
    BinaryImplies(t, ca[x.cref], q, other);
    if t.True(other) {
      TrueBlocks(t, ca[x.cref], other, q);
      VisitedOne(t, ca, live, q, x, rest);
    } else if t.Undef(other) {
      assert t.LevelAt(q) <= |t.lim|;
      VisitUnit(t, ca, live, q, x, rest, other, level);
      ImpliedDerived(t, x.cref, other, level, ca, live, problem, f);
    }
  }

  /** Every clause with a watch falsified at position q is in one of the lists of that literal. */
  lemma StartVisit(t: Trail, ca: seq<Clause>, live: set<int>, q: nat, w: Lists, wb: Lists)
    requires q < |t.lits| && (forall a :: 0 <= a < |t.lim| ==> t.lim[a] <= q)
    requires TrailInv(t, ca, live) && ClausesOk(ca, live, |t.vardata|) && WatchInv(t, ca, live, q)
    requires AllListed(w, ca, live, false) && AllListed(wb, ca, live, true)
    ensures Visiting(t, ca, live, q, At(wb, t.lits[q]) + At(w, t.lits[q]))
  {
    var p, pending := t.lits[q], At(wb, t.lits[q]) + At(w, t.lits[q]);
    forall cr | cr in live && 0 <= cr < |ca| && !Pending(pending, cr)
      ensures WatchedOk(t, ca[cr], q)
    {
      var c := ca[cr];
      ListedPending(At(wb, p), At(w, p), cr);
      assert Listed(wb, p, cr) ==> Pending(At(wb, p), cr);
      assert Listed(w, p, cr) ==> Pending(At(w, p), cr);
    }
  }

  /** When nothing is pending, one more position has been propagated. */
  lemma VisitDone(t: Trail, ca: seq<Clause>, live: set<int>, q: nat)
    requires Visiting(t, ca, live, q, [])
    ensures WatchInv(t, ca, live, q + 1)
  {
  }

  /** In a clause found false while propagating position q, no watch was falsified before q. */
  lemma ConflictWatches(t: Trail, ca: seq<Clause>, live: set<int>, q: nat, pending: seq<Watcher>, cr: int, k: nat)
    requires Visiting(t, ca, live, q, pending) && cr in live && t.AllFalse(ca[cr]) && k < 2
    ensures exists i :: q <= i < |t.lits| && t.lits[i] == Neg(ca[cr][k])
  {
    var c := ca[cr];
    assert c[k] in c && t.False(c[k]);
    FalseIsBefore(t, c[k]);
    var i :| 0 <= i < |t.lits| && t.lits[i] == Neg(c[k]);
    if i < q {
      NotAllFalse(t, ca, live, cr, i, q);
    }
  }
}
