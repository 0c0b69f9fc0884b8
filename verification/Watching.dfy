/** Watch lists and the two-watched-literal invariant. */
module Watching {
  import opened Cnf
  import opened Trails
  import opened Backtracking

  datatype Watcher = Watcher(cref: int, blocker: Lit)

  type Lists = map<Lit, seq<Watcher>>

  function At(w: Lists, l: Lit): seq<Watcher> {
    if l in w then w[l] else []
  }

  function Push(w: Lists, l: Lit, x: Watcher): Lists {
    w[l := At(w, l) + [x]]
  }

  ghost predicate ClausesOk(ca: seq<Clause>, live: set<int>, n: nat) {
    forall cr :: cr in live ==>
      && 0 <= cr < |ca|
      && |ca[cr]| >= 2 && Distinct(ca[cr])
      && (forall q :: q in ca[cr] ==> q.v < n)
  }

  // ---------- The lists ----------

  /** A watcher in the list of l: its clause has ~l as one of its two watched literals. Lists
      awaiting cleanAll may also hold watchers of removed clauses. */
  ghost predicate WatcherOk(ca: seq<Clause>, live: set<int>, dirty: set<Lit>, bin: bool, l: Lit, x: Watcher) {
    if x.cref in live then
      && 0 <= x.cref < |ca| && |ca[x.cref]| >= 2 && (bin <==> |ca[x.cref]| == 2)
      && (ca[x.cref][0] == Neg(l) || ca[x.cref][1] == Neg(l))
      && x.blocker in ca[x.cref] && (bin ==> x.blocker != Neg(l))
    else
      l in dirty
  }

  ghost predicate Listed(w: Lists, l: Lit, cr: int) {
    exists i :: 0 <= i < |At(w, l)| && At(w, l)[i].cref == cr
  }

  ghost predicate NoRepeat(ws: seq<Watcher>) {
    forall i, j :: 0 <= i < j < |ws| ==> ws[i].cref != ws[j].cref
  }

  ghost predicate ListOk(ca: seq<Clause>, live: set<int>, dirty: set<Lit>, bin: bool, l: Lit, ws: seq<Watcher>) {
    && NoRepeat(ws)
    && (forall i :: 0 <= i < |ws| ==> 0 <= ws[i].cref < |ca| && WatcherOk(ca, live, dirty, bin, l, ws[i]))
  }

  ghost predicate ListsOk(w: Lists, ca: seq<Clause>, live: set<int>, dirty: set<Lit>, bin: bool) {
    forall l :: l in w ==> ListOk(ca, live, dirty, bin, l, w[l])
  }

  ghost predicate AllListed(w: Lists, ca: seq<Clause>, live: set<int>, bin: bool) {
    forall cr :: cr in live && 0 <= cr < |ca| && |ca[cr]| >= 2 && (bin <==> |ca[cr]| == 2) ==>
      Listed(w, Neg(ca[cr][0]), cr) && Listed(w, Neg(ca[cr][1]), cr)
  }

  /** The clauses of one kind (binary or longer) are listed exactly under the negations of their two watches. */
  ghost predicate Lists01(w: Lists, ca: seq<Clause>, live: set<int>, dirty: set<Lit>, bin: bool) {
    ListsOk(w, ca, live, dirty, bin) && AllListed(w, ca, live, bin)
  }

  // ---------- The watch invariant ----------

  /** q was true early enough to survive any backtracking that position i survives without being
      propagated again: its level is below every later level start. */
  ghost predicate Within(t: Trail, q: Lit, i: nat) {
    forall k :: 0 <= k < |t.lim| && i < t.lim[k] ==> t.Level(q.v) <= k
  }

  ghost predicate Blocked(t: Trail, c: Clause, i: nat) {
    exists q :: q in c && t.True(q) && Within(t, q, i)
  }

  /** If position i falsifies a watch of c, then c is true. */
  ghost predicate WatchedOk(t: Trail, c: Clause, i: nat) {
    |c| >= 2 && i < |t.lits| && (t.lits[i] == Neg(c[0]) || t.lits[i] == Neg(c[1])) ==> Blocked(t, c, i)
  }

  /** The positions below bound have been propagated. */
  ghost predicate WatchInv(t: Trail, ca: seq<Clause>, live: set<int>, bound: nat) {
    forall cr, i :: cr in live && 0 <= cr < |ca| && 0 <= i < bound ==> WatchedOk(t, ca[cr], i)
  }

  /** Propagation is complete: every clause has a true literal or two literals that are not false. */
  lemma WatchInvIsComplete(t: Trail, ca: seq<Clause>, live: set<int>, cr: int)
    requires Consistent(t) && ClausesOk(ca, live, |t.vardata|) && WatchInv(t, ca, live, |t.lits|)
    requires cr in live
    ensures (exists q :: q in ca[cr] && t.True(q)) || (!t.False(ca[cr][0]) && !t.False(ca[cr][1]))
  {
    var c := ca[cr];
    if k :| 0 <= k < 2 && t.False(c[k]) {
      FalseIsBefore(t, c[k]);
      var i :| 0 <= i < |t.lits| && t.lits[i] == Neg(c[k]);
      assert WatchedOk(t, c, i);
    }
  }

  /** A clause with a falsified watch below the bound is not entirely false. */
  lemma NotAllFalse(t: Trail, ca: seq<Clause>, live: set<int>, cr: int, i: nat, bound: nat)
    requires WatchInv(t, ca, live, bound) && cr in live && 0 <= cr < |ca| && |ca[cr]| >= 2
    requires i < bound && i < |t.lits| && (t.lits[i] == Neg(ca[cr][0]) || t.lits[i] == Neg(ca[cr][1]))
    ensures !t.AllFalse(ca[cr])
  {
    assert WatchedOk(t, ca[cr], i);
    assert Blocked(t, ca[cr], i);
  }

  lemma EnqueueWatched(t: Trail, p: Lit, level: nat, from: int, c: Clause, i: nat)
    requires p.v < |t.vardata| && t.Undef(p) && i < |t.lits| && WatchedOk(t, c, i)
    ensures WatchedOk(Enqueue(t, p, level, from), c, i)
  {
    var t' := Enqueue(t, p, level, from);
    if |c| >= 2 && (t.lits[i] == Neg(c[0]) || t.lits[i] == Neg(c[1])) {
      var q :| q in c && t.True(q) && Within(t, q, i);
      assert t'.True(q) && t'.Level(q.v) == t.Level(q.v);
      assert Within(t', q, i);
    }
  }

  lemma EnqueueWatchInv(t: Trail, p: Lit, level: nat, from: int, ca: seq<Clause>, live: set<int>, bound: nat)
    requires p.v < |t.vardata| && t.Undef(p) && bound <= |t.lits| && WatchInv(t, ca, live, bound)
    ensures WatchInv(Enqueue(t, p, level, from), ca, live, bound)
  {
    forall cr, i | cr in live && 0 <= cr < |ca| && 0 <= i < bound
      ensures WatchedOk(Enqueue(t, p, level, from), ca[cr], i)
    {
      EnqueueWatched(t, p, level, from, ca[cr], i);
    }
  }

  lemma NewLevelWatchInv(t: Trail, ca: seq<Clause>, live: set<int>)
    requires Consistent(t) && Leveled(t) && WatchInv(t, ca, live, |t.lits|)
    ensures WatchInv(NewLevel(t), ca, live, |t.lits|)
  {
    var t' := NewLevel(t);
    forall cr, i | cr in live && 0 <= cr < |ca| && 0 <= i < |t.lits|
      ensures WatchedOk(t', ca[cr], i)
    {
      var c := ca[cr];
      assert WatchedOk(t, c, i);
      if |c| >= 2 && (t.lits[i] == Neg(c[0]) || t.lits[i] == Neg(c[1])) {
        var q :| q in c && t.True(q) && Within(t, q, i);
        assert t.OnTrail(q.v);
        var j :| 0 <= j < |t.lits| && t.lits[j].v == q.v;
        assert t.LevelAt(j) <= |t.lim|;
        assert Within(t', q, i);
      }
    }
  }

  /** What is left of the trail before the start of level b + 1 stays propagated after backtracking to b,
      although the trail is not sorted by level. */
  lemma CancelWatchInv(t: Trail, ca: seq<Clause>, live: set<int>, b: nat)
    requires Leveled(t) && b < |t.lim| && WatchInv(t, ca, live, t.lim[b])
    ensures WatchInv(CancelUntil(t, b), ca, live, t.lim[b])
  {
    var t' := CancelUntil(t, b);
    CancelPrefix(t, b);
    forall cr, i | cr in live && 0 <= cr < |ca| && 0 <= i < t.lim[b]
      ensures WatchedOk(t', ca[cr], i)
    {
      var c := ca[cr];
      assert WatchedOk(t, c, i);
      if |c| >= 2 && (t.lits[i] == Neg(c[0]) || t.lits[i] == Neg(c[1])) {
        var q :| q in c && t.True(q) && Within(t, q, i);
        CancelValues(t, b, q);
        assert Within(t', q, i);
      }
    }
  }

  // ---------- Rearranging a clause ----------

  /** Exchanging the two watches. */
  lemma SwapWatched(t: Trail, c: Clause, i: nat)
    requires |c| >= 2
    ensures WatchedOk(t, c, i) ==> WatchedOk(t, Swap(c, 0, 1), i)
  {
    SwapLits(c, 0, 1);
    if WatchedOk(t, c, i) && Blocked(t, c, i) {
      var q :| q in c && t.True(q) && Within(t, q, i);
      assert q in Swap(c, 0, 1);
    }
  }

  /** Watching a literal that is not false instead of the second watch. */
  lemma MoveWatched(t: Trail, c: Clause, k: nat, i: nat)
    requires Consistent(t) && 2 <= k < |c| && !t.False(c[k]) && WatchedOk(t, c, i)
    ensures WatchedOk(t, Swap(c, 1, k), i)
  {
    SwapLits(c, 1, k);
    var d := Swap(c, 1, k);
    if i < |t.lits| && (t.lits[i] == Neg(d[0]) || t.lits[i] == Neg(d[1])) {
      assert t.True(t.lits[i]);
      assert t.lits[i] == Neg(c[0]);
      var q :| q in c && t.True(q) && Within(t, q, i);
      assert q in d;
    }
  }

  /** A clause whose first literal has just been implied at the level of its second one. */
  lemma UnitWatched(t: Trail, c: Clause, p: Lit, i: nat)
    requires Consistent(t) && Leveled(t) && |c| >= 2 && c[0] == p && t.True(p)
    requires t.Level(p.v) <= t.Level(c[1].v)
    ensures WatchedOk(t, c, i)
  {
    if i < |t.lits| && (t.lits[i] == Neg(c[0]) || t.lits[i] == Neg(c[1])) {
      assert t.True(t.lits[i]);
      assert t.LevelAt(i) == t.Level(c[1].v);
      assert Within(t, p, i);
      assert p in c;
    }
  }

  // ---------- The lists under the same rearrangements ----------

  lemma ListedPush(w: Lists, l: Lit, x: Watcher, l': Lit, cr: int)
    requires Listed(w, l', cr) || (l' == l && cr == x.cref)
    ensures Listed(Push(w, l, x), l', cr)
  {
    var w' := Push(w, l, x);
    if Listed(w, l', cr) {
      var i :| 0 <= i < |At(w, l')| && At(w, l')[i].cref == cr;
      assert At(w', l')[i].cref == cr;
    } else {
      assert At(w', l)[|At(w, l)|] == x;
    }
  }

  /** Exchanging the two watches of a clause. */
  lemma SwapLists(w: Lists, ca: seq<Clause>, live: set<int>, dirty: set<Lit>, bin: bool, cr: int)
    requires Lists01(w, ca, live, dirty, bin) && 0 <= cr < |ca| && |ca[cr]| >= 2
    ensures Lists01(w, ca[cr := Swap(ca[cr], 0, 1)], live, dirty, bin)
  {
    SwapLits(ca[cr], 0, 1);
    var ca' := ca[cr := Swap(ca[cr], 0, 1)];
    forall l | l in w
      ensures ListOk(ca', live, dirty, bin, l, w[l])
    {
      assert ListOk(ca, live, dirty, bin, l, w[l]);
    }
  }

  lemma ListReplaced(ca: seq<Clause>, live: set<int>, l: Lit, a: seq<Watcher>, x: Watcher, y: Watcher, z: seq<Watcher>)
    requires ListOk(ca, live, {}, false, l, a + [x] + z)
    requires x.cref == y.cref && (x.cref in live && 0 <= x.cref < |ca| ==> y.blocker in ca[x.cref])
    ensures ListOk(ca, live, {}, false, l, a + [y] + z)
  {
    var v, v' := a + [x] + z, a + [y] + z;
    assert v[|a|] == x;
    forall i | 0 <= i < |v'|
      ensures v'[i].cref == v[i].cref && (i != |a| ==> v'[i] == v[i])
    {
    }
  }

  lemma ListDropped(ca: seq<Clause>, live: set<int>, dirty: set<Lit>, bin: bool, l: Lit, a: seq<Watcher>, x: Watcher,
                    z: seq<Watcher>)
    requires ListOk(ca, live, dirty, bin, l, a + [x] + z)
    ensures ListOk(ca, live, dirty, bin, l, a + z)
    ensures forall i :: 0 <= i < |a + z| ==> (a + z)[i].cref != x.cref
  {
    var v, v' := a + [x] + z, a + z;
    assert v[|a|] == x;
    forall i | 0 <= i < |v'|
      ensures v'[i] == v[if i < |a| then i else i + 1]
    {
    }
  }

  /** Reordering a clause whose watches stay put, or that is not in the list. */
  lemma ListReordered(ca: seq<Clause>, live: set<int>, dirty: set<Lit>, bin: bool, l: Lit, ws: seq<Watcher>, cr: int,
                      c: Clause)
    requires ListOk(ca, live, dirty, bin, l, ws) && 0 <= cr < |ca| && |ca[cr]| >= 2 && SameLits(c, ca[cr])
    requires (forall i :: 0 <= i < |ws| ==> ws[i].cref != cr) || c[0] == Neg(l) || c[1] == Neg(l)
    ensures ListOk(ca[cr := c], live, dirty, bin, l, ws)
  {
  }

  lemma ListPushed(ca: seq<Clause>, live: set<int>, dirty: set<Lit>, bin: bool, l: Lit, ws: seq<Watcher>, y: Watcher)
    requires ListOk(ca, live, dirty, bin, l, ws) && 0 <= y.cref < |ca| && WatcherOk(ca, live, dirty, bin, l, y)
    requires forall i :: 0 <= i < |ws| ==> ws[i].cref != y.cref
    ensures ListOk(ca, live, dirty, bin, l, ws + [y])
  {
  }

  /** Reordering a clause of the other kind. */
  lemma OtherKindReordered(w: Lists, ca: seq<Clause>, live: set<int>, dirty: set<Lit>, bin: bool, cr: int, c: Clause)
    requires Lists01(w, ca, live, dirty, bin) && 0 <= cr < |ca| && |c| == |ca[cr]| >= 2 && !(bin <==> |c| == 2)
    ensures Lists01(w, ca[cr := c], live, dirty, bin)
  {
    forall l | l in w
      ensures ListOk(ca[cr := c], live, dirty, bin, l, w[l])
    {
      assert ListOk(ca, live, dirty, bin, l, w[l]);
    }
  }

  /** The current watcher stays in its list, with another blocker. */
  lemma KeepLists(w: Lists, ca: seq<Clause>, live: set<int>, p: Lit, a: seq<Watcher>, x: Watcher, y: Watcher,
                  z: seq<Watcher>)
    requires Lists01(w[p := a + [x] + z], ca, live, {}, false)
    requires x.cref == y.cref && (x.cref in live && 0 <= x.cref < |ca| ==> y.blocker in ca[x.cref])
    ensures Lists01(w[p := a + [y] + z], ca, live, {}, false)
  {
    var v: Lists, v': Lists := w[p := a + [x] + z], w[p := a + [y] + z];
    forall l | l in v'
      ensures ListOk(ca, live, {}, false, l, v'[l])
    {
      assert ListOk(ca, live, {}, false, l, v[l]);
      if l == p {
        ListReplaced(ca, live, p, a, x, y, z);
      }
    }
    forall cr | cr in live && 0 <= cr < |ca| && |ca[cr]| > 2
      ensures Listed(v', Neg(ca[cr][0]), cr) && Listed(v', Neg(ca[cr][1]), cr)
    {
      KeptListed(v, v', p, a, x, y, z, Neg(ca[cr][0]), cr);
      KeptListed(v, v', p, a, x, y, z, Neg(ca[cr][1]), cr);
    }
  }

  lemma KeptListed(v: Lists, v': Lists, p: Lit, a: seq<Watcher>, x: Watcher, y: Watcher, z: seq<Watcher>, l: Lit,
                   cr: int)
    requires p in v && v[p] == a + [x] + z && v' == v[p := a + [y] + z] && x.cref == y.cref
    requires Listed(v, l, cr)
    ensures Listed(v', l, cr)
  {
    var i :| 0 <= i < |At(v, l)| && At(v, l)[i].cref == cr;
    assert At(v', l)[i].cref == cr;
  }

  /** The current watcher leaves its list: its clause watches the literal at position k instead. */
  lemma MoveLists(w: Lists, ca: seq<Clause>, live: set<int>, p: Lit, a: seq<Watcher>, x: Watcher, y: Watcher,
                  z: seq<Watcher>, k: nat)
    requires Lists01(w[p := a + [x] + z], ca, live, {}, false)
    requires x.cref == y.cref && x.cref in live && 0 <= x.cref < |ca| && 2 <= k < |ca[x.cref]|
    requires ca[x.cref][1] == Neg(p) && Distinct(ca[x.cref]) && y.blocker in ca[x.cref]
    ensures Lists01(Push(w, Neg(ca[x.cref][k]), y)[p := a + z], ca[x.cref := Swap(ca[x.cref], 1, k)], live, {}, false)
  {
    MoveListsOk(w, ca, live, p, a, x, y, z, k);
    MoveAllListed(w, ca, live, p, a, x, y, z, k);
  }

  lemma MoveListsOk(w: Lists, ca: seq<Clause>, live: set<int>, p: Lit, a: seq<Watcher>, x: Watcher, y: Watcher,
                    z: seq<Watcher>, k: nat)
    requires ListsOk(w[p := a + [x] + z], ca, live, {}, false)
    requires x.cref == y.cref && x.cref in live && 0 <= x.cref < |ca| && 2 <= k < |ca[x.cref]|
    requires ca[x.cref][1] == Neg(p) && Distinct(ca[x.cref]) && y.blocker in ca[x.cref]
    ensures ListsOk(Push(w, Neg(ca[x.cref][k]), y)[p := a + z], ca[x.cref := Swap(ca[x.cref], 1, k)], live, {}, false)
  {
    var v: Lists, v': Lists := w[p := a + [x] + z], Push(w, Neg(ca[x.cref][k]), y)[p := a + z];
    assert Neg(ca[x.cref][k]) != p;
    forall l | l in v'
      ensures ListOk(ca[x.cref := Swap(ca[x.cref], 1, k)], live, {}, false, l, v'[l])
    {
      assert ListOk(ca, live, {}, false, l, At(v, l));
      MovedList(At(v, l), ca, live, p, a, x, y, z, k, l);
    }
  }

  lemma MoveAllListed(w: Lists, ca: seq<Clause>, live: set<int>, p: Lit, a: seq<Watcher>, x: Watcher, y: Watcher,
                      z: seq<Watcher>, k: nat)
    requires AllListed(w[p := a + [x] + z], ca, live, false)
    requires x.cref == y.cref && 0 <= x.cref < |ca| && 2 <= k < |ca[x.cref]|
    requires ca[x.cref][1] == Neg(p) && Distinct(ca[x.cref])
    ensures AllListed(Push(w, Neg(ca[x.cref][k]), y)[p := a + z], ca[x.cref := Swap(ca[x.cref], 1, k)], live, false)
  {
    var v: Lists, v': Lists := w[p := a + [x] + z], Push(w, Neg(ca[x.cref][k]), y)[p := a + z];
    var ca' := ca[x.cref := Swap(ca[x.cref], 1, k)];
    assert Neg(ca[x.cref][k]) != p;
    forall cr | cr in live && 0 <= cr < |ca'| && |ca'[cr]| > 2
      ensures Listed(v', Neg(ca'[cr][0]), cr) && Listed(v', Neg(ca'[cr][1]), cr)
    {
      MovedListed(v, v', ca, p, a, x, y, z, k, cr);
    }
  }

  lemma MovedListed(v: Lists, v': Lists, ca: seq<Clause>, p: Lit, a: seq<Watcher>, x: Watcher, y: Watcher,
                    z: seq<Watcher>, k: nat, cr: int)
    requires x.cref == y.cref && 0 <= x.cref < |ca| && 2 <= k < |ca[x.cref]|
    requires ca[x.cref][1] == Neg(p) && Distinct(ca[x.cref]) && Neg(ca[x.cref][k]) != p
    requires p in v && v[p] == a + [x] + z && p in v' && v'[p] == a + z
    requires forall l :: l != p ==> At(v', l) == At(v, l) + (if l == Neg(ca[x.cref][k]) then [y] else [])
    requires 0 <= cr < |ca| && |ca[cr]| > 2 && Listed(v, Neg(ca[cr][0]), cr) && Listed(v, Neg(ca[cr][1]), cr)
    ensures Listed(v', Neg(ca[x.cref := Swap(ca[x.cref], 1, k)][cr][0]), cr)
    ensures Listed(v', Neg(ca[x.cref := Swap(ca[x.cref], 1, k)][cr][1]), cr)
  {
    StillListed(v, v', p, a, x, z, Neg(ca[cr][0]), cr);
    if cr == x.cref {
      var l1 := Neg(ca[cr][k]);
      assert At(v', l1)[|At(v, l1)|] == y;
    } else {
      StillListed(v, v', p, a, x, z, Neg(ca[cr][1]), cr);
    }
  }

  lemma MovedList(ws: seq<Watcher>, ca: seq<Clause>, live: set<int>, p: Lit, a: seq<Watcher>, x: Watcher, y: Watcher,
                  z: seq<Watcher>, k: nat, l: Lit)
    requires x.cref == y.cref && x.cref in live && 0 <= x.cref < |ca| && 2 <= k < |ca[x.cref]|
    requires ca[x.cref][1] == Neg(p) && Distinct(ca[x.cref]) && y.blocker in ca[x.cref]
    requires ListOk(ca, live, {}, false, l, ws) && (l == p ==> ws == a + [x] + z)
    ensures ListOk(ca[x.cref := Swap(ca[x.cref], 1, k)], live, {}, false, l,
                   if l == p then a + z else if l == Neg(ca[x.cref][k]) then ws + [y] else ws)
  {
    var cr := x.cref;
    var d := Swap(ca[cr], 1, k);
    var ca' := ca[cr := d];
    SwapLits(ca[cr], 1, k);
    if l == p {
      ListDropped(ca, live, {}, false, p, a, x, z);
      ListReordered(ca, live, {}, false, p, a + z, cr, d);
    } else {
      if l != Neg(d[0]) {
        NotWatched(ca, live, {}, false, l, ws, cr);
      }
      ListReordered(ca, live, {}, false, l, ws, cr, d);
      if l == Neg(d[1]) {
        ListPushed(ca', live, {}, false, l, ws, y);
      }
    }
  }

  lemma NotWatched(ca: seq<Clause>, live: set<int>, dirty: set<Lit>, bin: bool, l: Lit, ws: seq<Watcher>, cr: int)
    requires ListOk(ca, live, dirty, bin, l, ws) && cr in live && 0 <= cr < |ca| && |ca[cr]| >= 2
    requires ca[cr][0] != Neg(l) && ca[cr][1] != Neg(l)
    ensures forall i :: 0 <= i < |ws| ==> ws[i].cref != cr
  {
    forall i | 0 <= i < |ws|
      ensures ws[i].cref != cr
    {
      assert WatcherOk(ca, live, dirty, bin, l, ws[i]);
    }
  }

  lemma StillListed(v: Lists, v': Lists, p: Lit, a: seq<Watcher>, x: Watcher, z: seq<Watcher>, l: Lit, cr: int)
    requires p in v && v[p] == a + [x] + z && p in v' && v'[p] == a + z
    requires l != p ==> At(v, l) <= At(v', l)
    requires Listed(v, l, cr) && (l == p ==> cr != x.cref)
    ensures Listed(v', l, cr)
  {
    var i :| 0 <= i < |At(v, l)| && At(v, l)[i].cref == cr;
    var j := if l == p && i > |a| then i - 1 else i;
    assert At(v', l)[j] == At(v, l)[i];
  }

  lemma ListArena(ca: seq<Clause>, live: set<int>, dirty: set<Lit>, bin: bool, l: Lit, ws: seq<Watcher>, c: Clause)
    requires ListOk(ca, live, dirty, bin, l, ws)
    ensures ListOk(ca + [c], live + {|ca|}, dirty, bin, l, ws)
    ensures forall i :: 0 <= i < |ws| ==> ws[i].cref != |ca|
  {
    forall i | 0 <= i < |ws|
      ensures WatcherOk(ca + [c], live + {|ca|}, dirty, bin, l, ws[i])
    {
      assert WatcherOk(ca, live, dirty, bin, l, ws[i]);
    }
  }

  /** attachClause. */
  lemma AttachLists(w: Lists, ca: seq<Clause>, live: set<int>, dirty: set<Lit>, bin: bool, c: Clause)
    requires Lists01(w, ca, live, dirty, bin)
    requires |c| >= 2 && Distinct(c) && (bin <==> |c| == 2)
    ensures Lists01(Push(Push(w, Neg(c[0]), Watcher(|ca|, c[1])), Neg(c[1]), Watcher(|ca|, c[0])),
                    ca + [c], live + {|ca|}, dirty, bin)
  {
    var x0, x1 := Watcher(|ca|, c[1]), Watcher(|ca|, c[0]);
    var w1 := Push(w, Neg(c[0]), x0);
    var w2 := Push(w1, Neg(c[1]), x1);
    var ca', live' := ca + [c], live + {|ca|};
    assert c[0] != c[1];
    forall l | l in w2
      ensures ListOk(ca', live', dirty, bin, l, w2[l])
    {
      assert ListOk(ca, live, dirty, bin, l, At(w, l));
      ListArena(ca, live, dirty, bin, l, At(w, l), c);
      if l == Neg(c[0]) {
        ListPushed(ca', live', dirty, bin, l, At(w, l), x0);
      } else if l == Neg(c[1]) {
        ListPushed(ca', live', dirty, bin, l, At(w, l), x1);
      }
    }
    forall cr | cr in live' && 0 <= cr < |ca'| && (bin <==> |ca'[cr]| == 2) && |ca'[cr]| >= 2
      ensures Listed(w2, Neg(ca'[cr][0]), cr) && Listed(w2, Neg(ca'[cr][1]), cr)
    {
      assert cr < |ca| ==> ca'[cr] == ca[cr];
      ListedPush(w, Neg(c[0]), x0, Neg(ca'[cr][0]), cr);
      ListedPush(w1, Neg(c[1]), x1, Neg(ca'[cr][0]), cr);
      if cr < |ca| {
        ListedPush(w, Neg(c[0]), x0, Neg(ca'[cr][1]), cr);
      }
      ListedPush(w1, Neg(c[1]), x1, Neg(ca'[cr][1]), cr);
    }
  }

  /** A new clause of the other kind leaves the lists alone. */
  lemma OtherKindLists(w: Lists, ca: seq<Clause>, live: set<int>, dirty: set<Lit>, bin: bool, c: Clause)
    requires Lists01(w, ca, live, dirty, bin) && |c| >= 2 && !(bin <==> |c| == 2)
    ensures Lists01(w, ca + [c], live + {|ca|}, dirty, bin)
  {
    forall l | l in w
      ensures ListOk(ca + [c], live + {|ca|}, dirty, bin, l, w[l])
    {
      ListArena(ca, live, dirty, bin, l, w[l], c);
    }
  }

  // ---------- Lazy removal ----------

  /** The watchers whose clauses are still in use. */
  function Cleaned(ws: seq<Watcher>, live: set<int>): seq<Watcher> {
    if ws == [] then []
    else Cleaned(ws[..|ws| - 1], live) + (if ws[|ws| - 1].cref in live then [ws[|ws| - 1]] else [])
  }

  lemma CleanedNone(live: set<int>)
    ensures Cleaned([], live) == []
  {
  }

  lemma CleanedNext(ws: seq<Watcher>, i: nat, live: set<int>)
    requires i < |ws|
    ensures Cleaned(ws[..i + 1], live) == Cleaned(ws[..i], live) + (if ws[i].cref in live then [ws[i]] else [])
  {
    assert ws[..i + 1][..i] == ws[..i];
  }

  lemma {:induction false} CleanedExact(ws: seq<Watcher>, live: set<int>)
    ensures forall x :: x in Cleaned(ws, live) <==> x in ws && x.cref in live
    ensures NoRepeat(ws) ==> NoRepeat(Cleaned(ws, live))
  {
    if ws != [] {
      var front, last := ws[..|ws| - 1], ws[|ws| - 1];
      CleanedExact(front, live);
      var r := Cleaned(front, live);
      assert forall x :: x in ws <==> x in front || x == last;
      if NoRepeat(ws) {
        assert forall i :: 0 <= i < |r| ==> r[i] in front;
        assert forall i :: 0 <= i < |r| ==> r[i].cref != last.cref;
      }
    }
  }

  lemma CleanedList(ca: seq<Clause>, live: set<int>, dirty: set<Lit>, bin: bool, l: Lit, ws: seq<Watcher>)
    requires ListOk(ca, live, dirty, bin, l, ws)
    ensures ListOk(ca, live, {}, bin, l, Cleaned(ws, live))
  {
    CleanedExact(ws, live);
    var r := Cleaned(ws, live);
    forall i | 0 <= i < |r|
      ensures 0 <= r[i].cref < |ca| && WatcherOk(ca, live, {}, bin, l, r[i])
    {
      assert r[i] in ws;
    }
  }

  lemma ListOkDirtier(ca: seq<Clause>, live: set<int>, dirty: set<Lit>, dirty': set<Lit>, bin: bool, l: Lit,
                      ws: seq<Watcher>)
    requires ListOk(ca, live, dirty, bin, l, ws) && (l in dirty ==> l in dirty')
    ensures ListOk(ca, live, dirty', bin, l, ws)
  {
  }

  lemma CleanLists(w: Lists, ca: seq<Clause>, live: set<int>, dirty: set<Lit>, bin: bool, l: Lit)
    requires Lists01(w, ca, live, dirty, bin)
    ensures Lists01(w[l := Cleaned(At(w, l), live)], ca, live, dirty - {l}, bin)
  {
    hide ListOk;
    var w' := w[l := Cleaned(At(w, l), live)];
    forall l' | l' in w'
      ensures ListOk(ca, live, dirty - {l}, bin, l', w'[l'])
    {
      EmptyListOk(ca, live, dirty, bin, l');
      if l' == l {
        CleanedList(ca, live, dirty, bin, l, At(w, l));
        ListOkDirtier(ca, live, {}, dirty - {l}, bin, l, w'[l]);
      } else {
        ListOkDirtier(ca, live, dirty, dirty - {l}, bin, l', w'[l']);
      }
    }
    CleanedExact(At(w, l), live);
    forall cr, l' | cr in live && Listed(w, l', cr)
      ensures Listed(w', l', cr)
    {
      var i :| 0 <= i < |At(w, l')| && At(w, l')[i].cref == cr;
      var x := At(w, l')[i];
      assert x in At(w', l');
    }
  }

  lemma EmptyListOk(ca: seq<Clause>, live: set<int>, dirty: set<Lit>, bin: bool, l: Lit)
    ensures ListOk(ca, live, dirty, bin, l, [])
  {
  }
}
