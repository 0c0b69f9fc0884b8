/** Taking a clause out of its watch lists at once, and putting a shorter one in its place. */
module Simplifying {
  import opened Cnf
  import opened Trails
  import opened Watching
  import opened Database
  import opened Kernel
  import opened Steps
  import opened Forgetting
  import opened Adding

  /** A list with the watcher of cr taken out. */
  ghost predicate TakenOut(ws: seq<Watcher>, cr: int, ws': seq<Watcher>) {
    exists j :: 0 <= j < |ws| && ws[j].cref == cr && ws' == ws[..j] + ws[j + 1..]
  }

  lemma TakenOutList(ca: seq<Clause>, live: set<int>, dirty: set<Lit>, bin: bool, l: Lit, ws: seq<Watcher>, cr: int,
                     ws': seq<Watcher>)
    requires ListOk(ca, live, dirty, bin, l, ws) && TakenOut(ws, cr, ws')
    ensures ListOk(ca, live - {cr}, dirty, bin, l, ws')
    ensures forall i :: 0 <= i < |ws| && ws[i].cref != cr ==> ws[i] in ws'
  {
    hide WatcherOk, NoRepeat;
    var j :| 0 <= j < |ws| && ws[j].cref == cr && ws' == ws[..j] + ws[j + 1..];
    Rejoin(ws, j);
    ListDropped(ca, live, dirty, bin, l, ws[..j], ws[j], ws[j + 1..]);
    OtherWatchers(ca, live, dirty, bin, l, ws', cr);
    TakenOutKeeps(ws, j);
  }

  lemma Rejoin(ws: seq<Watcher>, j: nat)
    requires j < |ws|
    ensures ws[..j] + [ws[j]] + ws[j + 1..] == ws
  {
  }

  lemma TakenOutKeeps(ws: seq<Watcher>, j: nat)
    requires j < |ws|
    ensures forall i :: 0 <= i < |ws| && i != j ==> ws[i] in ws[..j] + ws[j + 1..]
  {
    var ws' := ws[..j] + ws[j + 1..];
    forall i | 0 <= i < |ws| && i != j
      ensures ws[i] in ws'
    {
      assert ws'[if i < j then i else i - 1] == ws[i];
    }
  }

  /** A list without watchers of cr does not depend on it. */
  lemma OtherWatchers(ca: seq<Clause>, live: set<int>, dirty: set<Lit>, bin: bool, l: Lit, ws: seq<Watcher>, cr: int)
    requires ListOk(ca, live, dirty, bin, l, ws) && forall i :: 0 <= i < |ws| ==> ws[i].cref != cr
    ensures ListOk(ca, live - {cr}, dirty, bin, l, ws)
  {
    forall i | 0 <= i < |ws|
      ensures WatcherOk(ca, live - {cr}, dirty, bin, l, ws[i])
    {
      assert WatcherOk(ca, live, dirty, bin, l, ws[i]);
    }
  }

  /** The lists of its kind once the clause has been taken out of both of its lists. */
  lemma DetachLists(w: Lists, ca: seq<Clause>, live: set<int>, dirty: set<Lit>, bin: bool, cr: int, ws0: seq<Watcher>,
                    ws1: seq<Watcher>)
    requires Lists01(w, ca, live, dirty, bin) && cr in live && 0 <= cr < |ca| && |ca[cr]| >= 2 && Distinct(ca[cr])
    requires TakenOut(At(w, Neg(ca[cr][0])), cr, ws0) && TakenOut(At(w, Neg(ca[cr][1])), cr, ws1)
    ensures Lists01(w[Neg(ca[cr][0]) := ws0][Neg(ca[cr][1]) := ws1], ca, live - {cr}, dirty, bin)
  {
    hide ListOk, TakenOut;
    var l0, l1 := Neg(ca[cr][0]), Neg(ca[cr][1]);
    var w': Lists := w[l0 := ws0][l1 := ws1];
    assert l0 != l1;
    forall l
      ensures ListOk(ca, live, dirty, bin, l, At(w, l))
    {
      EmptyListOk(ca, live, dirty, bin, l);
    }
    forall l | l in w'
      ensures ListOk(ca, live - {cr}, dirty, bin, l, w'[l])
    {
      if l == l0 || l == l1 {
        TakenOutList(ca, live, dirty, bin, l, At(w, l), cr, w'[l]);
      } else {
        NotWatched(ca, live, dirty, bin, l, w[l], cr);
        OtherWatchers(ca, live, dirty, bin, l, w[l], cr);
      }
    }
    forall cr2 | cr2 in live - {cr} && 0 <= cr2 < |ca| && |ca[cr2]| >= 2 && (bin <==> |ca[cr2]| == 2)
      ensures Listed(w', Neg(ca[cr2][0]), cr2) && Listed(w', Neg(ca[cr2][1]), cr2)
    {
      DetachListed(w, w', ca, live, dirty, bin, cr, Neg(ca[cr2][0]), cr2);
      DetachListed(w, w', ca, live, dirty, bin, cr, Neg(ca[cr2][1]), cr2);
    }
  }

  lemma DetachListed(w: Lists, w': Lists, ca: seq<Clause>, live: set<int>, dirty: set<Lit>, bin: bool, cr: int, l: Lit,
                     cr2: int)
    requires Listed(w, l, cr2) && cr2 != cr && ListOk(ca, live, dirty, bin, l, At(w, l))
    requires At(w', l) == At(w, l) || TakenOut(At(w, l), cr, At(w', l))
    ensures Listed(w', l, cr2)
  {
    var i :| 0 <= i < |At(w, l)| && At(w, l)[i].cref == cr2;
    if At(w', l) != At(w, l) {
      TakenOutList(ca, live, dirty, bin, l, At(w, l), cr, At(w', l));
      var j :| 0 <= j < |At(w', l)| && At(w', l)[j] == At(w, l)[i];
    }
  }

  /** The clause is taken out of its two watch lists and out of use. */
  ghost predicate Detached(s: State, cr: int, s': State)
    requires 0 <= cr < |s.ca| && |s.ca[cr]| >= 2
  {
    var l0, l1 := Neg(s.ca[cr][0]), Neg(s.ca[cr][1]);
    if |s.ca[cr]| == 2 then
      && s' == s.(live := s.live - {cr}, wb := s'.wb)
      && exists ws0, ws1 :: TakenOut(At(s.wb, l0), cr, ws0) && TakenOut(At(s.wb, l1), cr, ws1)
                            && s'.wb == s.wb[l0 := ws0][l1 := ws1]
    else
      && s' == s.(live := s.live - {cr}, w := s'.w)
      && exists ws0, ws1 :: TakenOut(At(s.w, l0), cr, ws0) && TakenOut(At(s.w, l1), cr, ws1)
                            && s'.w == s.w[l0 := ws0][l1 := ws1]
  }

  lemma DetachListing(s: State, cr: int, s': State)
    requires Listing(s) && cr in s.live && 0 <= cr < |s.ca| && |s.ca[cr]| >= 2 && Distinct(s.ca[cr])
    requires Detached(s, cr, s')
    ensures Listing(s')
  {
    hide Lists01;
    var l0, l1 := Neg(s.ca[cr][0]), Neg(s.ca[cr][1]);
    if |s.ca[cr]| == 2 {
      var ws0, ws1 :| TakenOut(At(s.wb, l0), cr, ws0) && TakenOut(At(s.wb, l1), cr, ws1)
          && s'.wb == s.wb[l0 := ws0][l1 := ws1];
      DetachLists(s.wb, s.ca, s.live, s.dirtyBin, true, cr, ws0, ws1);
      RemovedLists(s.w, s.ca, s.live, s.dirty, false, cr, {});
      assert s.dirty + {} == s.dirty;
    } else {
      var ws0, ws1 :| TakenOut(At(s.w, l0), cr, ws0) && TakenOut(At(s.w, l1), cr, ws1)
          && s'.w == s.w[l0 := ws0][l1 := ws1];
      DetachLists(s.w, s.ca, s.live, s.dirty, false, cr, ws0, ws1);
      RemovedLists(s.wb, s.ca, s.live, s.dirtyBin, true, cr, {});
      assert s.dirtyBin + {} == s.dirtyBin;
    }
  }

  /** A clause without true literals is nobody's reason. */
  lemma NoReason(s: State, qhead: nat, cr: int)
    requires Ready(s, qhead) && cr in s.live && 0 <= cr < |s.ca| && forall l :: l in s.ca[cr] ==> !s.t.True(l)
    ensures forall i :: 0 <= i < |s.t.lits| ==> s.t.Reason(s.t.lits[i].v) != cr
  {
    hide Listing, Stored, WatchInv;
    forall i | 0 <= i < |s.t.lits|
      ensures s.t.Reason(s.t.lits[i].v) != cr
    {
      assert Antecedents(s.t, s.ca, s.live, i) && s.t.True(s.t.lits[i]);
    }
  }

  /** A learnt clause without true literals may be detached. */
  lemma DetachReady(s: State, qhead: nat, cr: int, s': State)
    requires Ready(s, qhead) && cr in s.live && cr !in s.problem && 0 <= cr < |s.ca| && |s.ca[cr]| >= 2
    requires (forall l :: l in s.ca[cr] ==> !s.t.True(l)) && Detached(s, cr, s')
    ensures Ready(s', qhead)
  {
    hide TrailInv, Lists01, Stored, WatchedOk, Detached;
    NoReason(s, qhead, cr);
    RemovedTrail(s, cr);
    DetachListing(s, cr, s');
    DetachedParts(s, cr, s');
    FewerStored(s, cr, s');
  }

  lemma FewerStored(s: State, cr: int, s': State)
    requires Stored(s) && cr !in s.problem && s' == s.(live := s.live - {cr}, w := s'.w, wb := s'.wb)
    ensures Stored(s')
  {
  }

  lemma DetachedParts(s: State, cr: int, s': State)
    requires 0 <= cr < |s.ca| && |s.ca[cr]| >= 2 && Detached(s, cr, s')
    ensures s' == s.(live := s.live - {cr}, w := s'.w, wb := s'.wb)
  {
  }

  /** At level 0, with everything propagated, what is not false in a clause that is not satisfied is unassigned, at
      least two literals of it, and follows from the formula. */
  lemma FalseDropped(s: State, cr: int, c: Clause)
    requires Ready(s, |s.t.lits|) && s.t.lim == [] && cr in s.live && 0 <= cr < |s.ca| && |s.ca[cr]| >= 2
    requires (forall l :: l in s.ca[cr] ==> !s.t.True(l)) && forall l :: l in c <==> l in s.ca[cr] && !s.t.False(l)
    ensures |c| >= 2 && Entails(s.f, c) && forall l :: l in c ==> l.v < |s.t.vardata| && s.t.Undef(l)
  {
    hide Listing, LevelsMaximal, Justified;
    var d := s.ca[cr];
    WatchInvIsComplete(s.t, s.ca, s.live, cr);
    assert d[0] in d && d[1] in d && d[0] != d[1];
    assert d[0] in c && d[1] in c;
    FalseLeft(s, d, c);
  }

  /** At level 0 what is not false in a consequence of the formula is a consequence itself. */
  lemma FalseLeft(s: State, d: Clause, c: Clause)
    requires Base(s) && s.t.lim == [] && Entails(s.f, d)
    requires forall l :: l in d && !s.t.False(l) ==> l in c
    ensures Entails(s.f, c)
  {
    hide Base;
    forall m | Models(m, s.f)
      ensures Satisfies(m, c)
    {
      assert Satisfies(m, d);
      var l :| l in d && Holds(m, l);
      FalseFails(s, m);
      assert l in c;
    }
  }

  lemma FalseFails(s: State, m: Model)
    requires Base(s) && s.t.lim == [] && Models(m, s.f)
    ensures forall l :: s.t.False(l) ==> !Holds(m, l)
  {
    hide Listing, LevelsMaximal, Justified, Covering, ClausesOk;
    forall l | s.t.False(l)
      ensures !Holds(m, l)
    {
      FalseIsBefore(s.t, l);
      var i :| 0 <= i < |s.t.lits| && s.t.lits[i] == Neg(l);
      assert s.t.LevelAt(i) == 0 && Satisfies(m, [s.t.lits[i]]);
    }
  }

  /** Attaching a clause that follows from the formula, all of its literals unassigned. */
  lemma AttachReady(s: State, qhead: nat, c: Clause)
    requires Ready(s, qhead) && |c| >= 2 && Distinct(c) && Entails(s.f, c)
    requires forall l :: l in c ==> l.v < |s.t.vardata| && s.t.Undef(l)
    ensures Ready(Attached(s, c), qhead)
  {
    hide Derived, Covering, Lists01, WatchInv, ClausesOk, Consistent, Leveled, Justified, LevelsMaximal, WatchedOk;
    ArenaTrail(s.t, s.ca, s.live, c);
    ArenaClauses(s.ca, s.live, |s.t.vardata|, c);
    AttachListing(s, c);
    LearnDerived(s.t, s.ca, s.live, s.problem, s.f, c);
    forall i: nat | i < qhead
      ensures WatchedOk(s.t, c, i)
    {
      UndefWatched(s.t, c, i);
    }
    ArenaWatchInv(s.t, s.ca, s.live, c, qhead);
  }
}
