/** Removing clauses: what a clause must not be doing when it is removed, and what its removal keeps. */
module Forgetting {
  import opened Cnf
  import opened Trails
  import opened Watching
  import opened Database
  import opened Kernel
  import opened FinalConflict

  /** The literal of a clause that the clause would have implied. */
  function ImpliedOf(t: Trail, c: Clause): Lit
    requires |c| >= 2
  {
    if |c| != 2 || t.True(c[0]) then c[0] else c[1]
  }

  /** The clause is the reason of a literal of the trail. */
  predicate Locked(t: Trail, c: Clause, cr: int)
    requires |c| >= 2
  {
    t.True(ImpliedOf(t, c)) && t.Reason(ImpliedOf(t, c).v) == cr
  }

  /** Only the literal that locked() looks at can have the clause as its reason. */
  lemma ReasonLocked(s: State, cr: int, i: nat)
    requires Base(s) && cr in s.live && i < |s.t.lits| && s.t.Reason(s.t.lits[i].v) == cr
    ensures 0 <= cr < |s.ca| && |s.ca[cr]| >= 2 && s.t.lits[i] == ImpliedOf(s.t, s.ca[cr]) && Locked(s.t, s.ca[cr], cr)
  {
    hide Listing, Stored;
    var c, x := s.ca[cr], s.t.lits[i];
    assert Antecedents(s.t, s.ca, s.live, i) && s.t.True(x);
    if |c| == 2 {
      assert c[0] in c && c[1] in c;
      var k := if c[0] == x then 1 else 0;
      assert s.t.Before(Neg(c[k]), i);
      var j :| 0 <= j < i && s.t.lits[j] == Neg(c[k]);
      assert s.t.True(s.t.lits[j]);
    }
  }

  /** locked() tells exactly whether the clause is a reason. */
  lemma LockedExact(s: State, cr: int)
    requires Base(s) && cr in s.live && 0 <= cr < |s.ca| && |s.ca[cr]| >= 2
    ensures Locked(s.t, s.ca[cr], cr) <==> exists i :: 0 <= i < |s.t.lits| && s.t.Reason(s.t.lits[i].v) == cr
  {
    hide Listing, Stored;
    if i :| 0 <= i < |s.t.lits| && s.t.Reason(s.t.lits[i].v) == cr {
      ReasonLocked(s, cr, i);
    }
    var x := ImpliedOf(s.t, s.ca[cr]);
    if Locked(s.t, s.ca[cr], cr) {
      assert s.t.OnTrail(x.v);
      var i :| 0 <= i < |s.t.lits| && s.t.lits[i].v == x.v;
      assert s.t.Reason(s.t.lits[i].v) == cr;
    }
  }

  // ---------- Forgetting a reason at level 0 ----------

  function WithoutReason(t: Trail, v: Var): Trail
    requires v < |t.vardata|
  {
    t.(vardata := t.vardata[v := VarData(UNDEF, t.vardata[v].level)])
  }

  lemma SameLevels(t: Trail, v: Var)
    requires v < |t.vardata|
    ensures forall u :: WithoutReason(t, v).Level(u) == t.Level(u)
    ensures forall i :: 0 <= i < |t.lits| ==> WithoutReason(t, v).LevelAt(i) == t.LevelAt(i)
    ensures forall u :: u != v ==> WithoutReason(t, v).Reason(u) == t.Reason(u)
    ensures WithoutReason(t, v).Reason(v) == UNDEF
  {
  }

  lemma WithoutReasonLeveled(t: Trail, v: Var)
    requires Leveled(t) && v < |t.vardata| && t.Level(v) == 0
    ensures Leveled(WithoutReason(t, v))
  {
    SameLevels(t, v);
  }

  lemma WithoutReasonConsistent(t: Trail, v: Var)
    requires Consistent(t) && v < |t.vardata|
    ensures Consistent(WithoutReason(t, v))
  {
    assert forall u :: t.OnTrail(u) ==> WithoutReason(t, v).OnTrail(u);
  }

  lemma WithoutReasonJustified(t: Trail, ca: seq<Clause>, live: set<int>, v: Var, i: nat)
    requires v < |t.vardata| && i < |t.lits| && Antecedents(t, ca, live, i) && LevelIsMax(t, ca, i)
    ensures Antecedents(WithoutReason(t, v), ca, live, i) && LevelIsMax(WithoutReason(t, v), ca, i)
  {
    SameLevels(t, v);
    assert forall l :: t.Before(l, i) ==> WithoutReason(t, v).Before(l, i);
  }

  lemma WithoutReasonTrail(t: Trail, ca: seq<Clause>, live: set<int>, v: Var)
    requires TrailInv(t, ca, live) && v < |t.vardata| && t.Level(v) == 0
    ensures TrailInv(WithoutReason(t, v), ca, live)
  {
    hide Consistent, Leveled, Antecedents, LevelIsMax;
    WithoutReasonConsistent(t, v);
    WithoutReasonLeveled(t, v);
    forall i | 0 <= i < |t.lits|
      ensures Antecedents(WithoutReason(t, v), ca, live, i) && LevelIsMax(WithoutReason(t, v), ca, i)
    {
      WithoutReasonJustified(t, ca, live, v, i);
    }
  }

  lemma WithoutReasonReady(s: State, qhead: nat, v: Var)
    requires Ready(s, qhead) && v < |s.t.vardata| && s.t.Level(v) == 0
    ensures Ready(s.(t := WithoutReason(s.t, v)), qhead)
  {
    hide TrailInv, Lists01;
    var t' := WithoutReason(s.t, v);
    WithoutReasonTrail(s.t, s.ca, s.live, v);
    assert forall u :: t'.Level(u) == s.t.Level(u);
    assert forall i :: 0 <= i < |s.t.lits| ==> t'.LevelAt(i) == s.t.LevelAt(i);
    forall cr, i | cr in s.live && 0 <= cr < |s.ca| && 0 <= i < qhead
      ensures WatchedOk(t', s.ca[cr], i)
    {
      assert WatchedOk(s.t, s.ca[cr], i);
      assert Blocked(s.t, s.ca[cr], i) ==> Blocked(t', s.ca[cr], i);
    }
    forall m | MeetsDb(m, t', s.ca, s.problem)
      ensures MeetsDb(m, s.t, s.ca, s.problem)
    {
      assert forall i :: 0 <= i < |s.t.lits| && s.t.LevelAt(i) == 0 ==> t'.LevelAt(i) == 0;
    }
  }

  lemma WithoutReasonAssuming(t: Trail, v: Var, assumptions: seq<Lit>)
    requires Assuming(t, assumptions) && v < |t.vardata| && t.Level(v) == 0
    ensures Assuming(WithoutReason(t, v), assumptions)
  {
    var t' := WithoutReason(t, v);
    assert forall u :: t'.Level(u) == t.Level(u);
    assert forall i :: 0 <= i < |t.lits| ==> t'.LevelAt(i) == t.LevelAt(i);
  }

  // ---------- Removing a clause ----------

  /** The clause is no longer in use; its watchers stay behind in lists marked dirty. */
  function Removed(s: State, cr: int): State
    requires 0 <= cr < |s.ca| && |s.ca[cr]| >= 2
  {
    var c := s.ca[cr];
    var s' := s.(live := s.live - {cr}, problem := s.problem - {cr});
    if |c| == 2 then s'.(dirtyBin := s.dirtyBin + {Neg(c[0]), Neg(c[1])})
    else s'.(dirty := s.dirty + {Neg(c[0]), Neg(c[1])})
  }

  lemma RemovedLists(w: Lists, ca: seq<Clause>, live: set<int>, dirty: set<Lit>, bin: bool, cr: int, more: set<Lit>)
    requires Lists01(w, ca, live, dirty, bin) && 0 <= cr < |ca| && |ca[cr]| >= 2
    requires (bin <==> |ca[cr]| == 2) ==> more == {Neg(ca[cr][0]), Neg(ca[cr][1])}
    ensures Lists01(w, ca, live - {cr}, dirty + more, bin)
  {
    forall l | l in w
      ensures ListOk(ca, live - {cr}, dirty + more, bin, l, w[l])
    {
      assert ListOk(ca, live, dirty, bin, l, w[l]);
      forall i | 0 <= i < |w[l]|
        ensures WatcherOk(ca, live - {cr}, dirty + more, bin, l, w[l][i])
      {
        assert WatcherOk(ca, live, dirty, bin, l, w[l][i]);
        assert Neg(Neg(l)) == l;
      }
    }
  }

  /** A problem clause may go only if a literal of level 0 satisfies it. */
  ghost predicate RootSatisfied(t: Trail, c: Clause) {
    exists i :: 0 <= i < |t.lits| && t.LevelAt(i) == 0 && t.lits[i] in c
  }

  lemma RemovedStored(s: State, cr: int)
    requires Stored(s) && 0 <= cr < |s.ca| && |s.ca[cr]| >= 2
    requires cr in s.problem ==> RootSatisfied(s.t, s.ca[cr])
    ensures Stored(Removed(s, cr))
  {
    forall m | MeetsDb(m, s.t, s.ca, s.problem - {cr})
      ensures MeetsDb(m, s.t, s.ca, s.problem)
    {
      if cr in s.problem {
        var i :| 0 <= i < |s.t.lits| && s.t.LevelAt(i) == 0 && s.t.lits[i] in s.ca[cr];
        assert Holds(m, s.t.lits[i]);
      }
    }
  }

  lemma RemovedTrail(s: State, cr: int)
    requires TrailInv(s.t, s.ca, s.live)
    requires forall i :: 0 <= i < |s.t.lits| ==> s.t.Reason(s.t.lits[i].v) != cr
    ensures TrailInv(s.t, s.ca, s.live - {cr})
  {
    forall i | 0 <= i < |s.t.lits|
      ensures Antecedents(s.t, s.ca, s.live - {cr}, i)
    {
      assert Antecedents(s.t, s.ca, s.live, i);
    }
  }

  lemma RemovedReady(s: State, qhead: nat, cr: int)
    requires Ready(s, qhead) && cr in s.live && 0 <= cr < |s.ca| && |s.ca[cr]| >= 2
    requires cr in s.problem ==> RootSatisfied(s.t, s.ca[cr])
    requires forall i :: 0 <= i < |s.t.lits| ==> s.t.Reason(s.t.lits[i].v) != cr
    ensures Ready(Removed(s, cr), qhead)
  {
    hide TrailInv, Lists01, Stored, WatchedOk;
    RemovedTrail(s, cr);
    RemovedStored(s, cr);
    var c := s.ca[cr];
    var more := {Neg(c[0]), Neg(c[1])};
    RemovedLists(s.w, s.ca, s.live, s.dirty, false, cr, if |c| == 2 then {} else more);
    RemovedLists(s.wb, s.ca, s.live, s.dirtyBin, true, cr, if |c| == 2 then more else {});
    assert s.dirty + {} == s.dirty && s.dirtyBin + {} == s.dirtyBin;
  }

  /** Once a locked clause's literal, at level 0, has lost its reason, no literal has the clause as its reason. */
  lemma ReasonFreed(s: State, qhead: nat, cr: int, assumptions: seq<Lit>)
    requires Ready(s, qhead) && cr in s.live && 0 <= cr < |s.ca| && |s.ca[cr]| >= 2 && Assuming(s.t, assumptions)
    requires Locked(s.t, s.ca[cr], cr) ==> s.t.Level(ImpliedOf(s.t, s.ca[cr]).v) == 0
    ensures ImpliedOf(s.t, s.ca[cr]).v < |s.t.vardata|
    ensures var t' := if Locked(s.t, s.ca[cr], cr) then WithoutReason(s.t, ImpliedOf(s.t, s.ca[cr]).v) else s.t;
      && Ready(s.(t := t'), qhead) && Assuming(t', assumptions)
      && (forall i :: 0 <= i < |t'.lits| ==> t'.Reason(t'.lits[i].v) != cr)
      && (RootSatisfied(s.t, s.ca[cr]) ==> RootSatisfied(t', s.ca[cr]))
  {
    hide Ready, Assuming, RootSatisfied;
    ReadyParts(s, qhead);
    var v := ImpliedOf(s.t, s.ca[cr]).v;
    ImpliedVar(s, qhead, cr);
    forall i | 0 <= i < |s.t.lits| && s.t.Reason(s.t.lits[i].v) == cr
      ensures Locked(s.t, s.ca[cr], cr) && s.t.lits[i].v == v
    {
      ReadyBase(s, qhead);
      ReasonLocked(s, cr, i);
    }
    if Locked(s.t, s.ca[cr], cr) {
      WithoutReasonReady(s, qhead, v);
      WithoutReasonAssuming(s.t, v, assumptions);
      WithoutReasonRoot(s.t, v, s.ca[cr]);
      SameLevels(s.t, v);
    }
  }

  lemma ReadyBase(s: State, qhead: nat)
    requires Ready(s, qhead)
    ensures Base(s) && ClausesOk(s.ca, s.live, |s.t.vardata|)
  {
  }

  lemma ImpliedVar(s: State, qhead: nat, cr: int)
    requires Ready(s, qhead) && cr in s.live && 0 <= cr < |s.ca| && |s.ca[cr]| >= 2
    ensures ImpliedOf(s.t, s.ca[cr]).v < |s.t.vardata|
  {
    assert s.ca[cr][0] in s.ca[cr] && s.ca[cr][1] in s.ca[cr];
  }

  lemma WithoutReasonRoot(t: Trail, v: Var, c: Clause)
    requires v < |t.vardata| && RootSatisfied(t, c)
    ensures RootSatisfied(WithoutReason(t, v), c)
  {
    SameLevels(t, v);
    var i :| 0 <= i < |t.lits| && t.LevelAt(i) == 0 && t.lits[i] in c;
    assert WithoutReason(t, v).LevelAt(i) == 0;
  }

  lemma StoredClause(s: State, qhead: nat, cr: int)
    requires Ready(s, qhead) && (cr in s.problem || cr in s.live)
    ensures cr in s.live && 0 <= cr < |s.ca| && |s.ca[cr]| >= 2
  {
  }

  /** At level 0 every true literal is a root literal. */
  lemma SatisfiedAtRoot(s: State, qhead: nat, cr: int)
    requires Ready(s, qhead) && cr in s.live && 0 <= cr < |s.ca| && |s.ca[cr]| >= 2 && |s.t.lim| == 0
    requires exists l :: l in s.ca[cr] && s.t.True(l)
    ensures RootSatisfied(s.t, s.ca[cr])
    ensures Locked(s.t, s.ca[cr], cr) ==> s.t.Level(ImpliedOf(s.t, s.ca[cr]).v) == 0
  {
    var l :| l in s.ca[cr] && s.t.True(l);
    assert s.t.OnTrail(l.v);
    var i :| 0 <= i < |s.t.lits| && s.t.lits[i].v == l.v;
    assert s.t.True(s.t.lits[i]) && s.t.lits[i] == l && s.t.LevelAt(i) <= 0;
    var x := ImpliedOf(s.t, s.ca[cr]);
    if s.t.True(x) {
      assert s.t.OnTrail(x.v);
      var j :| 0 <= j < |s.t.lits| && s.t.lits[j].v == x.v;
      assert s.t.LevelAt(j) <= 0;
    }
  }

  /** The clause lists name each clause once, and only clauses in use. */
  ghost predicate Registered(clauses: seq<int>, learnts: seq<int>, live: set<int>) {
    && (forall i, j :: 0 <= i < j < |clauses| ==> clauses[i] != clauses[j])
    && (forall i, j :: 0 <= i < j < |learnts| ==> learnts[i] != learnts[j])
    && (forall cr :: cr in learnts ==> cr in live && cr !in clauses)
  }

  lemma RegisterLearnt(clauses: seq<int>, learnts: seq<int>, live: set<int>, i: nat, cr: int)
    requires Registered(clauses, learnts, live) && i <= |learnts| && cr !in live && cr !in clauses
    ensures Registered(clauses, learnts[..i] + [cr] + learnts[i..], live + {cr})
  {
    var r := learnts[..i] + [cr] + learnts[i..];
    assert forall j :: 0 <= j < |r| ==> r[j] == if j < i then learnts[j] else if j == i then cr else learnts[j - 1];
  }

  lemma RegisterClause(clauses: seq<int>, learnts: seq<int>, live: set<int>, cr: int)
    requires Registered(clauses, learnts, live) && cr !in live && cr !in clauses
    ensures Registered(clauses + [cr], learnts, live + {cr})
  {
  }

  lemma DropClauseRegistered(clauses: seq<int>, learnts: seq<int>, live: set<int>, i: nat)
    requires Registered(clauses, learnts, live) && i < |clauses|
    ensures Registered(clauses[..i] + clauses[i + 1..], learnts, live - {clauses[i]})
    ensures Refs(clauses[..i] + clauses[i + 1..]) == Refs(clauses) - {clauses[i]}
  {
    var r := clauses[..i] + clauses[i + 1..];
    DropIndex(clauses, i);
    forall cr | cr in learnts
      ensures cr in live - {clauses[i]} && cr !in r
    {
      assert cr !in clauses && clauses[i] in clauses;
    }
  }

  lemma DropLearntRegistered(clauses: seq<int>, learnts: seq<int>, live: set<int>, i: nat)
    requires Registered(clauses, learnts, live) && i < |learnts|
    ensures Registered(clauses, learnts[..i] + learnts[i + 1..], live - {learnts[i]})
    ensures learnts[i] in live && learnts[i] !in clauses && Refs(clauses) - {learnts[i]} == Refs(clauses)
  {
    var cr := learnts[i];
    DropIndex(learnts, i);
    assert cr in learnts;
    assert cr !in Refs(clauses);
  }

  /** All variables spoken of exist. */
  ghost predicate InVars(assumptions: seq<Lit>, decision: set<Var>, n: nat) {
    (forall p :: p in assumptions ==> p.v < n) && (forall v :: v in decision ==> v < n)
  }

  /** Dropping one entry of a list without repetitions. */
  lemma DropIndex(crs: seq<int>, i: nat)
    requires i < |crs| && forall j, k :: 0 <= j < k < |crs| ==> crs[j] != crs[k]
    ensures var r := crs[..i] + crs[i + 1..];
      && (forall j, k :: 0 <= j < k < |r| ==> r[j] != r[k])
      && (forall cr :: cr in r <==> cr in crs && cr != crs[i])
      && Refs(r) == Refs(crs) - {crs[i]}
  {
    var r := crs[..i] + crs[i + 1..];
    assert forall j :: 0 <= j < |r| ==> r[j] == crs[if j < i then j else j + 1];
    forall cr | cr in crs && cr != crs[i]
      ensures cr in r
    {
      var j :| 0 <= j < |crs| && crs[j] == cr;
      assert r[if j < i then j else j - 1] == cr;
    }
  }
}
