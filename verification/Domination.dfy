/** The first unique implication point, as a dominator of the implication graph. */
module Domination {
  import opened Cnf
  import opened Trails
  import opened Analysis
  import opened Unwinding
  import opened Redundancy
  import opened Blaming

  /** A path of reasons from the clause c in conflict to w. */
  ghost predicate PathTo(t: Trail, ca: seq<Clause>, c: Clause, path: seq<Var>, w: Var) {
    path != [] && path[0] in Above(t, c) && path[|path| - 1] == w && Chain(t, ca, path)
  }

  ghost predicate Reached(t: Trail, ca: seq<Clause>, c: Clause, w: Var) {
    exists path :: PathTo(t, ca, c, path, w)
  }

  /** Every path from the conflict to a decision of the level passes through x. */
  ghost predicate Dominates(t: Trail, ca: seq<Clause>, c: Clause, level: nat, x: Var) {
    forall path, d :: PathTo(t, ca, c, path, d) && t.Level(d) == level && t.Reason(d) == UNDEF ==> x in path
  }

  /** A unique implication point: a literal of the conflict level without which the decision of that level would not
      lead to the conflict. */
  ghost predicate IsUip(t: Trail, ca: seq<Clause>, c: Clause, level: nat, i: nat) {
    && i < |t.lits| && t.LevelAt(i) == level && Reached(t, ca, c, t.lits[i].v)
    && Dominates(t, ca, c, level, t.lits[i].v)
  }

  /** A clause false on the trail, the given level being the highest in it. */
  ghost predicate Conflicted(t: Trail, ca: seq<Clause>, live: set<int>, c: Clause, level: nat) {
    TrailInv(t, ca, live) && level > 0 && forall v :: v in Above(t, c) ==> t.OnTrail(v) && t.Level(v) <= level
  }

  // ---------- Along a path ----------

  /** The next variable of a path lies before, on no higher level. */
  lemma NextOnPath(t: Trail, ca: seq<Clause>, live: set<int>, a: nat, w: Var) returns (m: nat)
    requires TrailInv(t, ca, live) && a < |t.lits| && w in Needs(t, ca, {}, t.lits[a].v)
    ensures m < a && t.lits[m].v == w && 0 < t.Level(w) <= t.LevelAt(a)
  {
    hide Leveled;
    CausesAreNeeds(t, ca, a);
    m := CausesBefore(t, ca, live, a, w);
    assert LevelIsMax(t, ca, a);
  }

  lemma {:induction false} PathFalls(t: Trail, ca: seq<Clause>, live: set<int>, path: seq<Var>, n: nat)
    returns (m: nat)
    requires TrailInv(t, ca, live) && n < |path| && Chain(t, ca, path) && t.OnTrail(path[0])
    ensures m < |t.lits| && t.lits[m].v == path[n] && t.LevelAt(m) <= t.Level(path[0])
  {
    hide TrailInv, Needs;
    if n == 0 {
      m :| 0 <= m < |t.lits| && t.lits[m].v == path[0];
    } else {
      var a := PathFalls(t, ca, live, path, n - 1);
      assert path[n - 1 + 1] in Needs(t, ca, {}, path[n - 1]);
      m := NextOnPath(t, ca, live, a, path[n]);
    }
  }

  /** A path that ends on the conflict level never leaves it. */
  lemma PathStays(t: Trail, ca: seq<Clause>, live: set<int>, c: Clause, level: nat, path: seq<Var>, w: Var, n: nat)
    requires Conflicted(t, ca, live, c, level) && PathTo(t, ca, c, path, w) && t.Level(w) >= level && n < |path|
    ensures t.OnTrail(path[n]) && t.Level(path[n]) == level
  {
    hide TrailInv, Needs, Above;
    var m := PathFalls(t, ca, live, path, n);
    ChainFrom(t, ca, path, n);
    var l := PathFalls(t, ca, live, path[n..], |path| - n - 1);
  }

  lemma ChainFrom(t: Trail, ca: seq<Clause>, path: seq<Var>, n: nat)
    requires Chain(t, ca, path) && n < |path|
    ensures Chain(t, ca, path[n..])
  {
    hide Needs;
    forall i | 0 <= i < |path[n..]| - 1
      ensures path[n..][i + 1] in Needs(t, ca, {}, path[n..][i])
    {
      assert path[n + i + 1] in Needs(t, ca, {}, path[n + i]);
    }
  }

  /** The walk stops at every variable of such a path. */
  lemma PathStops(t: Trail, ca: seq<Clause>, live: set<int>, c: Clause, level: nat, path: seq<Var>, w: Var, n: nat)
    returns (m: nat)
    requires Conflicted(t, ca, live, c, level) && PathTo(t, ca, c, path, w) && t.Level(w) >= level && n < |path|
    ensures t.Level(path[n]) == level
    ensures m < |t.lits| && t.lits[m].v == path[n] && StopsAt(t, ca, c, level, m)
  {
    hide Needs, Above, Leveled, LevelsMaximal, Walk, Chain;
    forall j | 0 <= j < |path|
      ensures t.OnTrail(path[j]) && t.Level(path[j]) == level
    {
      PathStays(t, ca, live, c, level, path, w, j);
    }
    m := RestsFlagged(t, ca, live, Above(t, c), level, path, n);
  }

  /** The walk stops at a literal of the conflict level exactly if a path leads to it. */
  lemma StopsReached(t: Trail, ca: seq<Clause>, live: set<int>, c: Clause, level: nat, i: nat)
    requires Conflicted(t, ca, live, c, level) && i < |t.lits|
    ensures StopsAt(t, ca, c, level, i) <==> t.LevelAt(i) == level && Reached(t, ca, c, t.lits[i].v)
  {
    hide Needs, Above, Leveled, LevelsMaximal, Walk, Justified, Chain;
    var v := t.lits[i].v;
    if StopsAt(t, ca, c, level, i) {
      var s := FlaggedRests(t, ca, Above(t, c), level, i + 1, v);
      var path :| path != [] && path[0] == s && path[|path| - 1] == v && Chain(t, ca, path);
      assert PathTo(t, ca, c, path, v);
      PathStays(t, ca, live, c, level, path, v, |path| - 1);
    }
    if t.LevelAt(i) == level && Reached(t, ca, c, v) {
      var path :| PathTo(t, ca, c, path, v);
      var m := PathStops(t, ca, live, c, level, path, v, |path| - 1);
      assert m == i;
    }
  }

  // ---------- With one literal left, every path passes through it ----------

  lemma {:induction false} PassesThrough(t: Trail, ca: seq<Clause>, live: set<int>, c: Clause, level: nat, i: nat,
                                         path: seq<Var>, w: Var, n: nat, m: nat)
    requires Conflicted(t, ca, live, c, level) && PathTo(t, ca, c, path, w) && t.Level(w) >= level
    requires LastLeft(t, ca, c, level, i) && n < |path| && m <= i && t.lits[m].v == path[n]
    ensures t.lits[i].v in path
    decreases n
  {
    hide Needs, Above, Leveled, LevelsMaximal, Chain, Justified, Walk;
    WalkBegins(t, ca, Above(t, c), level);
    var at := PathStops(t, ca, live, c, level, path, w, n);
    if n == 0 {
      FlagStays(t, ca, Above(t, c), level, path[0], m, i + 1, |t.lits|);
    } else {
      var a := PathStops(t, ca, live, c, level, path, w, n - 1);
      if a <= i {
        PassesThrough(t, ca, live, c, level, i, path, w, n - 1, a);
      } else {
        FlagsNext(t, ca, c, level, path, n, a);
        FlagStays(t, ca, Above(t, c), level, path[n], m, i + 1, a);
      }
    }
  }

  lemma WalkBegins(t: Trail, ca: seq<Clause>, start: set<Var>, level: nat)
    ensures Walk(t, ca, start, level, |t.lits|) == start
  {
  }

  /** Where the walk stops, it flags the next variable of the path. */
  lemma FlagsNext(t: Trail, ca: seq<Clause>, c: Clause, level: nat, path: seq<Var>, n: nat, a: nat)
    requires 0 < n < |path| && Chain(t, ca, path) && StopsAt(t, ca, c, level, a) && t.lits[a].v == path[n - 1]
    ensures path[n] in Walk(t, ca, Above(t, c), level, a)
  {
    hide Needs, Above;
    assert path[n - 1 + 1] in Needs(t, ca, {}, path[n - 1]);
    CausesAreNeeds(t, ca, a);
  }

  lemma LeftDominates(t: Trail, ca: seq<Clause>, live: set<int>, c: Clause, level: nat, i: nat)
    requires Conflicted(t, ca, live, c, level) && LastLeft(t, ca, c, level, i)
    requires i < |t.lits| && t.LevelAt(i) == level
    ensures Dominates(t, ca, c, level, t.lits[i].v)
  {
    hide Needs, Above, LevelsMaximal, Walk, Chain, Justified, LastLeft, PathTo;
    forall path, d | PathTo(t, ca, c, path, d) && t.Level(d) == level && t.Reason(d) == UNDEF
      ensures t.lits[i].v in path
    {
      PathEnds(t, ca, c, path, d);
      var m := PathStops(t, ca, live, c, level, path, d, |path| - 1);
      assert m <= i by {
        assert OneDecision(t);
      }
      PassesThrough(t, ca, live, c, level, i, path, d, |path| - 1, m);
    }
  }

  lemma PathEnds(t: Trail, ca: seq<Clause>, c: Clause, path: seq<Var>, w: Var)
    requires PathTo(t, ca, c, path, w)
    ensures path != [] && path[|path| - 1] == w
  {
  }

  // ---------- With two literals left, some path avoids each of them ----------

  /** What is flagged on the conflict level lies further down. */
  lemma {:induction false} FlagBelow(t: Trail, ca: seq<Clause>, live: set<int>, c: Clause, level: nat, k: nat, v: Var)
    returns (m: nat)
    requires Conflicted(t, ca, live, c, level) && v in Walk(t, ca, Above(t, c), level, k) && t.Level(v) >= level
    ensures m < |t.lits| && m < k && t.lits[m].v == v
    decreases |t.lits| - k
  {
    hide Causes, Above, Leveled, LevelsMaximal, Justified;
    if k >= |t.lits| {
      m :| 0 <= m < |t.lits| && t.lits[m].v == v;
    } else if v in Walk(t, ca, Above(t, c), level, k + 1) {
      m := FlagBelow(t, ca, live, c, level, k + 1, v);
      NotItsCause(t, ca, k);
    } else {
      m := CausesBefore(t, ca, live, k, v);
    }
  }

  lemma NotItsCause(t: Trail, ca: seq<Clause>, i: nat)
    requires i < |t.lits|
    ensures t.lits[i].v !in Causes(t, ca, i)
  {
  }

  /** A path to what is flagged that has passed only positions from k on. */
  lemma {:induction false} FlaggedPath(t: Trail, ca: seq<Clause>, c: Clause, level: nat, k: nat, v: Var)
    returns (path: seq<Var>)
    requires Consistent(t) && v in Walk(t, ca, Above(t, c), level, k)
    ensures PathTo(t, ca, c, path, v)
    ensures forall j, m :: 0 <= j < |path| - 1 && 0 <= m < k && m < |t.lits| ==> path[j] != t.lits[m].v
    decreases |t.lits| - k
  {
    hide Causes, Above, Needs;
    if k >= |t.lits| {
      path := [v];
    } else if v in Walk(t, ca, Above(t, c), level, k + 1) {
      path := FlaggedPath(t, ca, c, level, k + 1, v);
    } else {
      var before := FlaggedPath(t, ca, c, level, k + 1, t.lits[k].v);
      CausesAreNeeds(t, ca, k);
      ChainOn(t, ca, before, v);
      path := before + [v];
    }
  }

  lemma ChainOn(t: Trail, ca: seq<Clause>, path: seq<Var>, v: Var)
    requires path != [] && Chain(t, ca, path) && v in Needs(t, ca, {}, path[|path| - 1])
    ensures Chain(t, ca, path + [v])
  {
    hide Needs;
    var path' := path + [v];
    forall i | 0 <= i < |path'| - 1
      ensures path'[i + 1] in Needs(t, ca, {}, path'[i])
    {
      if i < |path| - 1 {
        assert path'[i] == path[i] && path'[i + 1] == path[i + 1];
      }
    }
  }

  /** From a literal of the conflict level a path leads down to the decision, without leaving the level. */
  lemma {:induction false} DownToDecision(t: Trail, ca: seq<Clause>, live: set<int>, c: Clause, level: nat, m: nat,
                                          path: seq<Var>)
    returns (path': seq<Var>, d: Var)
    requires Conflicted(t, ca, live, c, level) && m < |t.lits| && t.LevelAt(m) == level
    requires PathTo(t, ca, c, path, t.lits[m].v)
    ensures PathTo(t, ca, c, path', d) && t.Level(d) == level && t.Reason(d) == UNDEF
    ensures path <= path'
    ensures forall j :: |path| <= j < |path'| ==> exists n :: 0 <= n < m && path'[j] == t.lits[n].v
    decreases m
  {
    hide Needs, Above, Chain, Leveled;
    if t.Reason(t.lits[m].v) == UNDEF {
      path', d := path, t.lits[m].v;
    } else {
      var n := SameLevelCause(t, ca, live, m);
      ChainOn(t, ca, path, t.lits[n].v);
      path', d := DownToDecision(t, ca, live, c, level, n, path + [t.lits[n].v]);
    }
  }

  /** An implied literal has a cause of its own level. */
  lemma SameLevelCause(t: Trail, ca: seq<Clause>, live: set<int>, m: nat) returns (n: nat)
    requires TrailInv(t, ca, live) && m < |t.lits| && t.LevelAt(m) > 0 && t.Reason(t.lits[m].v) != UNDEF
    ensures n < m && t.LevelAt(n) == t.LevelAt(m) && t.lits[n].v in Needs(t, ca, {}, t.lits[m].v)
  {
    hide Leveled;
    var x := t.lits[m];
    assert Antecedents(t, ca, live, m) && LevelIsMax(t, ca, m);
    var q :| q in ca[t.Reason(x.v)] && q != x && t.Level(q.v) == t.Level(x.v);
    assert t.Before(Neg(q), m);
    n :| 0 <= n < m && n < |t.lits| && t.lits[n] == Neg(q);
  }

  lemma DominatesLeft(t: Trail, ca: seq<Clause>, live: set<int>, c: Clause, level: nat, i: nat)
    requires Conflicted(t, ca, live, c, level) && i < |t.lits| && Dominates(t, ca, c, level, t.lits[i].v)
    ensures LastLeft(t, ca, c, level, i)
  {
    hide Needs, Above, LevelsMaximal, Walk, Chain, Justified, Leveled;
    forall v | v in Walk(t, ca, Above(t, c), level, i + 1) && t.Level(v) >= level
      ensures v == t.lits[i].v
    {
      var m := FlagBelow(t, ca, live, c, level, i + 1, v);
      var path := FlaggedPath(t, ca, c, level, i + 1, v);
      PathStays(t, ca, live, c, level, path, v, |path| - 1);
      var path', d := DownToDecision(t, ca, live, c, level, m, path);
      var j :| 0 <= j < |path'| && path'[j] == t.lits[i].v;
      if j < |path| {
        assert path'[j] == path[j];
      }
    }
  }

  // ---------- The first unique implication point ----------

  /** The walk has one literal of the conflict level left exactly at the unique implication points. */
  lemma UipExact(t: Trail, ca: seq<Clause>, live: set<int>, c: Clause, level: nat, i: nat)
    requires Conflicted(t, ca, live, c, level)
    ensures IsUip(t, ca, c, level, i) <==> StopsAt(t, ca, c, level, i) && LastLeft(t, ca, c, level, i)
  {
    hide Conflicted, LastLeft, Dominates, Reached, Walk;
    if i < |t.lits| {
      StopsReached(t, ca, live, c, level, i);
      if StopsAt(t, ca, c, level, i) && LastLeft(t, ca, c, level, i) {
        LeftDominates(t, ca, live, c, level, i);
      } else if IsUip(t, ca, c, level, i) {
        DominatesLeft(t, ca, live, c, level, i);
      }
    }
  }

  /** The walk ends at the unique implication point next to the conflict. */
  lemma FirstIsNearest(t: Trail, ca: seq<Clause>, live: set<int>, c: Clause, level: nat, i: nat)
    requires Conflicted(t, ca, live, c, level)
    ensures FirstPoint(t, ca, c, level, i) <==>
            IsUip(t, ca, c, level, i) && forall k :: i < k < |t.lits| ==> !IsUip(t, ca, c, level, k)
  {
    hide Conflicted, StopsAt, LastLeft, IsUip;
    forall k: nat
      ensures IsUip(t, ca, c, level, k) <==> StopsAt(t, ca, c, level, k) && LastLeft(t, ca, c, level, k)
    {
      UipExact(t, ca, live, c, level, k);
    }
  }

  /** The learnt clause begins with the negation of that unique implication point. */
  ghost predicate NegatesNearest(t: Trail, ca: seq<Clause>, c: Clause, level: nat, out: Clause) {
    exists i: nat :: i < |t.lits| && out != [] && out[0] == Neg(t.lits[i]) && IsUip(t, ca, c, level, i)
                     && forall k :: i < k < |t.lits| ==> !IsUip(t, ca, c, level, k)
  }

  lemma UipNegated(t: Trail, ca: seq<Clause>, live: set<int>, c: Clause, level: nat, out: Clause)
    requires Conflicted(t, ca, live, c, level) && FirstUipClause(t, ca, c, level, out)
    ensures NegatesNearest(t, ca, c, level, out)
  {
    hide Conflicted, FirstPoint, IsUip, Walk, Above;
    var i: nat :| i < |t.lits| && FirstPoint(t, ca, c, level, i) && out != [] && out[0] == Neg(t.lits[i])
                  && Vars(out) == Walk(t, ca, Above(t, c), level, i + 1);
    FirstIsNearest(t, ca, live, c, level, i);
  }

  lemma ConflictLevels(t: Trail, ca: seq<Clause>, live: set<int>, c: Clause, level: nat)
    requires TrailInv(t, ca, live) && level > 0 && t.AllFalse(c)
    requires forall j :: 0 <= j < |c| ==> t.Level(c[j].v) <= level
    ensures Conflicted(t, ca, live, c, level)
  {
    hide Leveled, Justified, LevelsMaximal;
  }
}
