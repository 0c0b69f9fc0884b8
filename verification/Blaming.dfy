/** Which decisions the final conflict blames: exactly those on which the falsified assumption rests. */
module Blaming {
  import opened Cnf
  import opened Trails
  import opened Analysis
  import opened Unwinding
  import opened Redundancy

  /** What has been collected when the walk has passed the positions from k on: front, and the negation of every literal
      without a reason at which it has stopped. */
  ghost function Collect(t: Trail, ca: seq<Clause>, start: set<Var>, level: nat, front: seq<Lit>, k: nat): seq<Lit>
    decreases |t.lits| - k
  {
    if k >= |t.lits| then front
    else
      var above := Collect(t, ca, start, level, front, k + 1);
      if Stops(t, level, Walk(t, ca, start, level, k + 1), k) && t.Reason(t.lits[k].v) == UNDEF
      then above + [Neg(t.lits[k])]
      else above
  }

  /** What analyzeFinal returns for p: it walks down to level 1. */
  ghost function FinalOf(t: Trail, ca: seq<Clause>, p: Lit): seq<Lit> {
    if t.lim == [] then [p] else Collect(t, ca, {p.v}, 0, [p], t.lim[0])
  }

  /** Each variable is mentioned, above level 0, in the reason of the one before. */
  ghost predicate Chain(t: Trail, ca: seq<Clause>, path: seq<Var>) {
    forall i :: 0 <= i < |path| - 1 ==> path[i + 1] in Needs(t, ca, {}, path[i])
  }

  /** v rests on w: a chain of reasons leads from one to the other. */
  ghost predicate Rests(t: Trail, ca: seq<Clause>, v: Var, w: Var) {
    exists path :: path != [] && path[0] == v && path[|path| - 1] == w && Chain(t, ca, path)
  }

  lemma RestsSelf(t: Trail, ca: seq<Clause>, v: Var)
    ensures Rests(t, ca, v, v)
  {
    assert Chain(t, ca, [v]) && [v][0] == v;
  }

  lemma RestsOn(t: Trail, ca: seq<Clause>, v: Var, w: Var, x: Var)
    requires Rests(t, ca, v, w) && x in Needs(t, ca, {}, w)
    ensures Rests(t, ca, v, x)
  {
    hide Needs;
    var path :| path != [] && path[0] == v && path[|path| - 1] == w && Chain(t, ca, path);
    var path' := path + [x];
    forall i | 0 <= i < |path'| - 1
      ensures path'[i + 1] in Needs(t, ca, {}, path'[i])
    {
      if i < |path| - 1 {
        assert path'[i] == path[i] && path'[i + 1] == path[i + 1];
      }
    }
    assert Chain(t, ca, path') && path'[0] == v && path'[|path'| - 1] == x;
  }

  lemma CausesAreNeeds(t: Trail, ca: seq<Clause>, i: nat)
    requires i < |t.lits|
    ensures Causes(t, ca, i) == Needs(t, ca, {}, t.lits[i].v)
  {
  }

  /** Whatever the walk flags, something it started from rests on. */
  lemma {:induction false} FlaggedRests(t: Trail, ca: seq<Clause>, start: set<Var>, level: nat, k: nat, v: Var)
    returns (s: Var)
    requires v in Walk(t, ca, start, level, k)
    ensures s in start && Rests(t, ca, s, v)
    decreases |t.lits| - k
  {
    hide Rests, Causes, Needs;
    if k >= |t.lits| {
      s := v;
      RestsSelf(t, ca, v);
    } else if v in Walk(t, ca, start, level, k + 1) {
      s := FlaggedRests(t, ca, start, level, k + 1, v);
    } else {
      s := FlaggedRests(t, ca, start, level, k + 1, t.lits[k].v);
      CausesAreNeeds(t, ca, k);
      RestsOn(t, ca, s, t.lits[k].v, v);
    }
  }

  /** A flag stays until the walk comes to its variable. */
  lemma {:induction false} FlagStays(t: Trail, ca: seq<Clause>, start: set<Var>, level: nat, v: Var, m: nat, k': nat,
                                     k: nat)
    requires Consistent(t) && m < k' <= k <= |t.lits| && t.lits[m].v == v && v in Walk(t, ca, start, level, k)
    ensures v in Walk(t, ca, start, level, k')
    decreases k - k'
  {
    if k' < k {
      FlagStays(t, ca, start, level, v, m, k' + 1, k);
    }
  }

  /** The literals that imply the one at position i are on the trail before it. */
  lemma CausesBefore(t: Trail, ca: seq<Clause>, live: set<int>, i: nat, v: Var) returns (m: nat)
    requires Consistent(t) && Justified(t, ca, live) && i < |t.lits| && v in Causes(t, ca, i)
    ensures m < i && t.lits[m].v == v
  {
    var c := ca[t.Reason(t.lits[i].v)];
    var q :| q in c && t.Level(q.v) > 0 && q.v == v;
    assert Antecedents(t, ca, live, i) && t.Before(Neg(q), i);
    m :| 0 <= m < i && m < |t.lits| && t.lits[m] == Neg(q);
  }

  /** Where the walk may start: at variables of the trail, of the given level at least, which is 0 or 1. */
  ghost predicate Startable(t: Trail, start: set<Var>, level: nat) {
    level <= 1 && forall v :: v in start ==> t.OnTrail(v) && t.Level(v) >= level
  }

  /** Whatever a variable of start rests on is flagged when the walk comes to it. */
  lemma {:induction false} RestsFlagged(t: Trail, ca: seq<Clause>, live: set<int>, start: set<Var>, level: nat,
                                        path: seq<Var>, n: nat)
    returns (m: nat)
    requires Consistent(t) && Justified(t, ca, live) && n < |path| && Chain(t, ca, path)
    requires path[0] in start && t.OnTrail(path[0]) && forall j :: 0 <= j < |path| ==> t.Level(path[j]) >= level
    ensures m < |t.lits| && t.lits[m].v == path[n] && Stops(t, level, Walk(t, ca, start, level, m + 1), m)
    decreases n
  {
    hide Causes, Needs, Justified;
    if n == 0 {
      m :| 0 <= m < |t.lits| && t.lits[m].v == path[0];
      FlagStays(t, ca, start, level, path[0], m, m + 1, |t.lits|);
    } else {
      var above := RestsFlagged(t, ca, live, start, level, path, n - 1);
      assert path[n - 1 + 1] in Needs(t, ca, {}, path[n - 1]);
      m := NextFlagged(t, ca, live, start, level, above, path[n]);
    }
  }

  /** What the reason of a flagged literal needs is flagged too when the walk comes to it. */
  lemma NextFlagged(t: Trail, ca: seq<Clause>, live: set<int>, start: set<Var>, level: nat, above: nat, w: Var)
    returns (m: nat)
    requires Consistent(t) && Justified(t, ca, live) && above < |t.lits| && t.Level(w) >= level
    requires Stops(t, level, Walk(t, ca, start, level, above + 1), above) && w in Needs(t, ca, {}, t.lits[above].v)
    ensures m < |t.lits| && t.lits[m].v == w && Stops(t, level, Walk(t, ca, start, level, m + 1), m)
  {
    hide Causes, Needs, Justified;
    CausesAreNeeds(t, ca, above);
    m := CausesBefore(t, ca, live, above, w);
    assert w in Walk(t, ca, start, level, above);
    FlagStays(t, ca, start, level, w, m, m + 1, above);
  }

  lemma ChainAbove(t: Trail, ca: seq<Clause>, path: seq<Var>)
    requires Chain(t, ca, path)
    ensures forall j :: 0 < j < |path| ==> t.Level(path[j]) > 0
  {
    forall j | 0 < j < |path|
      ensures t.Level(path[j]) > 0
    {
      assert path[j - 1 + 1] in Needs(t, ca, {}, path[j - 1]);
    }
  }

  /** A literal without a reason is collected exactly if the walk stops at it. */
  lemma {:induction false} CollectExact(t: Trail, ca: seq<Clause>, start: set<Var>, level: nat, front: seq<Lit>, k: nat,
                                        i: nat)
    requires Consistent(t) && k <= i < |t.lits| && t.Reason(t.lits[i].v) == UNDEF && Neg(t.lits[i]) !in front
    ensures Neg(t.lits[i]) in Collect(t, ca, start, level, front, k)
            <==> Stops(t, level, Walk(t, ca, start, level, i + 1), i)
    decreases i - k
  {
    hide Walk;
    if k < i {
      CollectExact(t, ca, start, level, front, k + 1, i);
      assert t.lits[k].v != t.lits[i].v;
    } else {
      NotCollected(t, ca, start, level, front, i + 1, i);
    }
  }

  lemma {:induction false} NotCollected(t: Trail, ca: seq<Clause>, start: set<Var>, level: nat, front: seq<Lit>, k: nat,
                                        i: nat)
    requires Consistent(t) && i < k && i < |t.lits| && Neg(t.lits[i]) !in front
    ensures Neg(t.lits[i]) !in Collect(t, ca, start, level, front, k)
    decreases |t.lits| - k
  {
    hide Walk;
    if k < |t.lits| {
      NotCollected(t, ca, start, level, front, k + 1, i);
      assert t.lits[k].v != t.lits[i].v;
    }
  }

  /** Of the literals without a reason from position k on, exactly those are collected on which something the walk
      started from rests. */
  lemma CollectedRests(t: Trail, ca: seq<Clause>, live: set<int>, start: set<Var>, level: nat, front: seq<Lit>, k: nat,
                       i: nat)
    requires Consistent(t) && Justified(t, ca, live) && Startable(t, start, level)
    requires k <= i < |t.lits| && t.Reason(t.lits[i].v) == UNDEF && t.LevelAt(i) >= level && Neg(t.lits[i]) !in front
    ensures Neg(t.lits[i]) in Collect(t, ca, start, level, front, k)
            <==> exists s :: s in start && Rests(t, ca, s, t.lits[i].v)
  {
    hide Walk, Collect, Chain, Justified;
    CollectExact(t, ca, start, level, front, k, i);
    if t.lits[i].v in Walk(t, ca, start, level, i + 1) {
      var s := FlaggedRests(t, ca, start, level, i + 1, t.lits[i].v);
    }
    if s :| s in start && Rests(t, ca, s, t.lits[i].v) {
      var path :| path != [] && path[0] == s && path[|path| - 1] == t.lits[i].v && Chain(t, ca, path);
      ChainAbove(t, ca, path);
      var m := RestsFlagged(t, ca, live, start, level, path, |path| - 1);
      assert m == i;
    }
  }

  /** Of the literals without a reason from level 1 on, the final conflict blames exactly those on which p rests. */
  lemma BlameExact(t: Trail, ca: seq<Clause>, live: set<int>, p: Lit, i: nat)
    requires Consistent(t) && Justified(t, ca, live) && t.True(p) && t.lim != []
    requires t.lim[0] <= i < |t.lits| && t.Reason(t.lits[i].v) == UNDEF
    ensures Neg(t.lits[i]) in FinalOf(t, ca, p) <==> Rests(t, ca, p.v, t.lits[i].v)
  {
    hide Collect, Rests, Justified;
    assert t.True(t.lits[i]) && Neg(t.lits[i]) != p && t.OnTrail(p.v);
    CollectedRests(t, ca, live, {p.v}, 0, [p], t.lim[0], i);
  }

  /** And nothing else is collected. */
  lemma {:induction false} CollectsOnly(t: Trail, ca: seq<Clause>, start: set<Var>, level: nat, front: seq<Lit>, k: nat,
                                        l: Lit)
    requires l in Collect(t, ca, start, level, front, k)
    ensures l in front || exists i: nat :: k <= i < |t.lits| && l == Neg(t.lits[i]) && t.Reason(t.lits[i].v) == UNDEF
    decreases |t.lits| - k
  {
    hide Walk;
    if k < |t.lits| && l in Collect(t, ca, start, level, front, k + 1) {
      CollectsOnly(t, ca, start, level, front, k + 1, l);
    }
  }

  // ---------- The steps of analyzeFinal ----------

  lemma BlameStart(t: Trail, ca: seq<Clause>, p: Lit)
    ensures Walk(t, ca, {p.v}, 0, |t.lits|) == {p.v} && Collect(t, ca, {p.v}, 0, [p], |t.lits|) == [p]
  {
  }

  lemma BlameSkip(t: Trail, ca: seq<Clause>, p: Lit, i: nat)
    requires i < |t.lits| && t.lits[i].v !in Walk(t, ca, {p.v}, 0, i + 1)
    ensures Walk(t, ca, {p.v}, 0, i) == Walk(t, ca, {p.v}, 0, i + 1)
    ensures Collect(t, ca, {p.v}, 0, [p], i) == Collect(t, ca, {p.v}, 0, [p], i + 1)
  {
  }

  /** One position further down; flagged is what has been flagged there besides. */
  lemma BlameStep(t: Trail, ca: seq<Clause>, p: Lit, i: nat, flagged: set<Var>)
    requires i < |t.lits| && (t.Reason(t.lits[i].v) == UNDEF ==> flagged == {})
    requires t.Reason(t.lits[i].v) != UNDEF ==> 0 <= t.Reason(t.lits[i].v) < |ca|
    requires t.Reason(t.lits[i].v) != UNDEF ==>
               Flag(t, ca[t.Reason(t.lits[i].v)]) - {t.lits[i].v} <= flagged <= Flag(t, ca[t.Reason(t.lits[i].v)])
    ensures var x, flags := t.lits[i].v, Walk(t, ca, {p.v}, 0, i + 1);
      && Walk(t, ca, {p.v}, 0, i) == (if x in flags then flags + flagged - {x} else flags)
      && Collect(t, ca, {p.v}, 0, [p], i) == Collect(t, ca, {p.v}, 0, [p], i + 1)
                                 + if x in flags && t.Reason(x) == UNDEF then [Neg(t.lits[i])] else []
  {
    var r := t.Reason(t.lits[i].v);
    if r != UNDEF {
      FlagAbove(t, ca[r]);
      assert ca[r][0..] == ca[r];
      assert Causes(t, ca, i) == Flag(t, ca[r]) - {t.lits[i].v};
    } else {
      assert Causes(t, ca, i) == {};
    }
  }

  // ---------- The steps of simpleAnalyze ----------

  ghost function Positive(t: Trail, vs: set<Var>): set<Var> {
    set v | v in vs && t.Level(v) > 0
  }

  /** simpleAnalyze has come down to position k; taken says that it has taken the literal there, but not yet resolved
      it. Flags of level 0 do not matter. */
  ghost predicate Tracks(t: Trail, ca: seq<Clause>, start: set<Var>, front: seq<Lit>, k: nat, seen: set<Var>,
                         out: seq<Lit>, taken: bool) {
    if taken then
      && k < |t.lits| && Stops(t, 1, Walk(t, ca, start, 1, k + 1), k)
      && Positive(t, seen) == Walk(t, ca, start, 1, k + 1) - {t.lits[k].v}
      && out == Collect(t, ca, start, 1, front, k + 1)
    else
      && k <= |t.lits| && Positive(t, seen) == Walk(t, ca, start, 1, k) && out == Collect(t, ca, start, 1, front, k)
  }

  /** The clause c has been flagged to begin with. */
  lemma TracksStart(t: Trail, ca: seq<Clause>, c: Clause, front: seq<Lit>, seen0: set<Var>, seen: set<Var>)
    requires Positive(t, seen0) == {} && seen == seen0 + Vars(c)
    ensures Tracks(t, ca, Above(t, c), front, |t.lits|, seen, front, false)
  {
    PositiveVars(t, c);
    assert Positive(t, seen) == Positive(t, seen0) + Positive(t, Vars(c));
  }

  lemma PositiveVars(t: Trail, c: Clause)
    ensures Positive(t, Vars(c)) == Above(t, c) == Flag(t, c)
  {
    forall v | v in Above(t, c)
      ensures v in Vars(c) && v in Flag(t, c)
    {
      var q :| q in c && t.Level(q.v) > 0 && q.v == v;
      var k :| 0 <= k < |c| && c[k] == q;
    }
    forall v | v in Vars(c) && t.Level(v) > 0
      ensures v in Above(t, c)
    {
      var k :| 0 <= k < |c| && c[k].v == v;
      assert c[k] in c;
    }
  }

  /** The literal taken is implied: its causes have been flagged. */
  lemma TracksReason(t: Trail, ca: seq<Clause>, ca': seq<Clause>, start: set<Var>, front: seq<Lit>, k: nat,
                     seen0: set<Var>, seen: set<Var>, out: seq<Lit>, cr: int)
    requires Tracks(t, ca, start, front, k, seen0, out, true) && SameArena(ca, ca')
    requires cr == t.Reason(t.lits[k].v) && 0 <= cr < |ca'| && Distinct(ca'[cr]) && |ca'[cr]| > 0
    requires ca'[cr][0] == t.lits[k] && seen == seen0 + Vars(ca'[cr][1..])
    ensures Tracks(t, ca, start, front, k, seen, out, false)
  {
    hide Causes, SameArena;
    CausesTail(t, ca, ca', k, cr);
    PositiveVars(t, ca'[cr][1..]);
    assert Positive(t, seen) == Positive(t, seen0) + Positive(t, Vars(ca'[cr][1..]));
  }

  /** The literal taken has been assumed: its negation is collected. */
  lemma TracksDecision(t: Trail, ca: seq<Clause>, start: set<Var>, front: seq<Lit>, k: nat, seen: set<Var>,
                       out: seq<Lit>)
    requires Tracks(t, ca, start, front, k, seen, out, true) && t.Reason(t.lits[k].v) == UNDEF
    ensures Tracks(t, ca, start, front, k, seen, out + [Neg(t.lits[k])], false)
  {
    assert Causes(t, ca, k) == {};
  }

  lemma {:induction false} CollectPasses(t: Trail, ca: seq<Clause>, start: set<Var>, front: seq<Lit>, i: nat, k: nat)
    requires i <= k <= |t.lits|
    requires forall j :: i <= j < k ==> !Stops(t, 1, Walk(t, ca, start, 1, k), j)
    ensures Collect(t, ca, start, 1, front, i) == Collect(t, ca, start, 1, front, k)
    decreases k - i
  {
    hide Walk;
    if i < k {
      CollectPasses(t, ca, start, front, i + 1, k);
      WalkPasses(t, ca, start, 1, i + 1, k);
    }
  }

  /** Down to position i nothing is flagged; there the next literal is taken. */
  lemma TracksTake(t: Trail, ca: seq<Clause>, start: set<Var>, front: seq<Lit>, k: nat, seen: set<Var>, out: seq<Lit>,
                   i: nat)
    requires Tracks(t, ca, start, front, k, seen, out, false) && i < k && t.lits[i].v in seen && t.LevelAt(i) > 0
    requires forall j :: i < j < k ==> t.lits[j].v !in seen
    ensures Tracks(t, ca, start, front, i, seen - {t.lits[i].v}, out, true)
  {
    hide Walk, Collect;
    WalkPasses(t, ca, start, 1, i + 1, k);
    CollectPasses(t, ca, start, front, i + 1, k);
  }

  /** Down to position r nothing is flagged: what has been collected is final. */
  lemma TracksEnd(t: Trail, ca: seq<Clause>, start: set<Var>, front: seq<Lit>, k: nat, seen: set<Var>, out: seq<Lit>,
                  r: nat)
    requires Tracks(t, ca, start, front, k, seen, out, false) && r <= k
    requires forall j :: r <= j < k ==> t.lits[j].v !in seen
    ensures out == Collect(t, ca, start, 1, front, r)
  {
    hide Walk, Collect;
    CollectPasses(t, ca, start, front, r, k);
  }
}
