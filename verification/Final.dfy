/** analyzeFinal: expressing a falsified assumption in terms of the assumptions before it. */
module FinalConflict {
  import opened Cnf
  import opened Trails
  import opened Backtracking
  import opened Database
  import opened Analysis
  import opened Unwinding
  import opened Blaming
  import opened Watching
  import opened Propagation
  import opened Kernel
  import opened Steps

  /** The decision of each of the first levels is the assumption of that level. */
  ghost predicate Decided(t: Trail, assumptions: seq<Lit>) {
    forall i :: 0 <= i < |t.lits| && t.Reason(t.lits[i].v) == UNDEF && 0 < t.LevelAt(i) <= |assumptions| ==>
      t.lits[i] == assumptions[t.LevelAt(i) - 1]
  }

  /** Every assumption that has had its turn is true, at its own level or below. */
  ghost predicate Assumed(t: Trail, assumptions: seq<Lit>) {
    forall k :: 0 <= k < |t.lim| && k < |assumptions| ==> t.True(assumptions[k]) && t.Level(assumptions[k].v) <= k + 1
  }

  ghost predicate Assuming(t: Trail, assumptions: seq<Lit>) {
    Decided(t, assumptions) && Assumed(t, assumptions)
  }

  lemma EnqueueAssuming(t: Trail, p: Lit, level: nat, from: int, assumptions: seq<Lit>)
    requires Consistent(t) && Assuming(t, assumptions) && p.v < |t.vardata| && t.Undef(p)
    requires from == UNDEF && 0 < level <= |assumptions| ==> p == assumptions[level - 1]
    ensures Assuming(Enqueue(t, p, level, from), assumptions)
  {
    var t' := Enqueue(t, p, level, from);
    forall i | 0 <= i < |t'.lits| && t'.Reason(t'.lits[i].v) == UNDEF && 0 < t'.LevelAt(i) <= |assumptions|
      ensures t'.lits[i] == assumptions[t'.LevelAt(i) - 1]
    {
      if i < |t.lits| {
        assert t.True(t.lits[i]);
        assert t'.LevelAt(i) == t.LevelAt(i) && t'.Reason(t.lits[i].v) == t.Reason(t.lits[i].v);
      }
    }
  }

  lemma CancelAssuming(t: Trail, b: nat, assumptions: seq<Lit>)
    requires Assuming(t, assumptions) && b < |t.lim|
    ensures Assuming(CancelUntil(t, b), assumptions)
  {
    var t' := CancelUntil(t, b);
    var kept := Kept(t, b, |t.lits|);
    KeptIsExact(t, b, |t.lits|);
    forall i | 0 <= i < |t'.lits| && t'.Reason(t'.lits[i].v) == UNDEF && 0 < t'.LevelAt(i) <= |assumptions|
      ensures t'.lits[i] == assumptions[t'.LevelAt(i) - 1]
    {
      assert t'.lits[i] == t.lits[kept[i]] && t'.LevelAt(i) == t.LevelAt(kept[i]);
    }
    forall k | 0 <= k < |t'.lim| && k < |assumptions|
      ensures t'.True(assumptions[k]) && t'.Level(assumptions[k].v) <= k + 1
    {
      assert t.True(assumptions[k]) && t.Level(assumptions[k].v) <= k + 1;
    }
  }

  // ---------- The loop of analyzeFinal ----------

  /** The flags while the trail is searched down to position i. */
  ghost predicate Flagging(t: Trail, i: nat, p: Lit, seen: set<Var>, visited: set<Var>) {
    && i <= |t.lits| && p.v in visited && seen <= visited
    && (forall v :: v in visited ==> (v == p.v || t.Level(v) > 0) && FoundBelow(t, v, |t.lits|))
    && (forall v :: v in visited && v !in seen ==> !FoundBelow(t, v, i))
  }

  /** What has been visited at position i or above is in the conflict or expanded. */
  ghost predicate Explained(t: Trail, ca: seq<Clause>, i: nat, seen: set<Var>, visited: set<Var>, conflict: seq<Lit>) {
    forall k :: i <= k < |t.lits| && t.lits[k].v in visited ==>
      t.lits[k].v !in seen && (Neg(t.lits[k]) in conflict || Expanded(t, ca, visited, t.lits[k].v))
  }

  /** l is the negation of a literal without reason, at position i or above. */
  ghost predicate Collected(t: Trail, i: nat, p: Lit, l: Lit) {
    exists k ::
      i <= k < |t.lits| && l == Neg(t.lits[k]) && t.Reason(l.v) == UNDEF && (l.v == p.v || t.Level(l.v) > 0)
  }

  /** The state of the loop of analyzeFinal with the trail searched down to position i. */
  ghost predicate Tracing(t: Trail, ca: seq<Clause>, i: nat, p: Lit, seen: set<Var>, visited: set<Var>,
                          conflict: seq<Lit>) {
    && Flagging(t, i, p, seen, visited) && Explained(t, ca, i, seen, visited, conflict)
    && conflict != [] && conflict[0] == p && (forall l :: l in conflict ==> l == p || Collected(t, i, p, l))
  }

  lemma TraceStart(t: Trail, ca: seq<Clause>, p: Lit)
    requires Consistent(t) && t.True(p)
    ensures Tracing(t, ca, |t.lits|, p, {p.v}, {p.v}, [p])
  {
    assert t.OnTrail(p.v);
    assert FoundBelow(t, p.v, |t.lits|);
  }

  /** Nothing flagged before at the bottom of the trail is met on the way down to level 1. */
  lemma NotStale(t: Trail, i: nat, stale: set<Var>)
    requires Consistent(t) && RootFlags(t, stale) && t.lim != [] && t.lim[0] <= i < |t.lits|
    ensures t.lits[i].v !in stale
  {
    forall v | v in stale
      ensures v != t.lits[i].v
    {
      var j :| 0 <= j < t.lim[0] && j < |t.lits| && t.lits[j].v == v;
    }
  }

  lemma BelowSplit(t: Trail, v: Var, i: nat)
    requires i < |t.lits|
    ensures FoundBelow(t, v, i + 1) <==> FoundBelow(t, v, i) || v == t.lits[i].v
  {
    if v == t.lits[i].v {
      assert FoundBelow(t, v, i + 1);
    }
  }

  lemma TraceSkip(t: Trail, ca: seq<Clause>, i: nat, p: Lit, seen: set<Var>, visited: set<Var>, conflict: seq<Lit>)
    requires Tracing(t, ca, i + 1, p, seen, visited, conflict) && i < |t.lits| && t.lits[i].v !in seen
    ensures Tracing(t, ca, i, p, seen, visited, conflict)
  {
    BelowSplit(t, t.lits[i].v, i);
    forall v | v in visited && v !in seen
      ensures !FoundBelow(t, v, i)
    {
      BelowSplit(t, v, i);
    }
  }

  lemma TraceDecision(t: Trail, ca: seq<Clause>, i: nat, p: Lit, seen: set<Var>, visited: set<Var>, conflict: seq<Lit>)
    requires Consistent(t) && Tracing(t, ca, i + 1, p, seen, visited, conflict) && i < |t.lits|
    requires t.lits[i].v in seen && t.Reason(t.lits[i].v) == UNDEF
    ensures Tracing(t, ca, i, p, seen - {t.lits[i].v}, visited, conflict + [Neg(t.lits[i])])
  {
    var x := t.lits[i].v;
    assert !FoundBelow(t, x, i);
    forall v | v in visited && v !in seen
      ensures !FoundBelow(t, v, i)
    {
      BelowSplit(t, v, i);
    }
    var conflict' := conflict + [Neg(t.lits[i])];
    assert conflict'[|conflict|] == Neg(t.lits[i]);
    assert t.Level(x) > 0 || x == p.v;
    forall l | l in conflict'
      ensures l == p || Collected(t, i, p, l)
    {
      if l !in conflict {
        assert l == Neg(t.lits[i]);
      }
    }
  }

  lemma TraceReason(t: Trail, ca: seq<Clause>, live: set<int>, i: nat, p: Lit, seen: set<Var>, visited: set<Var>,
                    conflict: seq<Lit>, flagged: set<Var>)
    requires Consistent(t) && Justified(t, ca, live) && Tracing(t, ca, i + 1, p, seen, visited, conflict)
    requires i < |t.lits|
    requires t.lits[i].v in seen && t.Reason(t.lits[i].v) != UNDEF
    requires 0 <= t.Reason(t.lits[i].v) < |ca|
    requires Flag(t, ca[t.Reason(t.lits[i].v)]) - {t.lits[i].v} <= flagged <= Flag(t, ca[t.Reason(t.lits[i].v)])
    ensures Tracing(t, ca, i, p, seen + flagged - {t.lits[i].v}, visited + flagged, conflict)
  {
    hide Flagging, Explained;
    var x := t.lits[i].v;
    FlagBelow(t, ca, live, i, flagged);
    TraceFlags(t, i, p, seen, visited, flagged);
    TraceExplained(t, ca, i, p, seen, visited, conflict, flagged);
    assert forall l :: Collected(t, i + 1, p, l) ==> Collected(t, i, p, l);
  }

  lemma FlagBelow(t: Trail, ca: seq<Clause>, live: set<int>, i: nat, flagged: set<Var>)
    requires Consistent(t) && Justified(t, ca, live) && i < |t.lits|
    requires 0 <= t.Reason(t.lits[i].v) < |ca| && flagged <= Flag(t, ca[t.Reason(t.lits[i].v)])
    ensures forall v :: v in flagged ==> t.Level(v) > 0 && FoundBelow(t, v, i + 1)
    ensures forall v :: v in flagged && v != t.lits[i].v ==> FoundBelow(t, v, i)
  {
    var c := ca[t.Reason(t.lits[i].v)];
    assert Antecedents(t, ca, live, i);
    forall v | v in flagged
      ensures t.Level(v) > 0 && FoundBelow(t, v, i + 1) && (v != t.lits[i].v ==> FoundBelow(t, v, i))
    {
      var j :| 0 <= j < |c| && t.Level(c[j].v) > 0 && c[j].v == v;
      assert c[j] in c;
      BelowSplit(t, v, i);
      if v != t.lits[i].v {
        var n :| 0 <= n < i && n < |t.lits| && t.lits[n] == Neg(c[j]);
      }
    }
  }

  lemma TraceFlags(t: Trail, i: nat, p: Lit, seen: set<Var>, visited: set<Var>, flagged: set<Var>)
    requires Consistent(t) && Flagging(t, i + 1, p, seen, visited) && i < |t.lits| && t.lits[i].v in seen
    requires forall v :: v in flagged ==> t.Level(v) > 0 && FoundBelow(t, v, i + 1)
    ensures Flagging(t, i, p, seen + flagged - {t.lits[i].v}, visited + flagged)
  {
    var x := t.lits[i].v;
    assert !FoundBelow(t, x, i);
    forall v | v in flagged
      ensures FoundBelow(t, v, |t.lits|)
    {
      var n :| 0 <= n < i + 1 && n < |t.lits| && t.lits[n].v == v;
    }
    forall v | v in visited && v !in seen
      ensures !FoundBelow(t, v, i)
    {
      BelowSplit(t, v, i);
    }
  }

  lemma TraceExplained(t: Trail, ca: seq<Clause>, i: nat, p: Lit, seen: set<Var>, visited: set<Var>,
                       conflict: seq<Lit>, flagged: set<Var>)
    requires Consistent(t) && Tracing(t, ca, i + 1, p, seen, visited, conflict) && i < |t.lits| && t.lits[i].v in seen
    requires t.Reason(t.lits[i].v) != UNDEF && 0 <= t.Reason(t.lits[i].v) < |ca|
    requires Flag(t, ca[t.Reason(t.lits[i].v)]) - {t.lits[i].v} <= flagged
    requires forall v :: v in flagged && v != t.lits[i].v ==> FoundBelow(t, v, i)
    ensures Explained(t, ca, i, seen + flagged - {t.lits[i].v}, visited + flagged, conflict)
  {
    var x := t.lits[i].v;
    var c := ca[t.Reason(x)];
    assert Expanded(t, ca, visited + flagged, x) by {
      forall q | q in c && q.v != x
        ensures q.v in visited + flagged || t.Level(q.v) == 0
      {
        var j :| 0 <= j < |c| && c[j] == q;
      }
    }
    forall k | i < k < |t.lits| && t.lits[k].v in visited + flagged
      ensures t.lits[k].v !in seen + flagged
      ensures Neg(t.lits[k]) in conflict || Expanded(t, ca, visited + flagged, t.lits[k].v)
    {
      TraceOlder(t, ca, i, p, seen, visited, conflict, flagged, k);
    }
  }

  lemma TraceOlder(t: Trail, ca: seq<Clause>, i: nat, p: Lit, seen: set<Var>, visited: set<Var>,
                   conflict: seq<Lit>, flagged: set<Var>, k: nat)
    requires Consistent(t) && Tracing(t, ca, i + 1, p, seen, visited, conflict) && i < k < |t.lits|
    requires forall v :: v in flagged && v != t.lits[i].v ==> FoundBelow(t, v, i)
    requires t.lits[k].v in visited + flagged
    ensures t.lits[k].v !in seen + flagged
    ensures Neg(t.lits[k]) in conflict || Expanded(t, ca, visited + flagged, t.lits[k].v)
  {
    var v := t.lits[k].v;
    assert !FoundBelow(t, v, i);
    assert v !in flagged && v in visited;
    if Expanded(t, ca, visited, v) {
      SameArenaRefl(ca);
      ExpandedMore(t, ca, ca, visited, visited + flagged, v);
    }
  }

  /** If the model falsifies the collected literals, then what they imply, p, is true in it. */
  lemma FinalHolds(m: Model, t: Trail, ca: seq<Clause>, live: set<int>, i: nat, p: Lit, seen: set<Var>,
                   visited: set<Var>, conflict: seq<Lit>)
    requires Consistent(t) && Justified(t, ca, live) && MeetsDb(m, t, ca, live) && t.True(p)
    requires Tracing(t, ca, i, p, seen, visited, conflict) && (forall k :: 0 <= k < i ==> t.LevelAt(k) == 0)
    requires forall l :: l in conflict && l != p ==> !Holds(m, l)
    ensures Holds(m, p)
  {
    forall j | 0 <= j < |t.lits| && t.lits[j].v in visited
      ensures InCone(t, ca, m, visited, t.lits[j])
    {
      assert t.True(t.lits[j]);
      if j >= i && Neg(t.lits[j]) !in conflict {
        ExpandedInCone(m, t, ca, live, visited, j);
      }
    }
    ConeTrue(t, ca, live, m, visited, |t.lits|);
    assert t.OnTrail(p.v);
    var j :| 0 <= j < |t.lits| && t.lits[j].v == p.v;
    assert t.True(t.lits[j]) && t.lits[j] == p;
  }

  /** The clause left by analyzeFinal follows from the database. */
  lemma FinalEntailed(t: Trail, ca: seq<Clause>, live: set<int>, f: set<Clause>, i: nat, p: Lit, seen: set<Var>,
                      visited: set<Var>, conflict: seq<Lit>)
    requires Consistent(t) && Justified(t, ca, live) && Derived(t, ca, live, f) && t.True(p)
    requires Tracing(t, ca, i, p, seen, visited, conflict) && (forall k :: 0 <= k < i ==> t.LevelAt(k) == 0)
    ensures Entails(f, conflict)
  {
    assert conflict[0] in conflict;
    forall m | Models(m, f)
      ensures Satisfies(m, conflict)
    {
      ModelMeetsDb(m, t, ca, live, f);
      if forall l :: l in conflict && l != p ==> !Holds(m, l) {
        FinalHolds(m, t, ca, live, i, p, seen, visited, conflict);
      }
    }
  }

  /** p is true on the trail at level 0 without a reason, although level 1 had started: a learnt unit clause
      enqueued after chronological backtracking. */
  ghost predicate LateRootUnit(t: Trail, p: Lit) {
    |t.lim| > 0 && t.Reason(p.v) == UNDEF && t.Level(p.v) == 0 && exists k :: t.lim[0] <= k < |t.lits| && t.lits[k] == p
  }

  /** What analyzeFinal collects: p, whose negation is the falsified assumption, and negations of other assumptions;
      unless p is a late root unit, when the assumption itself is collected too. */
  lemma FinalShape(t: Trail, ca: seq<Clause>, p: Lit, seen: set<Var>, visited: set<Var>, conflict: seq<Lit>,
                   assumptions: seq<Lit>)
    requires Consistent(t) && Leveled(t) && t.True(p) && |t.lim| > 0 && |t.lim| < |assumptions|
    requires Decided(t, assumptions) && Neg(p) in assumptions
    requires Tracing(t, ca, t.lim[0], p, seen, visited, conflict)
    ensures forall l :: l in conflict ==> Neg(l) in assumptions || (l == Neg(p) && LateRootUnit(t, p))
    ensures LateRootUnit(t, p) ==> Neg(p) in conflict
  {
    forall l | l in conflict
      ensures Neg(l) in assumptions || (l == Neg(p) && LateRootUnit(t, p))
    {
      if l != p {
        assert Collected(t, t.lim[0], p, l);
        var k :| t.lim[0] <= k < |t.lits| && l == Neg(t.lits[k]) && t.Reason(l.v) == UNDEF
            && (l.v == p.v || t.Level(l.v) > 0);
        if t.Level(l.v) > 0 {
          assert t.LevelAt(k) <= |t.lim|;
          assert t.lits[k] == assumptions[t.LevelAt(k) - 1];
        } else {
          assert t.True(t.lits[k]);
          assert t.lits[k] == p;
        }
      }
    }
    if LateRootUnit(t, p) {
      var k :| t.lim[0] <= k < |t.lits| && t.lits[k] == p;
      assert t.lits[k].v in visited;
    }
  }

  lemma TrailReason(s: State, i: nat)
    requires Base(s) && i < |s.t.lits| && s.t.Reason(s.t.lits[i].v) != UNDEF
    ensures 0 <= s.t.Reason(s.t.lits[i].v) < |s.ca| && |s.ca[s.t.Reason(s.t.lits[i].v)]| >= 2
    ensures |s.ca[s.t.Reason(s.t.lits[i].v)]| > 2 ==> s.ca[s.t.Reason(s.t.lits[i].v)][0].v == s.t.lits[i].v
  {
    assert Antecedents(s.t, s.ca, s.live, i);
  }

  /** A literal true at level 0 is a unit consequence. */
  lemma RootConflict(s: State, p: Lit)
    requires Base(s) && s.t.True(p) && |s.t.lim| == 0
    ensures Entails(s.f, [p]) && !LateRootUnit(s.t, p)
  {
    assert s.t.OnTrail(p.v);
    var j :| 0 <= j < |s.t.lits| && s.t.lits[j].v == p.v;
    assert s.t.True(s.t.lits[j]) && s.t.lits[j] == p && s.t.LevelAt(j) <= 0;
  }

  lemma TraceEnd(s: State, p: Lit, seen: set<Var>, visited: set<Var>, conflict: seq<Lit>, assumptions: seq<Lit>)
    requires Base(s) && s.t.True(p) && 0 < |s.t.lim| < |assumptions| && Decided(s.t, assumptions)
    requires Neg(p) in assumptions
    requires Tracing(s.t, s.ca, s.t.lim[0], p, seen, visited, conflict)
    ensures Entails(s.f, conflict) && conflict != [] && conflict[0] == p && seen - {p.v} == {}
    ensures forall l :: l in conflict ==> Neg(l) in assumptions || (l == Neg(p) && LateRootUnit(s.t, p))
    ensures LateRootUnit(s.t, p) ==> Neg(p) in conflict
  {
    hide Expanded, Listing, Covering, Collected, LateRootUnit, Entails;
    FinalEntailed(s.t, s.ca, s.live, s.f, s.t.lim[0], p, seen, visited, conflict);
    FinalShape(s.t, s.ca, p, seen, visited, conflict, assumptions);
    forall v | v in seen
      ensures v == p.v
    {
      var j :| 0 <= j < |s.t.lits| && s.t.lits[j].v == v;
      assert j < s.t.lim[0];
      assert s.t.LevelAt(j) <= 0;
    }
  }

  lemma FinalParts(s: State, qhead: nat)
    requires Ready(s, qhead)
    ensures Base(s) && Consistent(s.t) && Justified(s.t, s.ca, s.live) && Derived(s.t, s.ca, s.live, s.f)
    ensures |s.t.lim| > 0 ==> s.t.lim[0] <= |s.t.lits|
  {
  }

  // ---------- The steps of analyzeFinal ----------

  /** analyzeFinal has come down to position i. */
  ghost predicate Explaining(t: Trail, ca: seq<Clause>, i: nat, p: Lit, seen: set<Var>, visited: set<Var>,
                             conflict: seq<Lit>) {
    && Tracing(t, ca, i, p, seen, visited, conflict)
    && seen == Walk(t, ca, {p.v}, 0, i) && conflict == Collect(t, ca, {p.v}, 0, [p], i)
  }

  lemma ExplainStart(t: Trail, ca: seq<Clause>, p: Lit)
    requires Consistent(t) && t.True(p)
    ensures Explaining(t, ca, |t.lits|, p, {p.v}, {p.v}, [p])
  {
    hide Tracing;
    TraceStart(t, ca, p);
    BlameStart(t, ca, p);
  }

  lemma ExplainSkip(t: Trail, ca: seq<Clause>, i: nat, p: Lit, seen: set<Var>, visited: set<Var>, conflict: seq<Lit>)
    requires Explaining(t, ca, i + 1, p, seen, visited, conflict) && i < |t.lits| && t.lits[i].v !in seen
    ensures Explaining(t, ca, i, p, seen, visited, conflict)
  {
    hide Tracing, Walk, Collect;
    TraceSkip(t, ca, i, p, seen, visited, conflict);
    BlameSkip(t, ca, p, i);
  }

  lemma ExplainDecision(t: Trail, ca: seq<Clause>, i: nat, p: Lit, seen: set<Var>, visited: set<Var>,
                        conflict: seq<Lit>)
    requires Consistent(t) && Explaining(t, ca, i + 1, p, seen, visited, conflict) && i < |t.lits|
    requires t.lits[i].v in seen && t.Reason(t.lits[i].v) == UNDEF
    ensures Explaining(t, ca, i, p, seen - {t.lits[i].v}, visited, conflict + [Neg(t.lits[i])])
  {
    hide Tracing, Walk, Collect;
    TraceDecision(t, ca, i, p, seen, visited, conflict);
    BlameStep(t, ca, p, i, {});
  }

  lemma ExplainReason(t: Trail, ca: seq<Clause>, live: set<int>, i: nat, p: Lit, seen: set<Var>, visited: set<Var>,
                      conflict: seq<Lit>, flagged: set<Var>)
    requires Consistent(t) && Justified(t, ca, live) && Explaining(t, ca, i + 1, p, seen, visited, conflict)
    requires i < |t.lits| && t.lits[i].v in seen && t.Reason(t.lits[i].v) != UNDEF
    requires 0 <= t.Reason(t.lits[i].v) < |ca|
    requires Flag(t, ca[t.Reason(t.lits[i].v)]) - {t.lits[i].v} <= flagged <= Flag(t, ca[t.Reason(t.lits[i].v)])
    ensures Explaining(t, ca, i, p, seen + flagged - {t.lits[i].v}, visited + flagged, conflict)
  {
    hide Tracing, Walk, Collect, Flag;
    TraceReason(t, ca, live, i, p, seen, visited, conflict, flagged);
    BlameStep(t, ca, p, i, flagged);
  }

  /** The walk has come to the start of level 1. */
  lemma ExplainEnd(s: State, p: Lit, seen: set<Var>, visited: set<Var>, conflict: seq<Lit>, assumptions: seq<Lit>)
    requires Base(s) && s.t.lim != [] && Explaining(s.t, s.ca, s.t.lim[0], p, seen, visited, conflict)
    requires Decided(s.t, assumptions) && s.t.True(p) && |s.t.lim| < |assumptions| && Neg(p) in assumptions
    ensures Entails(s.f, conflict) && conflict != [] && conflict[0] == p && seen - {p.v} == {}
    ensures conflict == FinalOf(s.t, s.ca, p)
    ensures forall l :: l in conflict ==> Neg(l) in assumptions || (l == Neg(p) && LateRootUnit(s.t, p))
    ensures LateRootUnit(s.t, p) ==> Neg(p) in conflict
  {
    hide Tracing, Walk, Collect, Base, Entails, LateRootUnit;
    TraceEnd(s, p, seen, visited, conflict, assumptions);
  }

  lemma AssumingParts(t: Trail, assumptions: seq<Lit>)
    requires Assuming(t, assumptions)
    ensures Decided(t, assumptions) && Assumed(t, assumptions)
  {
  }

  lemma NewLevelDecided(t: Trail, assumptions: seq<Lit>)
    requires Decided(t, assumptions)
    ensures Decided(NewLevel(t), assumptions)
  {
    assert forall i :: 0 <= i < |t.lits| ==> NewLevel(t).LevelAt(i) == t.LevelAt(i);
  }

  /** A true assumption only opens a dummy level. */
  lemma DummyLevel(s: State, assumptions: seq<Lit>)
    requires Ready(s, |s.t.lits|) && Assuming(s.t, assumptions)
    requires |s.t.lim| < |assumptions| && s.t.True(assumptions[|s.t.lim|])
    ensures Ready(s.(t := NewLevel(s.t)), |s.t.lits|) && Assuming(NewLevel(s.t), assumptions)
  {
    hide Ready, Leveled;
    NewLevelReady(s);
    NewLevelDecided(s.t, assumptions);
    ReadyParts(s, |s.t.lits|);
    AssignedLevel(s.t, assumptions[|s.t.lim|]);
  }

  /** An undefined assumption, or after all assumptions any undefined literal, is decided at a level of its own. */
  lemma DecideAll(s: State, p: Lit, assumptions: seq<Lit>)
    requires Ready(s, |s.t.lits|) && Assuming(s.t, assumptions) && p.v < |s.t.vardata| && s.t.Undef(p)
    requires |s.t.lim| < |assumptions| ==> p == assumptions[|s.t.lim|]
    ensures p.v < |NewLevel(s.t).vardata|
    ensures Ready(s.(t := Enqueue(NewLevel(s.t), p, |s.t.lim| + 1, UNDEF)), |s.t.lits|)
    ensures Assuming(Enqueue(NewLevel(s.t), p, |s.t.lim| + 1, UNDEF), assumptions)
  {
    hide Ready, Leveled;
    NewLevelReady(s);
    DecideReady(s.(t := NewLevel(s.t)), |s.t.lits|, p);
    NewLevelDecided(s.t, assumptions);
    ReadyParts(s, |s.t.lits|);
    DecideAssuming(s.t, p, assumptions);
  }

  lemma DecideAssuming(t: Trail, p: Lit, assumptions: seq<Lit>)
    requires Consistent(t) && Assuming(t, assumptions) && p.v < |t.vardata| && t.Undef(p)
    requires |t.lim| < |assumptions| ==> p == assumptions[|t.lim|]
    ensures Assuming(Enqueue(NewLevel(t), p, |t.lim| + 1, UNDEF), assumptions)
  {
    hide Decided, Assumed, Consistent;
    DecideDecided(t, p, assumptions);
    DecideAssumed(t, p, assumptions);
  }

  lemma DecideDecided(t: Trail, p: Lit, assumptions: seq<Lit>)
    requires Consistent(t) && Decided(t, assumptions) && p.v < |t.vardata| && t.Undef(p)
    requires |t.lim| < |assumptions| ==> p == assumptions[|t.lim|]
    ensures Decided(Enqueue(NewLevel(t), p, |t.lim| + 1, UNDEF), assumptions)
  {
    var t' := Enqueue(NewLevel(t), p, |t.lim| + 1, UNDEF);
    forall i | 0 <= i < |t.lits|
      ensures t'.lits[i] == t.lits[i] && t'.LevelAt(i) == t.LevelAt(i)
      ensures t'.Reason(t.lits[i].v) == t.Reason(t.lits[i].v)
    {
      assert t.True(t.lits[i]);
    }
    assert t'.LevelAt(|t.lits|) == |t.lim| + 1;
  }

  lemma DecideAssumed(t: Trail, p: Lit, assumptions: seq<Lit>)
    requires Assumed(t, assumptions) && p.v < |t.vardata| && t.Undef(p)
    requires |t.lim| < |assumptions| ==> p == assumptions[|t.lim|]
    ensures Assumed(Enqueue(NewLevel(t), p, |t.lim| + 1, UNDEF), assumptions)
  {
    var t' := Enqueue(NewLevel(t), p, |t.lim| + 1, UNDEF);
    forall k | 0 <= k < |t'.lim| && k < |assumptions|
      ensures t'.True(assumptions[k]) && t'.Level(assumptions[k].v) <= k + 1
    {
      if k < |t.lim| {
        assert t.True(assumptions[k]);
      }
    }
  }

  /** Propagation makes no decisions. */
  lemma ExtendsAssuming(t: Trail, t': Trail, assumptions: seq<Lit>)
    requires Consistent(t) && Extends(t, t') && Assuming(t, assumptions)
    ensures Assuming(t', assumptions) && |t'.vardata| == |t.vardata|
  {
    forall i | 0 <= i < |t'.lits| && t'.Reason(t'.lits[i].v) == UNDEF && 0 < t'.LevelAt(i) <= |assumptions|
      ensures t'.lits[i] == assumptions[t'.LevelAt(i) - 1]
    {
      assert i < |t.lits|;
      assert t'.lits[i] == t.lits[i] && t.True(t.lits[i]);
    }
    forall k | 0 <= k < |t'.lim| && k < |assumptions|
      ensures t'.True(assumptions[k]) && t'.Level(assumptions[k].v) <= k + 1
    {
      assert t.True(assumptions[k]);
    }
  }

  /** A late root unit follows from the formula. */
  lemma LateUnitEntailed(s: State, qhead: nat, p: Lit)
    requires Ready(s, qhead) && s.t.True(p)
    ensures LateRootUnit(s.t, p) ==> Entails(s.f, [p])
  {
    hide Listing, WatchInv, ClausesOk, Covering;
    if LateRootUnit(s.t, p) {
      var k :| s.t.lim[0] <= k < |s.t.lits| && s.t.lits[k] == p;
      assert s.t.LevelAt(k) == 0;
    }
  }

  lemma BlamedFalse(m: Model, t: Trail, f: set<Clause>, conflict: seq<Lit>, assumptions: seq<Lit>)
    requires conflict != [] && Neg(conflict[0]) in assumptions && Models(m, f) && AllHold(m, assumptions)
    requires forall l :: l in conflict ==>
               Neg(l) in assumptions || (l == Neg(conflict[0]) && LateRootUnit(t, conflict[0]))
    requires LateRootUnit(t, conflict[0]) ==> Entails(f, [conflict[0]])
    ensures !Satisfies(m, conflict)
  {
    forall l | l in conflict
      ensures !Holds(m, l)
    {
      assert Neg(l) in assumptions || Satisfies(m, [conflict[0]]);
    }
  }

  /** Whether or not the assumption blamed first appears itself, the assumptions are refuted. */
  lemma BlamedUnsat(t: Trail, f: set<Clause>, conflict: seq<Lit>, assumptions: seq<Lit>)
    requires conflict != [] && Entails(f, conflict) && Neg(conflict[0]) in assumptions
    requires forall l :: l in conflict ==>
               Neg(l) in assumptions || (l == Neg(conflict[0]) && LateRootUnit(t, conflict[0]))
    requires LateRootUnit(t, conflict[0]) ==> Entails(f, [conflict[0]])
    ensures UnsatUnder(f, assumptions)
  {
    forall m | Models(m, f)
      ensures !AllHold(m, assumptions)
    {
      if AllHold(m, assumptions) {
        BlamedFalse(m, t, f, conflict, assumptions);
      }
    }
  }

  /** Exactly when analyzeFinal names nothing but negated assumptions. */
  lemma FinalShapeExact(t: Trail, ca: seq<Clause>, p: Lit, seen: set<Var>, visited: set<Var>, conflict: seq<Lit>,
                        assumptions: seq<Lit>)
    requires Consistent(t) && Leveled(t) && t.True(p) && |t.lim| > 0 && |t.lim| < |assumptions|
    requires Decided(t, assumptions) && Neg(p) in assumptions
    requires Tracing(t, ca, t.lim[0], p, seen, visited, conflict)
    ensures (forall l :: l in conflict ==> Neg(l) in assumptions) <==> (!LateRootUnit(t, p) || p in assumptions)
  {
    hide Tracing, Decided, LateRootUnit;
    FinalShape(t, ca, p, seen, visited, conflict, assumptions);
    assert Neg(Neg(p)) == p;
  }

  /** At level 0 any assumptions will do. */
  lemma RootAssuming(s: State, qhead: nat, assumptions: seq<Lit>)
    requires Ready(s, qhead) && |s.t.lim| == 0
    ensures Assuming(s.t, assumptions)
  {
  }
}
