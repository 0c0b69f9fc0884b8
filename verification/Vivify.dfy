/** Vivification of learnt clauses: assuming the negations of a clause's literals one by one. */
module Vivification {
  import opened Cnf
  import opened Trails
  import opened Backtracking
  import opened Watching
  import opened Database
  import opened Analysis
  import opened Unwinding
  import opened Blaming
  import opened Kernel
  import opened Steps

  /** From position start on every literal belongs to the newest level. */
  ghost predicate TopFrom(t: Trail, start: nat) {
    forall i :: start <= i < |t.lits| ==> t.LevelAt(i) == |t.lim|
  }

  lemma EnqueueTop(t: Trail, p: Lit, from: int, start: nat)
    requires Consistent(t) && TopFrom(t, start) && p.v < |t.vardata| && t.Undef(p)
    ensures TopFrom(Enqueue(t, p, |t.lim|, from), start)
  {
    var t' := Enqueue(t, p, |t.lim|, from);
    forall i | start <= i < |t'.lits|
      ensures t'.LevelAt(i) == |t'.lim|
    {
      if i < |t.lits| {
        assert t.True(t.lits[i]) && t'.lits[i] == t.lits[i];
        assert t'.LevelAt(i) == t.LevelAt(i);
      }
    }
  }

  // ---------- simpleAnalyze ----------

  ghost predicate FlaggedBelow(t: Trail, vs: set<Var>, r: nat) {
    forall v :: v in vs ==> FoundBelow(t, v, r)
  }

  /** From position r on everything is above level 0. */
  ghost predicate AboveRoot(t: Trail, r: nat) {
    forall i :: r <= i < |t.lits| ==> t.LevelAt(i) > 0
  }

  lemma OpenFlags(seen: set<Var>, stale: set<Var>)
    requires stale <= seen
    ensures if |seen - stale| == 0 then seen == stale else stale < seen
  {
    assert seen == stale + (seen - stale);
  }

  lemma OneOpenFewer(seen: set<Var>, stale: set<Var>, v: Var)
    requires stale <= seen && v in seen - stale
    ensures stale <= seen - {v} && |(seen - {v}) - stale| == |seen - stale| - 1
  {
    assert seen - stale == ((seen - {v}) - stale) + {v};
  }

  lemma AboveAt(t: Trail, r: nat, i: nat)
    requires AboveRoot(t, r) && r <= i < |t.lits|
    ensures t.LevelAt(i) > 0
  {
  }

  /** The trail has been searched down to position k, from the clause c0 on: what has been visited there is in out
      or expanded, but for cur. */
  ghost predicate Searching(t: Trail, ca: seq<Clause>, k: nat, seen: set<Var>, visited: set<Var>, out: seq<Lit>,
                            cur: set<Var>) {
    && k <= |t.lits| && seen <= visited
    && (forall v :: v in seen ==> FoundBelow(t, v, k))
    && (forall v :: v in visited && v !in seen ==> !FoundBelow(t, v, k))
    && (forall j :: k <= j < |t.lits| && t.lits[j].v in visited && t.lits[j].v !in cur ==>
         Neg(t.lits[j]) in out || Expanded(t, ca, visited, t.lits[j].v))
  }

  lemma SearchStart(t: Trail, ca: seq<Clause>, stale: set<Var>, out: seq<Lit>)
    requires forall v :: v in stale ==> FoundBelow(t, v, |t.lits|)
    ensures Searching(t, ca, |t.lits|, stale, stale, out, {})
  {
  }

  /** Flagging a literal falsified below k. */
  lemma SearchFlag(t: Trail, ca: seq<Clause>, k: nat, seen: set<Var>, visited: set<Var>, out: seq<Lit>, cur: set<Var>,
                   v: Var)
    requires Searching(t, ca, k, seen, visited, out, cur) && FoundBelow(t, v, k) && Consistent(t)
    ensures Searching(t, ca, k, seen + {v}, visited + {v}, out, cur)
    ensures v !in seen ==> v !in visited
  {
    forall j | k <= j < |t.lits| && t.lits[j].v in visited + {v} && t.lits[j].v !in cur
      ensures Neg(t.lits[j]) in out || Expanded(t, ca, visited + {v}, t.lits[j].v)
    {
      assert t.lits[j].v != v;
      if Expanded(t, ca, visited, t.lits[j].v) {
        SameArenaRefl(ca);
        ExpandedMore(t, ca, ca, visited, visited + {v}, t.lits[j].v);
      }
    }
  }

  /** The highest flagged position is taken off. */
  lemma SearchTake(t: Trail, ca: seq<Clause>, k: nat, seen: set<Var>, visited: set<Var>, out: seq<Lit>, i: nat)
    requires Consistent(t) && Searching(t, ca, k, seen, visited, out, {}) && i < k && t.lits[i].v in seen
    requires forall j :: i < j < k ==> t.lits[j].v !in seen
    ensures Searching(t, ca, i, seen - {t.lits[i].v}, visited, out, {t.lits[i].v})
  {
    var v0 := t.lits[i].v;
    assert !FoundBelow(t, v0, i);
    forall v | v in seen && v != v0
      ensures FoundBelow(t, v, i)
    {
      var p :| 0 <= p < k && p < |t.lits| && t.lits[p].v == v;
      assert p < i;
    }
    forall v | v in visited && v !in seen
      ensures !FoundBelow(t, v, i)
    {
      FoundLower(t, v, i, k);
    }
    forall j | i <= j < |t.lits| && t.lits[j].v in visited && t.lits[j].v != v0
      ensures Neg(t.lits[j]) in out || Expanded(t, ca, visited, t.lits[j].v)
    {
      if j < k {
        assert FoundBelow(t, t.lits[j].v, k);
      }
    }
  }

  lemma SearchOpen(t: Trail, ca: seq<Clause>, k: nat, seen: set<Var>, visited: set<Var>, out: seq<Lit>, cur: set<Var>,
                   t': Trail)
    requires Searching(t, ca, k, seen, visited, out, cur) && t.lits == t'.lits
    ensures forall v :: v in seen ==> FoundBelow(t', v, k)
  {
  }

  lemma FoundOnce(t: Trail, i: nat, k: nat)
    requires Consistent(t) && k <= i < |t.lits|
    ensures !FoundBelow(t, t.lits[i].v, k)
  {
  }

  /** A literal without reason goes to the learnt clause. */
  lemma SearchDecision(t: Trail, ca: seq<Clause>, i: nat, seen: set<Var>, visited: set<Var>, out: seq<Lit>)
    requires Consistent(t) && i < |t.lits| && Searching(t, ca, i, seen, visited, out, {t.lits[i].v})
    ensures Searching(t, ca, i, seen, visited, out + [Neg(t.lits[i])], {})
  {
    var out' := out + [Neg(t.lits[i])];
    assert out'[|out|] == Neg(t.lits[i]);
    forall j | i <= j < |t.lits| && t.lits[j].v in visited
      ensures Neg(t.lits[j]) in out' || Expanded(t, ca, visited, t.lits[j].v)
    {
      if j == i {
      } else {
        assert t.lits[j].v != t.lits[i].v;
      }
    }
  }

  lemma SearchArena(t: Trail, ca: seq<Clause>, ca': seq<Clause>, k: nat, seen: set<Var>, visited: set<Var>,
                    out: seq<Lit>, cur: set<Var>)
    requires Searching(t, ca, k, seen, visited, out, cur) && SameArena(ca, ca')
    ensures Searching(t, ca', k, seen, visited, out, cur)
  {
    forall j | k <= j < |t.lits| && t.lits[j].v in visited && t.lits[j].v !in cur
      ensures Neg(t.lits[j]) in out || Expanded(t, ca', visited, t.lits[j].v)
    {
      if Expanded(t, ca, visited, t.lits[j].v) {
        ExpandedMore(t, ca, ca', visited, visited, t.lits[j].v);
      }
    }
  }

  lemma SearchDone(t: Trail, ca: seq<Clause>, k: nat, seen: set<Var>, visited: set<Var>, out: seq<Lit>, v: Var)
    requires Searching(t, ca, k, seen, visited, out, {v}) && Expanded(t, ca, visited, v)
    ensures Searching(t, ca, k, seen, visited, out, {})
  {
  }

  /** The search is over: what is still flagged lies at level 0. */
  ghost predicate Searched(t: Trail, ca: seq<Clause>, visited: set<Var>, out: seq<Lit>) {
    forall j :: 0 <= j < |t.lits| && t.lits[j].v in visited && t.LevelAt(j) > 0 ==>
      Neg(t.lits[j]) in out || Expanded(t, ca, visited, t.lits[j].v)
  }

  lemma SearchOver(t: Trail, ca: seq<Clause>, k: nat, seen: set<Var>, visited: set<Var>, out: seq<Lit>)
    requires Searching(t, ca, k, seen, visited, out, {})
    requires forall j :: 0 <= j < k && t.lits[j].v in seen ==> t.LevelAt(j) == 0
    ensures Searched(t, ca, visited, out)
  {
    forall j | 0 <= j < |t.lits| && t.lits[j].v in visited && t.LevelAt(j) > 0
      ensures Neg(t.lits[j]) in out || Expanded(t, ca, visited, t.lits[j].v)
    {
      if j < k {
        assert FoundBelow(t, t.lits[j].v, k);
      }
    }
  }

  /** Nothing flagged is left among the literals assumed or implied since position r, where level 1 starts. */
  lemma LeftBehind(t: Trail, ca: seq<Clause>, k: nat, seen: set<Var>, visited: set<Var>, out: seq<Lit>, r: nat)
    requires Searching(t, ca, k, seen, visited, out, {}) && Leveled(t) && t.lim != [] && r == t.lim[0]
    requires forall j :: r <= j < k ==> t.lits[j].v !in seen
    ensures Searched(t, ca, visited, out) && FlaggedBelow(t, seen, r)
  {
    forall j | 0 <= j < k && t.lits[j].v in seen
      ensures t.LevelAt(j) == 0
    {
      assert j < t.lim[0];
    }
    SearchOver(t, ca, k, seen, visited, out);
  }

  lemma LowFlags(t: Trail, stale: set<Var>, r: nat)
    requires Consistent(t) && r <= |t.lits| && FlaggedBelow(t, stale, r)
    ensures forall v :: v in stale ==> FoundBelow(t, v, |t.lits|)
    ensures forall j :: r <= j < |t.lits| ==> t.lits[j].v !in stale
  {
    forall v | v in stale
      ensures FoundBelow(t, v, |t.lits|)
    {
      FoundLower(t, v, r, |t.lits|);
    }
  }

  /** What is flagged below level 1 is of level 0. */
  lemma NonePositive(t: Trail, vs: set<Var>)
    requires Consistent(t) && Leveled(t) && t.lim != [] && FlaggedBelow(t, vs, t.lim[0])
    ensures Positive(t, vs) == {}
  {
    forall v | v in vs
      ensures t.Level(v) == 0
    {
      var i :| 0 <= i < t.lim[0] && i < |t.lits| && t.lits[i].v == v;
      assert t.LevelAt(i) <= 0;
    }
  }

  /** Nothing is flagged but what already was before the search, at level 0. */
  lemma NothingLeft(t: Trail, ca: seq<Clause>, k: nat, seen: set<Var>, visited: set<Var>, out: seq<Lit>, r: nat)
    requires Searching(t, ca, k, seen, visited, out, {}) && Consistent(t) && Leveled(t) && t.lim != [] && r == t.lim[0]
    requires FlaggedBelow(t, seen, r)
    ensures Searched(t, ca, visited, out)
  {
    LowFlags(t, seen, r);
    LeftBehind(t, ca, k, seen, visited, out, r);
  }

  /** In a model of the clauses that falsifies out, everything visited is true. */
  lemma SearchedTrue(m: Model, t: Trail, ca: seq<Clause>, live: set<int>, visited: set<Var>, out: seq<Lit>)
    requires Consistent(t) && Justified(t, ca, live) && MeetsDb(m, t, ca, live) && Searched(t, ca, visited, out)
    requires forall l :: l in out ==> !Holds(m, l)
    ensures forall i :: 0 <= i < |t.lits| && t.lits[i].v in visited ==> Holds(m, t.lits[i])
  {
    forall i | 0 <= i < |t.lits| && t.lits[i].v in visited
      ensures InCone(t, ca, m, visited, t.lits[i])
    {
      if t.LevelAt(i) > 0 && Neg(t.lits[i]) !in out {
        ExpandedInCone(m, t, ca, live, visited, i);
      }
    }
    ConeTrue(t, ca, live, m, visited, |t.lits|);
  }

  /** A clause whose literals, apart from some in out, are false and visited, makes out follow from the database. */
  lemma SearchedEntails(t: Trail, ca: seq<Clause>, live: set<int>, cr: int, visited: set<Var>, out: seq<Lit>)
    requires Consistent(t) && Justified(t, ca, live) && Searched(t, ca, visited, out) && cr in live && 0 <= cr < |ca|
    requires forall q :: q in ca[cr] ==> q in out || (t.False(q) && (q.v in visited || t.Level(q.v) == 0))
    ensures forall m :: MeetsDb(m, t, ca, live) ==> Satisfies(m, out)
  {
    forall m | MeetsDb(m, t, ca, live)
      ensures Satisfies(m, out)
    {
      if forall l :: l in out ==> !Holds(m, l) {
        SearchedFalse(m, t, ca, live, cr, visited, out);
      }
    }
  }

  lemma SearchedFalse(m: Model, t: Trail, ca: seq<Clause>, live: set<int>, cr: int, visited: set<Var>, out: seq<Lit>)
    requires Consistent(t) && Justified(t, ca, live) && Searched(t, ca, visited, out) && 0 <= cr < |ca|
    requires forall q :: q in ca[cr] ==> q in out || (t.False(q) && (q.v in visited || t.Level(q.v) == 0))
    requires MeetsDb(m, t, ca, live) && forall l :: l in out ==> !Holds(m, l)
    ensures !Satisfies(m, ca[cr])
  {
    SearchedTrue(m, t, ca, live, visited, out);
    forall q | q in ca[cr]
      ensures !Holds(m, q)
    {
      if q !in out {
        FalseIsBefore(t, q);
        var j :| 0 <= j < |t.lits| && t.lits[j] == Neg(q);
        assert q.v in visited || t.LevelAt(j) == 0;
      }
    }
  }

  /** Above level 0 every visited literal leads down to one without a reason, so something is learnt. */
  lemma {:induction false} SearchedFinds(t: Trail, ca: seq<Clause>, live: set<int>, visited: set<Var>, out: seq<Lit>,
                                         j: nat)
    requires Consistent(t) && Justified(t, ca, live) && LevelsMaximal(t, ca) && Searched(t, ca, visited, out)
    requires j < |t.lits| && t.lits[j].v in visited && t.LevelAt(j) > 0
    ensures out != []
  {
    if Neg(t.lits[j]) !in out {
      var r := t.Reason(t.lits[j].v);
      assert Antecedents(t, ca, live, j) && LevelIsMax(t, ca, j);
      var q :| q in ca[r] && q != t.lits[j] && t.Level(q.v) == t.LevelAt(j);
      assert t.Before(Neg(q), j);
      var i :| 0 <= i < j && t.lits[i] == Neg(q);
      SearchedFinds(t, ca, live, visited, out, i);
    }
  }

  /** l is the negation of a literal assumed, at position k or later. */
  ghost predicate NegatesAssumed(t: Trail, l: Lit, k: nat) {
    exists i :: k <= i < |t.lits| && t.LevelAt(i) > 0 && t.Reason(t.lits[i].v) == UNDEF && t.lits[i] == Neg(l)
  }

  /** out is out0 followed by negations of literals assumed, at position k or later, none twice. */
  ghost predicate AddsAssumed(t: Trail, out0: seq<Lit>, out: seq<Lit>, k: nat) {
    && out0 <= out
    && (forall j :: |out0| <= j < |out| ==> NegatesAssumed(t, out[j], k))
    && (forall i, j :: |out0| <= i < j < |out| ==> out[i].v != out[j].v)
  }

  lemma AddsRefl(t: Trail, out: seq<Lit>, k: nat)
    ensures AddsAssumed(t, out, out, k)
  {
  }

  lemma AddsLower(t: Trail, out0: seq<Lit>, out: seq<Lit>, k: nat, k': nat)
    requires AddsAssumed(t, out0, out, k) && k' <= k
    ensures AddsAssumed(t, out0, out, k')
  {
    forall j | |out0| <= j < |out|
      ensures NegatesAssumed(t, out[j], k')
    {
      assert NegatesAssumed(t, out[j], k);
    }
  }

  lemma AddsOne(t: Trail, out0: seq<Lit>, out: seq<Lit>, i: nat)
    requires Consistent(t) && AddsAssumed(t, out0, out, i + 1)
    requires i < |t.lits| && t.LevelAt(i) > 0 && t.Reason(t.lits[i].v) == UNDEF
    ensures AddsAssumed(t, out0, out + [Neg(t.lits[i])], i)
  {
    assert Neg(Neg(t.lits[i])) == t.lits[i];
    forall j | |out0| <= j < |out|
      ensures NegatesAssumed(t, out[j], i) && out[j].v != t.lits[i].v
    {
      assert NegatesAssumed(t, out[j], i + 1);
      var k :| i + 1 <= k < |t.lits| && t.lits[k] == Neg(out[j]) && t.LevelAt(k) > 0 && t.Reason(t.lits[k].v) == UNDEF;
      assert t.lits[k].v != t.lits[i].v;
    }
  }

  /** The literals of c from index j0 on speak of variables in vs. */
  ghost predicate Covers(c: Clause, j0: nat, vs: set<Var>) {
    forall j :: j0 <= j < |c| ==> c[j].v in vs
  }

  lemma CoversMore(c: Clause, j0: nat, vs: set<Var>, vs': set<Var>)
    requires Covers(c, j0, vs) && vs <= vs'
    ensures Covers(c, j0, vs')
  {
  }

  // ---------- The clause ----------

  /** Every literal without reason above level 0 is the negation of one of ks. */
  ghost predicate DecidedFrom(t: Trail, ks: Clause) {
    forall i :: 0 <= i < |t.lits| && t.LevelAt(i) > 0 && t.Reason(t.lits[i].v) == UNDEF ==> Neg(t.lits[i]) in ks
  }

  lemma ExtendsDecided(t: Trail, t': Trail, ks: Clause)
    requires Consistent(t) && Extends(t, t') && DecidedFrom(t, ks)
    ensures DecidedFrom(t', ks)
  {
    forall i | 0 <= i < |t'.lits| && t'.LevelAt(i) > 0 && t'.Reason(t'.lits[i].v) == UNDEF
      ensures Neg(t'.lits[i]) in ks
    {
      assert i < |t.lits|;
      assert t'.lits[i] == t.lits[i] && t.True(t.lits[i]);
    }
  }

  lemma DecideDecided(t: Trail, k: Lit, ks: Clause)
    requires Consistent(t) && DecidedFrom(t, ks) && k.v < |t.vardata| && t.Undef(k)
    ensures DecidedFrom(Enqueue(NewLevel(t), Neg(k), |t.lim| + 1, UNDEF), ks + [k])
  {
    var t' := Enqueue(NewLevel(t), Neg(k), |t.lim| + 1, UNDEF);
    assert (ks + [k])[|ks|] == k && Neg(Neg(k)) == k;
    forall i | 0 <= i < |t'.lits| && t'.LevelAt(i) > 0 && t'.Reason(t'.lits[i].v) == UNDEF
      ensures Neg(t'.lits[i]) in ks + [k]
    {
      if i < |t.lits| {
        assert t.True(t.lits[i]);
        assert t'.LevelAt(i) == t.LevelAt(i);
      }
    }
  }

  /** In a model of the clauses that falsifies ks, the whole trail is true. */
  lemma KeptTrue(m: Model, t: Trail, ca: seq<Clause>, live: set<int>, ks: Clause)
    requires Consistent(t) && Justified(t, ca, live) && MeetsDb(m, t, ca, live) && DecidedFrom(t, ks)
    requires forall l :: l in ks ==> !Holds(m, l)
    ensures forall i :: 0 <= i < |t.lits| ==> Holds(m, t.lits[i])
  {
    var all := Vars(t.lits);
    forall i | 0 <= i < |t.lits|
      ensures t.lits[i].v in all && InCone(t, ca, m, all, t.lits[i])
    {
      assert t.lits[i].v in all;
      assert Antecedents(t, ca, live, i);
      var x := t.lits[i];
      if t.LevelAt(i) > 0 && t.Reason(x.v) != UNDEF {
        forall q | q in ca[t.Reason(x.v)] && q != x
          ensures q.v in all
        {
          assert t.Before(Neg(q), i);
          var j :| 0 <= j < i && t.lits[j] == Neg(q);
        }
      } else if t.LevelAt(i) > 0 {
        assert Neg(x) in ks;
      }
    }
    ConeTrue(t, ca, live, m, all, |t.lits|);
  }

  /** Dropping the literals that the negations of the others falsify: with the clause itself, the database entails
      what is left. */
  lemma KeptEntailed(t: Trail, ca: seq<Clause>, live: set<int>, c: Clause, ks: Clause)
    requires Consistent(t) && Justified(t, ca, live) && DecidedFrom(t, ks)
    requires forall l :: l in c ==> l in ks || t.False(l)
    ensures forall m :: MeetsDb(m, t, ca, live) && Satisfies(m, c) ==> Satisfies(m, ks)
  {
    forall m | MeetsDb(m, t, ca, live) && Satisfies(m, c)
      ensures Satisfies(m, ks)
    {
      var l :| l in c && Holds(m, l);
      if l !in ks && forall k :: k in ks ==> !Holds(m, k) {
        KeptTrue(m, t, ca, live, ks);
        FalseHolds(m, t, l);
      }
    }
  }

  lemma FalseHolds(m: Model, t: Trail, l: Lit)
    requires Consistent(t) && t.False(l) && forall i :: 0 <= i < |t.lits| ==> Holds(m, t.lits[i])
    ensures !Holds(m, l)
  {
    FalseIsBefore(t, l);
    var j :| 0 <= j < |t.lits| && t.lits[j] == Neg(l);
    assert Holds(m, t.lits[j]);
  }

  // ---------- The virtual decision levels ----------

  /** The trail t0 of level 0 has been extended by assuming the negations of the literals ks one after the other, each
      at a level of its own, and propagating. */
  ghost predicate Probing(t0: Trail, t: Trail, ks: Clause) {
    && Consistent(t0) && t0.lim == [] && (forall i :: 0 <= i < |t0.lits| ==> t0.LevelAt(i) == 0)
    && t0.lits <= t.lits && |t0.vardata| == |t.vardata| && |t.lim| == |ks|
    && (forall v :: v in t0.assigns ==> v in t.assigns && t.assigns[v] == t0.assigns[v])
    && (forall v :: v in t0.assigns ==> t.Level(v) == t0.Level(v) && t.Reason(v) == t0.Reason(v))
    && (forall i :: |t0.lits| <= i < |t.lits| ==> t.LevelAt(i) > 0)
    && (if t.lim == [] then t == t0 else t.lim[0] == |t0.lits|)
    && DecidedFrom(t, ks)
  }

  lemma DecideTop(t: Trail, k: Lit)
    requires Consistent(t) && k.v < |t.vardata| && t.Undef(k)
    ensures TopFrom(Enqueue(NewLevel(t), Neg(k), |t.lim| + 1, UNDEF), |t.lits|)
    ensures forall i :: 0 <= i < |t.lits| ==>
              Enqueue(NewLevel(t), Neg(k), |t.lim| + 1, UNDEF).LevelAt(i) == t.LevelAt(i)
  {
    forall i | 0 <= i < |t.lits|
      ensures t.lits[i].v != k.v
    {
      assert t.True(t.lits[i]);
    }
  }

  lemma ProbeDecide(t0: Trail, t: Trail, ks: Clause, k: Lit)
    requires Probing(t0, t, ks) && Consistent(t) && k.v < |t.vardata| && t.Undef(k)
    ensures Probing(t0, Enqueue(NewLevel(t), Neg(k), |t.lim| + 1, UNDEF), ks + [k])
    ensures TopFrom(Enqueue(NewLevel(t), Neg(k), |t.lim| + 1, UNDEF), |t.lits|)
  {
    hide DecidedFrom, Consistent;
    var t' := Enqueue(NewLevel(t), Neg(k), |t.lim| + 1, UNDEF);
    DecideDecided(t, k, ks);
    DecideTop(t, k);
    forall i | |t0.lits| <= i < |t'.lits|
      ensures t'.LevelAt(i) > 0
    {
      if i < |t.lits| {
        assert t.LevelAt(i) > 0 && t'.LevelAt(i) == t.LevelAt(i);
      } else {
        assert t'.LevelAt(i) == |t'.lim|;
      }
    }
    assert t'.lim == t.lim + [|t.lits|];
  }

  lemma ProbeExtends(t0: Trail, t: Trail, t': Trail, ks: Clause, start: nat)
    requires Probing(t0, t, ks) && ks != [] && Consistent(t) && Extends(t, t') && start <= |t.lits|
    requires TopFrom(t', start)
    ensures Probing(t0, t', ks)
  {
    ExtendsDecided(t, t', ks);
    forall i | |t0.lits| <= i < |t'.lits|
      ensures t'.LevelAt(i) > 0
    {
      if i < |t.lits| {
        assert t.True(t.lits[i]) && t'.lits[i] == t.lits[i];
        assert t'.LevelAt(i) == t.LevelAt(i);
      }
    }
  }

  lemma {:induction false} KeptNothing(t: Trail, b: nat, n: nat, k: nat)
    requires n <= k <= |t.lits| && forall i :: n <= i < k ==> t.LevelAt(i) > b
    ensures Kept(t, b, k) == Kept(t, b, n)
    decreases k
  {
    if n < k {
      KeptNothing(t, b, n, k - 1);
    }
  }

  /** Leaving all the virtual levels restores the trail and the assignment. */
  lemma ProbeCancel(t0: Trail, t: Trail, ks: Clause)
    requires Probing(t0, t, ks) && Consistent(t) && Leveled(t) && ks != [] && |t.lim| > 0
    ensures CancelUntil(t, 0).lits == t0.lits && CancelUntil(t, 0).lim == [] && CancelUntil(t, 0).assigns == t0.assigns
    ensures CancelUntil(t, 0).vardata == t.vardata
  {
    hide Probing, Consistent, Leveled, Kept, Picked;
    assert t.lim != [] && forall v :: v in t0.assigns ==> v in t.assigns && t.assigns[v] == t0.assigns[v] by {
      ProbeParts(t0, t, ks);
    }
    ProbeKept(t0, t, ks);
    var t' := CancelUntil(t, 0);
    forall v
      ensures v in t'.assigns <==> v in t0.assigns
    {
      ProbeAssigned(t0, t, ks, v);
    }
  }

  lemma ProbeParts(t0: Trail, t: Trail, ks: Clause)
    requires Probing(t0, t, ks)
    ensures |t.lim| == |ks| && t0.lim == [] && |t0.lits| <= |t.lits| && |t.vardata| == |t0.vardata|
    ensures forall v :: v in t0.assigns ==> v in t.assigns && t.assigns[v] == t0.assigns[v]
    ensures forall v :: v in t0.assigns ==> t.Level(v) == t0.Level(v) && t.Reason(v) == t0.Reason(v)
    ensures ks != [] ==> t.lim[0] == |t0.lits|
    ensures forall i :: |t0.lits| <= i < |t.lits| ==> t.LevelAt(i) > 0
    ensures DecidedFrom(t, ks)
  {
  }

  lemma ProbeKept(t0: Trail, t: Trail, ks: Clause)
    requires Probing(t0, t, ks) && Leveled(t) && ks != [] && |t.lim| > 0
    ensures CancelUntil(t, 0).lits == t0.lits
  {
    hide DecidedFrom, Consistent;
    CancelPrefix(t, 0);
    KeptNothing(t, 0, |t0.lits|, |t.lits|);
    KeptPrefix(t, 0, |t0.lits|);
  }

  lemma ProbeAssigned(t0: Trail, t: Trail, ks: Clause, v: Var)
    requires Probing(t0, t, ks) && Consistent(t)
    ensures v in t.assigns && t.Level(v) == 0 <==> v in t0.assigns
  {
    if v in t.assigns && t.Level(v) == 0 {
      assert t.OnTrail(v);
      var i :| 0 <= i < |t.lits| && t.lits[i].v == v;
      assert t.LevelAt(i) == 0;
      assert t0.lits[i] == t.lits[i] && t0.True(t0.lits[i]);
    }
    if v in t0.assigns {
      assert t0.OnTrail(v);
      var i :| 0 <= i < |t0.lits| && t0.lits[i].v == v;
      assert t0.LevelAt(i) == 0;
    }
  }

  /** Two trails that differ only in what they record for unassigned variables. */
  ghost predicate SameAssigned(t: Trail, t': Trail) {
    && t.lits == t'.lits && t.lim == t'.lim && t.assigns == t'.assigns && |t.vardata| == |t'.vardata|
    && (forall v :: v in t.assigns ==> t.Level(v) == t'.Level(v) && t.Reason(v) == t'.Reason(v))
  }

  lemma SameAssignedTrail(t: Trail, t': Trail, ca: seq<Clause>, live: set<int>)
    requires TrailInv(t, ca, live) && SameAssigned(t, t')
    ensures TrailInv(t', ca, live)
    ensures forall i :: 0 <= i < |t.lits| ==>
              t'.LevelAt(i) == t.LevelAt(i) && t'.Reason(t.lits[i].v) == t.Reason(t.lits[i].v)
  {
    forall i | 0 <= i < |t.lits|
      ensures t'.LevelAt(i) == t.LevelAt(i) && t'.Reason(t.lits[i].v) == t.Reason(t.lits[i].v)
    {
      assert t.True(t.lits[i]);
    }
    assert Consistent(t') by {
      assert forall v :: v in t.assigns ==> t.OnTrail(v) && t'.OnTrail(v);
    }
    forall i | 0 <= i < |t.lits|
      ensures Antecedents(t', ca, live, i) && LevelIsMax(t', ca, i)
    {
      SameAssignedAt(t, t', ca, live, i);
    }
  }

  lemma SameAssignedAt(t: Trail, t': Trail, ca: seq<Clause>, live: set<int>, i: nat)
    requires Consistent(t) && SameAssigned(t, t') && i < |t.lits| && Antecedents(t, ca, live, i) && LevelIsMax(t, ca, i)
    ensures Antecedents(t', ca, live, i) && LevelIsMax(t', ca, i)
  {
    var x := t.lits[i];
    assert t.True(x);
    var r := t.Reason(x.v);
    if r != UNDEF {
      forall q | q in ca[r]
        ensures t'.Level(q.v) == t.Level(q.v) && (q != x ==> t'.Before(Neg(q), i))
      {
        if q != x {
          var j :| 0 <= j < i && t.lits[j] == Neg(q);
          assert t.True(t.lits[j]) && t'.lits[j] == Neg(q);
        }
      }
    }
  }

  lemma SameAssignedReady(s: State, qhead: nat, t': Trail)
    requires Ready(s, qhead) && SameAssigned(s.t, t')
    ensures Ready(s.(t := t'), qhead)
  {
    hide Antecedents, LevelIsMax, Lists01;
    SameAssignedTrail(s.t, t', s.ca, s.live);
    SameAssignedWatches(s.t, t', s.ca, s.live, qhead);
    SameAssignedDb(s.t, t', s.ca, s.live, s.problem, s.f);
  }

  lemma SameAssignedWatches(t: Trail, t': Trail, ca: seq<Clause>, live: set<int>, bound: nat)
    requires SameAssigned(t, t') && WatchInv(t, ca, live, bound)
    ensures WatchInv(t', ca, live, bound)
  {
    forall cr, i | cr in live && 0 <= cr < |ca| && 0 <= i < bound
      ensures WatchedOk(t', ca[cr], i)
    {
      assert WatchedOk(t, ca[cr], i);
      if Blocked(t, ca[cr], i) {
        var q :| q in ca[cr] && t.True(q) && Within(t, q, i);
        assert t'.True(q) && Within(t', q, i);
      }
    }
  }

  lemma SameAssignedDb(t: Trail, t': Trail, ca: seq<Clause>, live: set<int>, problem: set<int>, f: set<Clause>)
    requires Derived(t, ca, live, f) && Covering(t, ca, problem, f) && t.lits == t'.lits
    requires forall i :: 0 <= i < |t.lits| ==> t'.LevelAt(i) == t.LevelAt(i)
    ensures Derived(t', ca, live, f) && Covering(t', ca, problem, f)
  {
    forall m | MeetsDb(m, t', ca, problem)
      ensures MeetsDb(m, t, ca, problem)
    {
    }
  }

  // ---------- Reasons and conflicts ----------

  /** The reason of the literal at position i speaks otherwise of literals falsified before it. */
  lemma ReasonAt(s: State, level: nat, i: nat)
    requires Analysing(s, level) && i < |s.t.lits| && s.t.Reason(s.t.lits[i].v) != UNDEF
    ensures s.t.Reason(s.t.lits[i].v) in s.live && 0 <= s.t.Reason(s.t.lits[i].v) < |s.ca| && s.t.True(s.t.lits[i])
    ensures Distinct(s.ca[s.t.Reason(s.t.lits[i].v)]) && s.t.lits[i] in s.ca[s.t.Reason(s.t.lits[i].v)]
    ensures |s.ca[s.t.Reason(s.t.lits[i].v)]| > 2 ==> s.ca[s.t.Reason(s.t.lits[i].v)][0] == s.t.lits[i]
    ensures forall q :: q in s.ca[s.t.Reason(s.t.lits[i].v)] && q != s.t.lits[i] ==>
              s.t.False(q) && FoundBelow(s.t, q.v, i)
  {
    hide Base, WatchInv;
    AnalysingParts(s, level);
    assert Antecedents(s.t, s.ca, s.live, i);
    forall q | q in s.ca[s.t.Reason(s.t.lits[i].v)] && q != s.t.lits[i]
      ensures s.t.False(q) && FoundBelow(s.t, q.v, i)
    {
      ReasonBelow(s.t, s.ca, s.live, i, q);
    }
  }

  /** The reason of position i, once its literal is at the front. */
  lemma ReasonBelowFront(s: State, ca: seq<Clause>, i: nat)
    requires i < |s.t.lits| && 0 <= s.t.Reason(s.t.lits[i].v) < |s.ca| && SameArena(ca, s.ca)
    requires forall q :: q in ca[s.t.Reason(s.t.lits[i].v)] && q != s.t.lits[i] ==> FoundBelow(s.t, q.v, i)
    requires var c := s.ca[s.t.Reason(s.t.lits[i].v)]; Distinct(c) && c != [] && c[0] == s.t.lits[i]
    ensures forall j :: 1 <= j < |s.ca[s.t.Reason(s.t.lits[i].v)]| ==>
              FoundBelow(s.t, s.ca[s.t.Reason(s.t.lits[i].v)][j].v, i)
  {
    var c := s.ca[s.t.Reason(s.t.lits[i].v)];
    forall j | 1 <= j < |c|
      ensures FoundBelow(s.t, c[j].v, i)
    {
      assert c[j] in c && c[j] != c[0];
    }
  }

  lemma ProbeRestores(t0: Trail, t: Trail, ks: Clause)
    requires Probing(t0, t, ks) && Consistent(t)
    ensures t.lits[..|t0.lits|] == t0.lits && t.assigns - Vars(t.lits[|t0.lits|..]) == t0.assigns
  {
    hide Probing;
    ProbeParts(t0, t, ks);
    ProbePrefix(t0, t, ks);
    forall v | v in t.assigns
      ensures v in t0.assigns <==> v !in Vars(t.lits[|t0.lits|..])
    {
      ProbeTail(t0, t, ks, v);
    }
  }

  lemma ProbeTail(t0: Trail, t: Trail, ks: Clause, v: Var)
    requires Probing(t0, t, ks) && Consistent(t) && v in t.assigns && t0.lits <= t.lits
    ensures v in t0.assigns <==> v !in Vars(t.lits[|t0.lits|..])
  {
    hide Probing;
    ProbeParts(t0, t, ks);
    ProbePrefix(t0, t, ks);
    ProbeAssigned(t0, t, ks, v);
    var tail := t.lits[|t0.lits|..];
    assert t.OnTrail(v);
    var i :| 0 <= i < |t.lits| && t.lits[i].v == v;
    if i >= |t0.lits| {
      assert tail[i - |t0.lits|].v == v && t.LevelAt(i) > 0;
    } else {
      assert t0.lits[i].v == v && t0.True(t0.lits[i]);
      forall k | 0 <= k < |tail|
        ensures tail[k].v != v
      {
        assert tail[k] == t.lits[|t0.lits| + k];
      }
    }
  }

  lemma ProbePrefix(t0: Trail, t: Trail, ks: Clause)
    requires Probing(t0, t, ks)
    ensures t0.lits <= t.lits && Consistent(t0)
  {
  }

  /** At level 0 the virtual trail says what the original one said. */
  lemma ProbeMeets(m: Model, t0: Trail, t: Trail, ks: Clause, ca: seq<Clause>, live: set<int>)
    requires Probing(t0, t, ks) && MeetsDb(m, t0, ca, live)
    ensures MeetsDb(m, t, ca, live)
  {
    forall i | 0 <= i < |t.lits| && t.LevelAt(i) == 0
      ensures Holds(m, t.lits[i])
    {
      assert i < |t0.lits| && t0.LevelAt(i) == 0;
    }
  }

  /** How assuming the literals of c0 negated came to an end, leaving c: with a conflict, with a true literal at the
      end of c, or with every other literal of c0 false. */
  ghost predicate Probed(s: State, t0: Trail, c0: Clause, c: Clause, ks: Clause, confl: int, trueConfl: bool) {
    && Analysing(s, 1) && Probing(t0, s.t, ks) && ks != [] && Distinct(c) && (forall l :: l in c ==> l in c0)
    && (if trueConfl then
         && |c| == |ks| + 1 && c[..|ks|] == ks && s.t.True(c[|ks|]) && c[|ks|].v !in t0.assigns
         && confl == s.t.Reason(c[|ks|].v) != UNDEF
       else
         && c == ks
         && (if confl == UNDEF then forall l :: l in c0 ==> l in ks || s.t.False(l)
             else confl in s.live && 0 <= confl < |s.ca| && s.ca[confl] != [] && s.t.AllFalse(s.ca[confl])
                  && FalsifiedFrom(s.t, s.ca[confl][0], |t0.lits|)))
  }

  lemma ProbedParts(s: State, t0: Trail, c0: Clause, c: Clause, ks: Clause, confl: int, trueConfl: bool)
    requires Probed(s, t0, c0, c, ks, confl, trueConfl)
    ensures Analysing(s, 1) && Probing(t0, s.t, ks) && Consistent(s.t) && Leveled(s.t) && c != []
    ensures s.t.lim != [] && s.t.lim[0] == |t0.lits| && ks != [] && Distinct(c) && forall l :: l in c ==> l in c0
  {
  }

  /** What the analysis starts from. */
  lemma ProbedConflict(s: State, t0: Trail, c0: Clause, c: Clause, ks: Clause, confl: int, trueConfl: bool)
    requires Probed(s, t0, c0, c, ks, confl, trueConfl) && (confl != UNDEF || trueConfl)
    ensures confl in s.live && 0 <= confl < |s.ca| && s.ca[confl] != []
    ensures forall j :: (if trueConfl then 1 else 0) <= j < |s.ca[confl]| ==>
              FoundBelow(s.t, s.ca[confl][j].v, |s.t.lits|)
  {
    hide Base, WatchInv, Probing;
    AnalysingParts(s, 1);
    if trueConfl {
      TruePosition(s.t, c[|ks|]);
      var i :| 0 <= i < |s.t.lits| && s.t.lits[i] == c[|ks|];
      ReasonAt(s, 1, i);
      forall q | q in s.ca[confl]
        ensures FoundBelow(s.t, q.v, |s.t.lits|)
      {
        if q != s.t.lits[i] {
          FoundLower(s.t, q.v, i, |s.t.lits|);
        }
      }
    } else {
      forall q | q in s.ca[confl]
        ensures FoundBelow(s.t, q.v, |s.t.lits|)
      {
        FalseFound(s.t, q);
      }
    }
  }

  lemma TruePosition(t: Trail, l: Lit)
    requires Consistent(t) && t.True(l)
    ensures exists i :: 0 <= i < |t.lits| && t.lits[i] == l
  {
    assert t.OnTrail(l.v);
    var i :| 0 <= i < |t.lits| && t.lits[i].v == l.v;
    assert t.True(t.lits[i]);
  }

  /** The literal that turned out true follows from those visited. */
  lemma TrueCovered(s: State, s1: State, t0: Trail, c0: Clause, c: Clause, ks: Clause, confl: int, visited: set<Var>,
                    out: seq<Lit>)
    requires Probed(s, t0, c0, c, ks, confl, true) && s1 == s.(ca := s1.ca) && SameArena(s.ca, s1.ca)
    requires Analysing(s1, 1)
    requires Searched(s.t, s1.ca, visited, out) && AddsAssumed(s.t, [c[|ks|]], out, 0)
    requires confl in s.live && 0 <= confl < |s.ca| && Covers(s.ca[confl], 1, visited)
    ensures forall q :: q in s1.ca[confl] ==> q in out || (s.t.False(q) && (q.v in visited || s.t.Level(q.v) == 0))
  {
    hide Base, WatchInv, Analysing;
    ProbedParts(s, t0, c0, c, ks, confl, true);
    var l := c[|ks|];
    assert l == out[0];
    TruePosition(s.t, l);
    var i :| 0 <= i < |s.t.lits| && s.t.lits[i] == l;
    ReasonAt(s, 1, i);
    assert s.t.LevelAt(i) > 0 by {
      TrueAbove(t0, s.t, ks, i);
    }
    NotNegated(s.t, l, out, i);
    forall q | q in s1.ca[confl] && q !in out
      ensures s.t.False(q) && (q.v in visited || s.t.Level(q.v) == 0)
    {
      assert q in s.ca[confl] && q != l;
      var j :| 0 <= j < |s.ca[confl]| && s.ca[confl][j] == q;
      if j == 0 {
        assert s.ca[confl][1] == l && l.v in visited;
        assert Expanded(s.t, s1.ca, visited, l.v);
        assert q.v != l.v;
      }
    }
  }

  lemma TrueAbove(t0: Trail, t: Trail, ks: Clause, i: nat)
    requires Probing(t0, t, ks) && i < |t.lits| && t.lits[i].v !in t0.assigns
    ensures t.LevelAt(i) > 0
  {
    forall k | 0 <= k < |t0.lits|
      ensures t.lits[k].v in t0.assigns
    {
      assert t0.lits[k] == t.lits[k] && t0.True(t0.lits[k]);
    }
  }

  lemma NotNegated(t: Trail, l: Lit, out: seq<Lit>, i: nat)
    requires Consistent(t) && AddsAssumed(t, [l], out, 0) && i < |t.lits| && t.lits[i] == l && t.Reason(l.v) != UNDEF
    ensures Neg(l) !in out
  {
    forall j | 0 <= j < |out|
      ensures out[j] != Neg(l)
    {
      if j > 0 {
        assert NegatesAssumed(t, out[j], 0);
        var k :| 0 <= k < |t.lits| && t.LevelAt(k) > 0 && t.Reason(t.lits[k].v) == UNDEF && t.lits[k] == Neg(out[j]);
        assert Neg(Neg(l)) == l;
      }
    }
  }

  /** What the analysis finds is part of c, and the database entails it. */
  lemma AnalysedVivifies(s: State, s1: State, t0: Trail, c0: Clause, c: Clause, ks: Clause, confl: int, trueConfl: bool,
                         visited: set<Var>, out: seq<Lit>)
    requires Probed(s, t0, c0, c, ks, confl, trueConfl) && (confl != UNDEF || trueConfl)
    requires s1 == s.(ca := s1.ca) && SameArena(s.ca, s1.ca) && Analysing(s1, 1)
    requires confl in s.live && 0 <= confl < |s.ca| && Covers(s.ca[confl], if trueConfl then 1 else 0, visited)
    requires Searched(s.t, s1.ca, visited, out) && AddsAssumed(s.t, if trueConfl then [c[|c| - 1]] else [], out, 0)
    ensures out != [] && Distinct(out) && (forall l :: l in out ==> l in c)
    ensures forall m :: MeetsDb(m, s.t, s1.ca, s.live) ==> Satisfies(m, out)
  {
    hide Base, WatchInv, Analysing, Searched, SameArena, Probing, Covers;
    ProbedParts(s, t0, c0, c, ks, confl, trueConfl);
    AnalysingParts(s1, 1);
    forall l | l in out
      ensures l in c
    {
      FromKept(t0, s.t, ks, if trueConfl then [c[|c| - 1]] else [], out, l);
    }
    assert Covering1(s, s1, confl, visited, out) by {
      if trueConfl {
        TrueCovered(s, s1, t0, c0, c, ks, confl, visited, out);
      } else {
        FalseCovered(s, s1, confl, visited, out);
      }
    }
    SearchedEntails(s.t, s1.ca, s.live, confl, visited, out);
    if !trueConfl {
      ConflictFinds(s, s1, t0, ks, confl, visited, out);
    } else {
      AddedDistinct(s.t, c[|ks|], out);
    }
  }

  lemma AddedDistinct(t: Trail, l: Lit, out: seq<Lit>)
    requires AddsAssumed(t, [l], out, 0) && t.Reason(l.v) != UNDEF
    ensures Distinct(out)
  {
    forall j | 1 <= j < |out|
      ensures out[j].v != out[0].v
    {
      assert NegatesAssumed(t, out[j], 0);
    }
  }

  ghost predicate Covering1(s: State, s1: State, confl: int, visited: set<Var>, out: seq<Lit>) {
    0 <= confl < |s1.ca|
    && forall q :: q in s1.ca[confl] ==> q in out || (s.t.False(q) && (q.v in visited || s.t.Level(q.v) == 0))
  }

  lemma FalseCovered(s: State, s1: State, confl: int, visited: set<Var>, out: seq<Lit>)
    requires 0 <= confl < |s.ca| && SameArena(s.ca, s1.ca) && s.t.AllFalse(s.ca[confl])
    requires Covers(s.ca[confl], 0, visited)
    ensures Covering1(s, s1, confl, visited, out)
  {
    forall q | q in s1.ca[confl]
      ensures s.t.False(q) && q.v in visited
    {
      assert q in s.ca[confl];
    }
  }

  lemma FromKept(t0: Trail, t: Trail, ks: Clause, out0: seq<Lit>, out: seq<Lit>, l: Lit)
    requires Probing(t0, t, ks) && AddsAssumed(t, out0, out, 0) && l in out
    ensures l in out0 || l in ks
  {
    var j :| 0 <= j < |out| && out[j] == l;
    if j >= |out0| {
      var i :| 0 <= i < |t.lits| && t.LevelAt(i) > 0 && t.Reason(t.lits[i].v) == UNDEF && t.lits[i] == Neg(out[j]);
      assert Neg(t.lits[i]) == l;
    }
  }

  lemma ConflictFinds(s: State, s1: State, t0: Trail, ks: Clause, confl: int, visited: set<Var>, out: seq<Lit>)
    requires Probing(t0, s.t, ks) && s1 == s.(ca := s1.ca) && Analysing(s1, 1) && Searched(s.t, s1.ca, visited, out)
    requires 0 <= confl < |s.ca| && s.ca[confl] != [] && Covers(s.ca[confl], 0, visited)
    requires FalsifiedFrom(s.t, s.ca[confl][0], |t0.lits|)
    ensures out != []
  {
    hide Base, WatchInv, Searched;
    AnalysingParts(s1, 1);
    var i :| |t0.lits| <= i < |s.t.lits| && s.t.lits[i] == Neg(s.ca[confl][0]);
    assert s.t.LevelAt(i) > 0;
    SearchedFinds(s.t, s1.ca, s.live, visited, out, i);
  }

  // ---------- The steps of simplifyLearnt ----------

  lemma AssumeReady(s: State, k: Lit)
    requires Ready(s, |s.t.lits|) && k.v < |s.t.vardata| && s.t.Undef(k)
    ensures Ready(s.(t := Enqueue(NewLevel(s.t), Neg(k), |s.t.lim| + 1, UNDEF)), |s.t.lits|)
    ensures Consistent(Enqueue(NewLevel(s.t), Neg(k), |s.t.lim| + 1, UNDEF))
  {
    hide Ready, Consistent;
    NewLevelReady(s);
    DecideReady(s.(t := NewLevel(s.t)), |s.t.lits|, Neg(k));
    ReadyTrail(s.(t := Enqueue(NewLevel(s.t), Neg(k), |s.t.lim| + 1, UNDEF)), |s.t.lits|);
  }

  lemma ReadyTrail(s: State, qhead: nat)
    requires Ready(s, qhead)
    ensures Consistent(s.t) && Leveled(s.t) && qhead <= |s.t.lits|
  {
  }

  lemma ConflictAnalysing(s: State, t0: Trail, ks: Clause, confl: int, bound: nat)
    requires Base(s) && s.dirty == {} && s.dirtyBin == {} && Conflicting(s.t, s.ca, s.live, confl, bound)
    requires Probing(t0, s.t, ks) && ks != [] && |t0.lits| <= bound
    ensures Analysing(s, 1) && confl in s.live && 0 <= confl < |s.ca| && s.ca[confl] != [] && s.t.AllFalse(s.ca[confl])
    ensures FalsifiedFrom(s.t, s.ca[confl][0], |t0.lits|)
  {
    hide Base, WatchInv;
    WatchInvBelow(s.t, s.ca, s.live, bound, s.t.lim[0]);
  }

  lemma ReadyAnalysing(s: State, t0: Trail, ks: Clause)
    requires Ready(s, |s.t.lits|) && s.dirty == {} && s.dirtyBin == {} && Probing(t0, s.t, ks) && ks != []
    ensures Analysing(s, 1)
  {
    hide Base, WatchInv;
    WatchInvBelow(s.t, s.ca, s.live, |s.t.lits|, s.t.lim[0]);
  }

  /** Back at level 0: t1 agrees with the trail t0 the solver started from. */
  lemma ProbedCancel(s: State, t0: Trail, ks: Clause, t1: Trail)
    requires Analysing(s, 1) && Probing(t0, s.t, ks) && ks != []
    requires t1.lits == t0.lits && t1.lim == [] && t1.assigns == t0.assigns && |t1.vardata| == |t0.vardata|
    requires forall v :: v in t0.assigns ==> t1.Level(v) == t0.Level(v) && t1.Reason(v) == t0.Reason(v)
    ensures Ready(s.(t := t1), |t0.lits|)
  {
    hide Listing, Stored, WatchInv, ClausesOk, Justified, LevelsMaximal, Probing;
    ProbeParts(t0, s.t, ks);
    AnalysingParts(s, 1);
    assert WatchInv(s.t, s.ca, s.live, s.t.lim[0]);
    CancelReady(s, 0);
    ProbeCancel(t0, s.t, ks);
    SameAssignedReady(Cancelled(s, 0), |t0.lits|, t1);
  }

  /** Without a conflict every other literal is false: with c0, the database entails what was kept. */
  lemma KeptVivifies(s: State, t0: Trail, c0: Clause, c: Clause, ks: Clause)
    requires Probed(s, t0, c0, c, ks, UNDEF, false)
    ensures forall m :: MeetsDb(m, s.t, s.ca, s.live) && Satisfies(m, c0) ==> Satisfies(m, c)
  {
    hide Base, WatchInv;
    AnalysingParts(s, 1);
    ProbeParts(t0, s.t, ks);
    KeptEntailed(s.t, s.ca, s.live, c0, ks);
  }

  lemma ProbeEmpty(t0: Trail, t: Trail, ks: Clause)
    requires Probing(t0, t, ks)
    ensures ks == [] ==> t == t0
  {
  }

  lemma DistinctKept(c0: Clause, i: nat, ks: Clause)
    requires Distinct(c0) && i < |c0| && Distinct(ks) && forall l :: l in ks ==> l in c0[..i]
    ensures Distinct(ks + [c0[i]])
  {
    forall j | 0 <= j < |ks|
      ensures ks[j].v != c0[i].v
    {
      assert ks[j] in ks && ks[j] in c0[..i];
    }
  }

  /** The literals of c0 have been tried up to index i: those of ks have been assumed negated, each at a level of its
      own, the others are false and implied. */
  ghost predicate Testing(t: Trail, c0: Clause, i: nat, ks: Clause) {
    && i <= |c0| && |t.lim| == |ks|
    && (forall j :: 0 <= j < |ks| ==> t.lim[j] < |t.lits| && t.lits[t.lim[j]] == Neg(ks[j]))
    && (forall l :: l in c0[..i] ==> l in ks || (t.False(l) && t.Reason(l.v) != UNDEF))
    && (forall l :: l in ks ==> l in c0[..i])
  }

  /** The next literal has been assumed negated, and the consequences have been propagated. */
  lemma TestingAssume(t: Trail, t': Trail, c0: Clause, i: nat, ks: Clause)
    requires Consistent(t) && Testing(t, c0, i, ks) && i < |c0| && c0[i].v < |t.vardata| && t.Undef(c0[i])
    requires Extends(Enqueue(NewLevel(t), Neg(c0[i]), |t.lim| + 1, UNDEF), t')
    ensures Testing(t', c0, i + 1, ks + [c0[i]])
  {
    var t1 := Enqueue(NewLevel(t), Neg(c0[i]), |t.lim| + 1, UNDEF);
    var ks' := ks + [c0[i]];
    assert c0[..i + 1] == c0[..i] + [c0[i]];
    forall j | 0 <= j < |ks'|
      ensures t'.lim[j] < |t'.lits| && t'.lits[t'.lim[j]] == Neg(ks'[j])
    {
      assert t1.lim[j] < |t1.lits| && t1.lits[t1.lim[j]] == Neg(ks'[j]);
    }
    forall l | l in c0[..i] && l !in ks
      ensures t'.False(l) && t'.Reason(l.v) != UNDEF
    {
      assert l.v in t.assigns && l.v != c0[i].v;
      assert t1.False(l) && t1.Reason(l.v) == t.Reason(l.v);
    }
  }

  /** A literal found false was implied. */
  lemma FalseHasReason(t0: Trail, t: Trail, c0: Clause, i: nat, ks: Clause)
    requires Probing(t0, t, ks) && Consistent(t) && i < |c0| && t.False(c0[i]) && c0[i].v !in t0.assigns && c0[i] !in ks
    ensures t.Reason(c0[i].v) != UNDEF
  {
    hide Consistent;
    FalseIsBefore(t, c0[i]);
    var j :| 0 <= j < |t.lits| && t.lits[j] == Neg(c0[i]);
    TrueAbove(t0, t, ks, j);
    assert Neg(Neg(c0[i])) == c0[i];
    assert DecidedFrom(t, ks);
  }

  /** The next literal has been found false. */
  lemma TestingDrop(t0: Trail, t: Trail, c0: Clause, i: nat, ks: Clause)
    requires Probing(t0, t, ks) && Consistent(t) && Testing(t, c0, i, ks) && i < |c0| && Distinct(c0)
    requires t.False(c0[i]) && c0[i].v !in t0.assigns
    ensures Testing(t, c0, i + 1, ks)
  {
    hide Probing, Consistent;
    assert c0[..i + 1] == c0[..i] + [c0[i]];
    NotTwice(c0, i);
    FalseHasReason(t0, t, c0, i, ks);
  }

  lemma NotTwice(c0: Clause, i: nat)
    requires i < |c0| && Distinct(c0)
    ensures c0[i] !in c0[..i]
  {
  }

  /** What simplifyLearnt has found out about a clause: the virtual trail and the arena in the end, the literals assumed
      negated, how many have been tried, what has been kept, and the conflict, or the reason of a literal found true. */
  datatype Trial = Trial(t: Trail, ca: seq<Clause>, ks: Clause, n: nat, kept: Clause, confl: int, trueConfl: bool)

  /** The trial of the clause c0, from the trail root on, has come to its end: with the first conflict, at the first
      literal found true, or when all literals have been tried. */
  ghost predicate Tried(root: Trail, live: set<int>, c0: Clause, r: Trial) {
    && Probing(root, r.t, r.ks) && Justified(r.t, r.ca, live) && r.ks != []
    && (if r.trueConfl then
         && 0 < r.n <= |c0| && Testing(r.t, c0, r.n - 1, r.ks)
         && r.kept == r.ks + [c0[r.n - 1]] && r.t.True(c0[r.n - 1])
         && r.confl == r.t.Reason(c0[r.n - 1].v) != UNDEF
       else
         && Testing(r.t, c0, r.n, r.ks) && r.kept == r.ks && (r.confl == UNDEF ==> r.n == |c0|))
    && (r.confl != UNDEF ==> r.confl in live && 0 <= r.confl < |r.ca|)
    && (r.confl != UNDEF && !r.trueConfl ==> r.n > 0 && r.ks[|r.ks| - 1] == c0[r.n - 1] && r.t.AllFalse(r.ca[r.confl]))
  }

  /** What the analysis of a trial finds: the negations of the literals assumed on which the conflict, or the true
      literal, rests. */
  ghost function Found(r: Trial): Clause
    requires 0 <= r.confl < |r.ca| && r.t.lim != []
    requires r.trueConfl ==> r.kept != [] && r.ca[r.confl] != []
  {
    if r.trueConfl then Collect(r.t, r.ca, Above(r.t, r.ca[r.confl][1..]), 1, [r.kept[|r.kept| - 1]], r.t.lim[0])
    else Collect(r.t, r.ca, Above(r.t, r.ca[r.confl][0..]), 1, [], r.t.lim[0])
  }

  /** The clause that the trial ends with: what the analysis finds, if there is anything to analyse and less is
      found. */
  ghost predicate Outcome(r: Trial, c: Clause) {
    if r.confl == UNDEF then c == r.kept
    else
      && 0 <= r.confl < |r.ca| && r.t.lim != [] && (r.trueConfl ==> r.kept != [] && r.ca[r.confl] != [])
      && c == if |Found(r)| < |r.kept| then Found(r) else r.kept
  }

  /** A literal found true was implied, for its negation has not been assumed. */
  lemma TrueHasReason(t0: Trail, t: Trail, ks: Clause, c0: Clause, i: nat, k: Lit)
    requires Probing(t0, t, ks) && Consistent(t) && t.True(k) && k.v !in t0.assigns
    requires Distinct(c0) && i < |c0| && c0[i] == k && forall l :: l in ks ==> l in c0[..i]
    ensures t.Reason(k.v) != UNDEF
  {
    TruePosition(t, k);
    var j :| 0 <= j < |t.lits| && t.lits[j] == k;
    TrueAbove(t0, t, ks, j);
    assert Neg(k) !in c0[..i];
    assert DecidedFrom(t, ks);
  }

  /** The loop of simplifyLearnt is at index i of c0; ks is what it has kept and assumed negated. */
  ghost predicate Assembling(root: Trail, t: Trail, c0: Clause, i: nat, ks: Clause) {
    Probing(root, t, ks) && Testing(t, c0, i, ks) && Distinct(ks) && (i > 0 ==> ks != [])
  }

  lemma AssembleStart(root: Trail, c0: Clause)
    requires Consistent(root) && Leveled(root) && root.lim == []
    ensures Assembling(root, root, c0, 0, [])
  {
  }

  lemma AssembledParts(root: Trail, t: Trail, c0: Clause, i: nat, ks: Clause)
    requires Assembling(root, t, c0, i, ks)
    ensures Probing(root, t, ks) && (ks == [] ==> t == root && i == 0)
  {
    hide Testing;
    ProbeEmpty(root, t, ks);
  }

  lemma AssembleAssume(root: Trail, t: Trail, t': Trail, c0: Clause, i: nat, ks: Clause)
    requires Consistent(t) && Assembling(root, t, c0, i, ks) && i < |c0| && Distinct(c0)
    requires c0[i].v < |t.vardata| && t.Undef(c0[i])
    requires Extends(Enqueue(NewLevel(t), Neg(c0[i]), |t.lim| + 1, UNDEF), t') && Probing(root, t', ks + [c0[i]])
    ensures Assembling(root, t', c0, i + 1, ks + [c0[i]])
  {
    hide Probing, Consistent, Extends;
    TestingAssume(t, t', c0, i, ks);
    DistinctKept(c0, i, ks);
  }

  lemma AssembleDrop(root: Trail, t: Trail, c0: Clause, i: nat, ks: Clause)
    requires Consistent(t) && Assembling(root, t, c0, i, ks) && i < |c0| && Distinct(c0)
    requires t.False(c0[i]) && c0[i].v !in root.assigns
    ensures Assembling(root, t, c0, i + 1, ks)
  {
    hide Probing, Consistent, Testing;
    ProbeEmpty(root, t, ks);
    TestingDrop(root, t, c0, i, ks);
  }

  lemma TestingInside(t: Trail, c0: Clause, i: nat, ks: Clause)
    requires Testing(t, c0, i, ks)
    ensures i <= |c0| && forall l :: l in ks ==> l in c0
  {
  }

  lemma VirtualJustified(s: State)
    requires Analysing(s, 1)
    ensures Justified(s.t, s.ca, s.live)
  {
    hide Base;
    AnalysingParts(s, 1);
  }

  /** The loop ends with a conflict, */
  lemma EndFalse(s: State, root: Trail, c0: Clause, n: nat, ks: Clause, confl: int)
    requires Analysing(s, 1) && Assembling(root, s.t, c0, n, ks) && 0 < n <= |c0| && ks != []
    requires ks[|ks| - 1] == c0[n - 1] && confl in s.live && 0 <= confl < |s.ca| && s.ca[confl] != []
    requires s.t.AllFalse(s.ca[confl]) && FalsifiedFrom(s.t, s.ca[confl][0], |root.lits|)
    ensures Probed(s, root, c0, ks, ks, confl, false)
    ensures Tried(root, s.live, c0, Trial(s.t, s.ca, ks, n, ks, confl, false))
  {
    hide Analysing, Probing, Testing, Justified, FalsifiedFrom;
    TestingInside(s.t, c0, n, ks);
    VirtualJustified(s);
  }

  /** or with a true literal, */
  lemma EndTrue(s: State, root: Trail, c0: Clause, i: nat, ks: Clause)
    requires Ready(s, |s.t.lits|) && s.dirty == {} && s.dirtyBin == {} && Assembling(root, s.t, c0, i, ks) && i < |c0|
    requires Distinct(c0) && Consistent(s.t) && s.t.True(c0[i]) && c0[i].v !in root.assigns
    ensures Probed(s, root, c0, ks + [c0[i]], ks, s.t.Reason(c0[i].v), true)
    ensures Tried(root, s.live, c0, Trial(s.t, s.ca, ks, i + 1, ks + [c0[i]], s.t.Reason(c0[i].v), true))
  {
    hide Ready, Analysing, Probing, Testing, Justified, Consistent, Distinct;
    ProbeEmpty(root, s.t, ks);
    ReadyAnalysing(s, root, ks);
    VirtualJustified(s);
    TestingInside(s.t, c0, i, ks);
    KeptBefore(s.t, c0, i, ks);
    TrueHasReason(root, s.t, ks, c0, i, c0[i]);
    DistinctKept(c0, i, ks);
    assert (ks + [c0[i]])[..|ks|] == ks;
    TrueReasonLive(s, c0[i]);
  }

  lemma KeptBefore(t: Trail, c0: Clause, i: nat, ks: Clause)
    requires Testing(t, c0, i, ks)
    ensures forall l :: l in ks ==> l in c0[..i]
  {
  }

  lemma TrueReasonLive(s: State, l: Lit)
    requires Analysing(s, 1) && Consistent(s.t) && s.t.True(l) && s.t.Reason(l.v) != UNDEF
    ensures s.t.Reason(l.v) in s.live && 0 <= s.t.Reason(l.v) < |s.ca|
  {
    hide Analysing, Consistent;
    TruePosition(s.t, l);
    var j :| 0 <= j < |s.t.lits| && s.t.lits[j] == l;
    ReasonAt(s, 1, j);
  }

  /** or when every literal has been tried. */
  lemma EndAll(s: State, root: Trail, c0: Clause, ks: Clause)
    requires Ready(s, |s.t.lits|) && s.dirty == {} && s.dirtyBin == {} && Assembling(root, s.t, c0, |c0|, ks)
    requires c0 != []
    ensures Probed(s, root, c0, ks, ks, UNDEF, false)
    ensures Tried(root, s.live, c0, Trial(s.t, s.ca, ks, |c0|, ks, UNDEF, false))
  {
    hide Ready, Analysing, Probing, Justified;
    ReadyAnalysing(s, root, ks);
    VirtualJustified(s);
    assert c0[..|c0|] == c0;
  }

  /** A part of the clause that the database entails along with the clause may replace it: the models stay the same. */
  ghost predicate Vivified(t: Trail, ca: seq<Clause>, live: set<int>, c: Clause, c': Clause) {
    && c' != [] && Distinct(c') && (forall l :: l in c' ==> l in c)
    && (forall m :: MeetsDb(m, t, ca, live) && Satisfies(m, c) ==> Satisfies(m, c'))
  }

  lemma VivifiedSameModels(m: Model, t: Trail, ca: seq<Clause>, live: set<int>, c: Clause, c': Clause)
    requires Vivified(t, ca, live, c, c') && MeetsDb(m, t, ca, live)
    ensures Satisfies(m, c) <==> Satisfies(m, c')
  {
  }

  /** What the database of the virtual trail entails, that of the real one does. */
  lemma VivifiedBack(t0: Trail, t: Trail, ks: Clause, t1: Trail, ca: seq<Clause>, live: set<int>, c: Clause, c': Clause)
    requires Probing(t0, t, ks) && Vivified(t, ca, live, c, c') && SameAssigned(t0, t1)
    ensures Vivified(t1, ca, live, c, c')
  {
    hide DecidedFrom;
    forall m | MeetsDb(m, t1, ca, live)
      ensures MeetsDb(m, t, ca, live)
    {
      forall i | 0 <= i < |t0.lits|
        ensures Holds(m, t0.lits[i])
      {
        assert t0.True(t0.lits[i]) && t0.LevelAt(i) == 0;
        assert t1.LevelAt(i) == 0;
      }
      ProbeMeets(m, t0, t, ks, ca, live);
    }
  }

  /** A learnt clause may be replaced by its vivified form. */
  lemma VivifiedFollows(s: State, qhead: nat, c: Clause, c': Clause)
    requires Ready(s, qhead) && Vivified(s.t, s.ca, s.live, c, c') && Entails(s.f, c)
    ensures Entails(s.f, c')
  {
    hide WatchInv, TrailInv, ClausesOk, Listing, Covering;
    forall m | Models(m, s.f)
      ensures Satisfies(m, c')
    {
      ModelMeetsDb(m, s.t, s.ca, s.live, s.f);
    }
  }
}
