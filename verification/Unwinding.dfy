/** What a walk down the trail flags, as a function of the state in which it starts. */
module Unwinding {
  import opened Cnf
  import opened Trails
  import opened Analysis

  /** The variables of positive level in a clause. */
  ghost function Above(t: Trail, c: Clause): set<Var> {
    set q | q in c && t.Level(q.v) > 0 :: q.v
  }

  /** What the reason of the literal at position i mentions besides it. */
  ghost function Causes(t: Trail, ca: seq<Clause>, i: nat): set<Var>
    requires i < |t.lits|
  {
    var r := t.Reason(t.lits[i].v);
    if 0 <= r < |ca| then Above(t, ca[r]) - {t.lits[i].v} else {}
  }

  /** The walk stops over position i, having flagged the variables in flags above it. */
  predicate Stops(t: Trail, level: nat, flags: set<Var>, i: nat)
    requires i < |t.lits|
  {
    t.lits[i].v in flags && t.LevelAt(i) >= level
  }

  /** The variables flagged when the positions from k on have been passed: the walk starts with some of them; at each
      flagged one of the given level or higher it takes the flag and flags the causes instead. */
  ghost function Walk(t: Trail, ca: seq<Clause>, start: set<Var>, level: nat, k: nat): set<Var>
    decreases |t.lits| - k
  {
    if k >= |t.lits| then start
    else
      var flags := Walk(t, ca, start, level, k + 1);
      if Stops(t, level, flags, k) then flags - {t.lits[k].v} + Causes(t, ca, k) else flags
  }

  /** Resolving a conflict in c with reasons down the trail stops at position i. */
  ghost predicate StopsAt(t: Trail, ca: seq<Clause>, c: Clause, level: nat, i: nat) {
    i < |t.lits| && Stops(t, level, Walk(t, ca, Above(t, c), level, i + 1), i)
  }

  /** Of the conflict level no literal is left but the one at position i. */
  ghost predicate LastLeft(t: Trail, ca: seq<Clause>, c: Clause, level: nat, i: nat) {
    i < |t.lits| && forall v :: v in Walk(t, ca, Above(t, c), level, i + 1) && t.Level(v) >= level ==> v == t.lits[i].v
  }

  /** Position i is the first unique implication point of a conflict in c: the first position at which the walk stops
      with only one literal of the conflict level left. */
  ghost predicate FirstPoint(t: Trail, ca: seq<Clause>, c: Clause, level: nat, i: nat) {
    && StopsAt(t, ca, c, level, i) && LastLeft(t, ca, c, level, i)
    && (forall k :: i < k < |t.lits| && StopsAt(t, ca, c, level, k) ==> !LastLeft(t, ca, c, level, k))
  }

  /** The clause that resolution leaves at the first unique implication point: its literal in front, negated, and
      besides exactly the variables still flagged. */
  ghost predicate FirstUipClause(t: Trail, ca: seq<Clause>, c: Clause, level: nat, out: Clause) {
    exists i: nat :: i < |t.lits| && FirstPoint(t, ca, c, level, i) && out != [] && out[0] == Neg(t.lits[i])
                && Vars(out) == Walk(t, ca, Above(t, c), level, i + 1)
  }

  // ---------- The order of literals does not matter ----------

  lemma AboveSame(t: Trail, c: Clause, d: Clause)
    requires SameLits(d, c)
    ensures Above(t, d) == Above(t, c)
  {
  }

  lemma CausesSame(t: Trail, ca: seq<Clause>, ca': seq<Clause>, i: nat)
    requires SameArena(ca, ca') && i < |t.lits|
    ensures Causes(t, ca', i) == Causes(t, ca, i)
  {
    hide Above;
    var r := t.Reason(t.lits[i].v);
    if 0 <= r < |ca| {
      AboveSame(t, ca[r], ca'[r]);
    }
  }

  lemma {:induction false} WalkSame(t: Trail, ca: seq<Clause>, ca': seq<Clause>, start: set<Var>, level: nat, k: nat)
    requires SameArena(ca, ca')
    ensures Walk(t, ca', start, level, k) == Walk(t, ca, start, level, k)
    decreases |t.lits| - k
  {
    hide Causes;
    if k < |t.lits| {
      WalkSame(t, ca, ca', start, level, k + 1);
      CausesSame(t, ca, ca', k);
    }
  }

  lemma PointSame(t: Trail, ca: seq<Clause>, ca': seq<Clause>, c: Clause, d: Clause, level: nat, i: nat)
    requires SameArena(ca, ca') && SameLits(d, c)
    ensures StopsAt(t, ca', d, level, i) == StopsAt(t, ca, c, level, i)
    ensures LastLeft(t, ca', d, level, i) == LastLeft(t, ca, c, level, i)
  {
    hide Walk, Above, SameArena;
    AboveSame(t, c, d);
    WalkSame(t, ca, ca', Above(t, c), level, i + 1);
  }

  lemma FirstPointSame(t: Trail, ca: seq<Clause>, ca': seq<Clause>, c: Clause, d: Clause, level: nat, i: nat)
    requires SameArena(ca, ca') && SameLits(d, c) && FirstPoint(t, ca, c, level, i)
    ensures FirstPoint(t, ca', d, level, i)
  {
    hide StopsAt, LastLeft, SameArena, SameLits;
    forall k: nat
      ensures StopsAt(t, ca', d, level, k) == StopsAt(t, ca, c, level, k)
      ensures LastLeft(t, ca', d, level, k) == LastLeft(t, ca, c, level, k)
    {
      PointSame(t, ca, ca', c, d, level, k);
    }
  }

  // ---------- Following the walk ----------

  /** Positions over which the walk does not stop change nothing. */
  lemma {:induction false} WalkPasses(t: Trail, ca: seq<Clause>, start: set<Var>, level: nat, i: nat, k: nat)
    requires i <= k <= |t.lits|
    requires forall j :: i <= j < k ==> !Stops(t, level, Walk(t, ca, start, level, k), j)
    ensures Walk(t, ca, start, level, i) == Walk(t, ca, start, level, k)
    decreases k - i
  {
    if i < k {
      WalkPasses(t, ca, start, level, i + 1, k);
    }
  }

  /** Down to position k the walk has not come to the first unique implication point. */
  ghost predicate NotYet(t: Trail, ca: seq<Clause>, c: Clause, level: nat, k: nat) {
    forall j :: k <= j < |t.lits| && StopsAt(t, ca, c, level, j) ==> !LastLeft(t, ca, c, level, j)
  }

  /** Analysis is about to flag a clause: the conflict c, or the causes of p, the literal at position k. */
  ghost predicate OnWalk(t: Trail, ca: seq<Clause>, c: Clause, level: nat, k: nat, mk: Marks, j0: nat, p: Lit) {
    if j0 == 0 then k == |t.lits| && mk.seen == {}
    else
      && StopsAt(t, ca, c, level, k) && p == t.lits[k] && NotYet(t, ca, c, level, k)
      && mk.seen == Walk(t, ca, Above(t, c), level, k + 1) - {p.v}
  }

  lemma WalkStarts(t: Trail, ca: seq<Clause>, c: Clause, level: nat, p: Lit)
    ensures OnWalk(t, ca, c, level, |t.lits|, Marks({}, [], {}, {}), 0, p)
  {
  }

  /** The causes of p are all of the clause but its first literal. */
  lemma CausesTail(t: Trail, ca: seq<Clause>, ca': seq<Clause>, i: nat, cr: int)
    requires SameArena(ca, ca') && i < |t.lits| && cr == t.Reason(t.lits[i].v) && 0 <= cr < |ca'|
    requires Distinct(ca'[cr]) && |ca'[cr]| > 0 && ca'[cr][0] == t.lits[i]
    ensures Flag(t, ca'[cr][1..]) == Causes(t, ca, i)
  {
    hide SameArena;
    CausesSame(t, ca, ca', i);
    var c := ca'[cr];
    forall v | v in Causes(t, ca', i)
      ensures v in Flag(t, c[1..])
    {
      var q :| q in c && t.Level(q.v) > 0 && q.v == v;
      var k :| 0 <= k < |c| && c[k] == q;
      assert c[1..][k - 1] == q;
    }
    forall v | v in Flag(t, c[1..])
      ensures v in Causes(t, ca', i)
    {
      var k :| 0 <= k < |c[1..]| && t.Level(c[1..][k].v) > 0 && c[1..][k].v == v;
      assert c[k + 1] in c && c[0].v != c[k + 1].v;
    }
  }

  lemma FlagAbove(t: Trail, c: Clause)
    ensures Flag(t, c[0..]) == Above(t, c)
  {
    assert c[0..] == c;
    forall v | v in Above(t, c)
      ensures v in Flag(t, c)
    {
      var q :| q in c && t.Level(q.v) > 0 && q.v == v;
      var k :| 0 <= k < |c| && c[k] == q;
    }
  }

  /** The flags beside the stale ones, which are of level 0. */
  lemma FlagsKnown(t: Trail, level: nat, k: nat, mk: Marks, stale: set<Var>)
    requires Marked(t, level, k, mk) && RootOnly(t, stale) && level > 0
    ensures mk.seen == set v | v in mk.seen + stale && t.Level(v) > 0
  {
    forall v | v in mk.seen
      ensures t.Level(v) > 0
    {
      if v in Vars(mk.tail) {
        var i :| 0 <= i < |mk.tail| && mk.tail[i].v == v;
      }
    }
  }

  /** Flagging the clause completes position k of the walk. */
  lemma FlagWalk(t: Trail, ca: seq<Clause>, ca': seq<Clause>, c: Clause, level: nat, k: nat, mk0: Marks, mk: Marks,
                 cr: int, j0: nat, p: Lit, stale: set<Var>)
    requires OnWalk(t, ca, c, level, k, mk0, j0, p) && SameArena(ca, ca') && 0 <= cr < |ca'| && j0 <= |ca'[cr]|
    requires Marked(t, level, k, mk0) && Marked(t, level, k, mk) && RootOnly(t, stale) && level > 0
    requires mk.seen + stale == mk0.seen + stale + Flag(t, ca'[cr][j0..])
    requires if j0 == 0 then ca'[cr] == c
             else j0 == 1 && cr == t.Reason(p.v) && Distinct(ca'[cr]) && ca'[cr][0] == p
    ensures mk.seen == Walk(t, ca, Above(t, c), level, k) && NotYet(t, ca, c, level, k)
  {
    hide SameArena, Marked, StopsAt, LastLeft;
    FlagsKnown(t, level, k, mk0, stale);
    FlagsKnown(t, level, k, mk, stale);
    assert forall v :: v in Flag(t, ca'[cr][j0..]) ==> t.Level(v) > 0;
    if j0 == 0 {
      FlagAbove(t, c);
    } else {
      StopsHere(t, ca, c, level, k);
      CausesTail(t, ca, ca', k, cr);
    }
    assert mk.seen == mk0.seen + Flag(t, ca'[cr][j0..]);
  }

  lemma StopsHere(t: Trail, ca: seq<Clause>, c: Clause, level: nat, k: nat)
    requires StopsAt(t, ca, c, level, k)
    ensures k < |t.lits| && Walk(t, ca, Above(t, c), level, k)
              == Walk(t, ca, Above(t, c), level, k + 1) - {t.lits[k].v} + Causes(t, ca, k)
  {
  }

  /** Taking the next flagged literal of the conflict level, at position i, off the trail. */
  lemma TakeWalk(t: Trail, ca: seq<Clause>, c: Clause, level: nat, k: nat, mk0: Marks, i: nat, mk: Marks)
    requires mk0.seen == Walk(t, ca, Above(t, c), level, k) && NotYet(t, ca, c, level, k)
    requires i < k <= |t.lits| && t.lits[i].v in mk0.open && Marked(t, level, k, mk0) && Marked(t, level, i, mk)
    requires mk == mk0.(seen := mk0.seen - {t.lits[i].v}, open := mk0.open - {t.lits[i].v})
    requires forall j :: i < j < k ==> !(t.lits[j].v in mk0.seen && t.LevelAt(j) >= level)
    ensures StopsAt(t, ca, c, level, i) && mk.seen + {t.lits[i].v} == Walk(t, ca, Above(t, c), level, i + 1)
    ensures mk.open == {} ==> FirstPoint(t, ca, c, level, i)
    ensures mk.open != {} ==> OnWalk(t, ca, c, level, i, mk, 1, t.lits[i])
  {
    hide Walk, Marked;
    OpenMarks(t, level, k, mk0);
    OpenMarks(t, level, i, mk);
    WalkPasses(t, ca, Above(t, c), level, i + 1, k);
    WalkedOver(t, ca, c, level, i, k);
    assert StopsAt(t, ca, c, level, i);
    if mk.open != {} {
      var v :| v in mk.open;
      assert v in mk.seen && v != t.lits[i].v;
      assert !LastLeft(t, ca, c, level, i);
    }
  }

  /** Between the two positions the walk stops nowhere. */
  lemma WalkedOver(t: Trail, ca: seq<Clause>, c: Clause, level: nat, i: nat, k: nat)
    requires i < k <= |t.lits|
    requires forall j :: i < j < k ==> !Stops(t, level, Walk(t, ca, Above(t, c), level, k), j)
    ensures forall j :: i < j < k ==> !StopsAt(t, ca, c, level, j)
  {
    forall j | i < j < k
      ensures !StopsAt(t, ca, c, level, j)
    {
      WalkPasses(t, ca, Above(t, c), level, j + 1, k);
    }
  }

  /** The learnt clause is the one at the first unique implication point. */
  lemma WalkEnds(t: Trail, ca: seq<Clause>, c: Clause, level: nat, i: nat, mk: Marks)
    requires i < |t.lits| && FirstPoint(t, ca, c, level, i) && mk.seen == Vars(mk.tail)
    requires mk.seen + {t.lits[i].v} == Walk(t, ca, Above(t, c), level, i + 1)
    ensures FirstUipClause(t, ca, c, level, [Neg(t.lits[i])] + mk.tail)
  {
    hide FirstPoint, Walk;
    var out := [Neg(t.lits[i])] + mk.tail;
    forall v
      ensures v in Vars(out) <==> v in mk.seen + {t.lits[i].v}
    {
      if v in Vars(out) {
        var j :| 0 <= j < |out| && out[j].v == v;
        assert j > 0 ==> out[j] == mk.tail[j - 1];
      }
      if v in mk.seen {
        var j :| 0 <= j < |mk.tail| && mk.tail[j].v == v;
        assert out[j + 1].v == v;
      }
      assert out[0].v == t.lits[i].v;
    }
  }
}
