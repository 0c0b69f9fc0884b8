/** Which literals of a learnt clause minimisation drops, as a property of the implication graph. */
module Redundancy {
  import opened Cnf
  import opened Trails
  import opened Analysis
  import opened Unwinding

  /** What the reason of v rests on: variables of positive level outside base. */
  ghost function Needs(t: Trail, ca: seq<Clause>, base: set<Var>, v: Var): set<Var> {
    var r := t.Reason(v);
    if 0 <= r < |ca| then set q | q in ca[r] && q.v != v && t.Level(q.v) > 0 && q.v !in base :: q.v else {}
  }

  /** A path in the implication graph from p that leaves base at once and passes only through the given variables; its
      last variable may be any. */
  ghost predicate Path(t: Trail, ca: seq<Clause>, base: set<Var>, through: set<Var>, p: Var, path: seq<Var>) {
    && path != [] && path[0] == p
    && (forall i :: 0 <= i < |path| - 1 ==> path[i + 1] in Needs(t, ca, base, path[i]))
    && (forall i :: 0 < i < |path| - 1 ==> path[i] in through)
  }

  /** p does not rest on base alone: some path from it gets stuck. */
  ghost predicate Stuck(t: Trail, ca: seq<Clause>, base: set<Var>, through: set<Var>, p: Var) {
    exists path :: Path(t, ca, base, through, p, path) && |path| > 1 && path[|path| - 1] !in through
  }

  /** Some path from p leads to v, and v may be passed through, unless it is p itself. */
  ghost predicate Leads(t: Trail, ca: seq<Clause>, base: set<Var>, through: set<Var>, p: Var, v: Var) {
    exists path :: Path(t, ca, base, through, p, path) && path[|path| - 1] == v && (|path| > 1 ==> v in through)
  }

  /** Whether minimisation drops the literal of v: in mode 2 if no path gets stuck, in mode 1 if its reason rests on
      base alone, in other modes never. */
  ghost predicate Drops(mode: nat, t: Trail, ca: seq<Clause>, base: set<Var>, through: set<Var>, v: Var) {
    && t.Reason(v) != UNDEF
    && if mode == 2 then !Stuck(t, ca, base, through, v) else mode == 1 && Needs(t, ca, base, v) == {}
  }

  lemma NeedsSame(t: Trail, ca: seq<Clause>, ca': seq<Clause>, base: set<Var>, v: Var)
    requires SameArena(ca, ca')
    ensures Needs(t, ca', base, v) == Needs(t, ca, base, v)
  {
  }

  lemma PathSame(t: Trail, ca: seq<Clause>, ca': seq<Clause>, base: set<Var>, through: set<Var>, p: Var,
                 path: seq<Var>)
    requires SameArena(ca, ca')
    ensures Path(t, ca', base, through, p, path) == Path(t, ca, base, through, p, path)
  {
    hide Needs, SameArena;
    forall v
      ensures Needs(t, ca', base, v) == Needs(t, ca, base, v)
    {
      NeedsSame(t, ca, ca', base, v);
    }
  }

  lemma StuckSame(t: Trail, ca: seq<Clause>, ca': seq<Clause>, base: set<Var>, through: set<Var>, p: Var)
    requires SameArena(ca, ca')
    ensures Stuck(t, ca', base, through, p) == Stuck(t, ca, base, through, p)
    ensures forall v :: Leads(t, ca', base, through, p, v) == Leads(t, ca, base, through, p, v)
  {
    hide Path, SameArena;
    forall path
      ensures Path(t, ca', base, through, p, path) == Path(t, ca, base, through, p, path)
    {
      PathSame(t, ca, ca', base, through, p, path);
    }
  }

  lemma LeadsSelf(t: Trail, ca: seq<Clause>, base: set<Var>, through: set<Var>, p: Var)
    ensures Leads(t, ca, base, through, p, p)
  {
    assert Path(t, ca, base, through, p, [p]);
  }

  /** One edge further: on to q, or stuck there. */
  lemma LeadsOn(t: Trail, ca: seq<Clause>, base: set<Var>, through: set<Var>, p: Var, v: Var, q: Var)
    requires Leads(t, ca, base, through, p, v) && q in Needs(t, ca, base, v)
    ensures if q in through then Leads(t, ca, base, through, p, q) else Stuck(t, ca, base, through, p)
  {
    hide Needs;
    var path :| Path(t, ca, base, through, p, path) && path[|path| - 1] == v && (|path| > 1 ==> v in through);
    var path' := path + [q];
    forall i | 0 <= i < |path'| - 1
      ensures path'[i + 1] in Needs(t, ca, base, path'[i])
    {
      if i < |path| - 1 {
        assert path'[i] == path[i] && path'[i + 1] == path[i + 1];
      }
    }
    assert Path(t, ca, base, through, p, path');
  }

  /** What is marked beyond base rests on what is marked, and may be passed through. */
  ghost predicate Settled(t: Trail, ca: seq<Clause>, marked: set<Var>, base: set<Var>, through: set<Var>) {
    Closed(t, ca, marked, base) && marked - base <= through
  }

  /** From a variable that rests on what is marked no path gets stuck. */
  lemma NotStuck(t: Trail, ca: seq<Clause>, marked: set<Var>, base: set<Var>, through: set<Var>, p: Var)
    requires Settled(t, ca, marked, base, through) && Expanded(t, ca, marked, p)
    ensures !Stuck(t, ca, base, through, p)
  {
    if path :| Path(t, ca, base, through, p, path) && |path| > 1 && path[|path| - 1] !in through {
      PathMarked(t, ca, marked, base, through, p, path, |path| - 1);
      assert false;
    }
  }

  lemma {:induction false} PathMarked(t: Trail, ca: seq<Clause>, marked: set<Var>, base: set<Var>, through: set<Var>,
                                      p: Var, path: seq<Var>, i: nat)
    requires Settled(t, ca, marked, base, through) && Expanded(t, ca, marked, p)
    requires Path(t, ca, base, through, p, path) && 0 < i < |path|
    ensures path[i] in marked && path[i] in through
  {
    var v := path[i - 1];
    if i > 1 {
      PathMarked(t, ca, marked, base, through, p, path, i - 1);
      assert v in Needs(t, ca, base, path[i - 2]);
    }
    assert Expanded(t, ca, marked, v);
    assert path[i - 1 + 1] in Needs(t, ca, base, path[i - 1]);
  }

  /** The search of litRedundant: what is flagged beyond base may be passed through, and what is stacked is on a path
      from p. */
  ghost predicate OnPaths(t: Trail, ca: seq<Clause>, base: set<Var>, through: set<Var>, p: Var, seen: set<Var>,
                            stack: seq<Lit>) {
    && base <= seen && p in base && seen - base <= through
    && (forall i :: 0 <= i < |stack| ==> stack[i].v in seen && Leads(t, ca, base, through, p, stack[i].v))
  }

  lemma PathsStart(t: Trail, ca: seq<Clause>, base: set<Var>, through: set<Var>, p: Lit, seen: set<Var>)
    requires base <= seen && p.v in base && seen - base <= through
    ensures OnPaths(t, ca, base, through, p.v, seen, [p])
  {
    hide Leads;
    LeadsSelf(t, ca, base, through, p.v);
  }

  lemma PathsPop(t: Trail, ca: seq<Clause>, base: set<Var>, through: set<Var>, p: Var, seen: set<Var>, stack: seq<Lit>)
    requires OnPaths(t, ca, base, through, p, seen, stack) && stack != []
    ensures OnPaths(t, ca, base, through, p, seen, stack[..|stack| - 1])
    ensures stack[|stack| - 1].v in seen && Leads(t, ca, base, through, p, stack[|stack| - 1].v)
  {
    hide Leads;
  }

  /** The reason of x needs q, which is neither flagged nor of level 0. */
  lemma PathsOn(t: Trail, ca: seq<Clause>, ca': seq<Clause>, base: set<Var>, through: set<Var>, p: Var, seen: set<Var>,
                 stack: seq<Lit>, cr: int, x: Var, q: Lit)
    requires OnPaths(t, ca, base, through, p, seen, stack) && Leads(t, ca, base, through, p, x) && x in seen
    requires SameArena(ca, ca') && cr == t.Reason(x) && 0 <= cr < |ca'| && q in ca'[cr]
    requires q.v !in seen && t.Level(q.v) > 0
    ensures q.v in through ==> OnPaths(t, ca, base, through, p, seen + {q.v}, stack + [q])
    ensures q.v !in through ==> Stuck(t, ca, base, through, p)
  {
    hide Leads, Stuck, SameArena;
    NeedsSame(t, ca, ca', base, x);
    assert q.v in Needs(t, ca', base, x);
    LeadsOn(t, ca, base, through, p, x, q.v);
  }

  /** When nothing is left on the stack, no path from p gets stuck. */
  lemma PathsEnd(t: Trail, ca: seq<Clause>, ca': seq<Clause>, base: set<Var>, through: set<Var>, p: Var, seen: set<Var>)
    requires OnPaths(t, ca, base, through, p, seen, []) && SameArena(ca, ca')
    requires Closed(t, ca', seen, base) && Expanded(t, ca', seen, p)
    ensures !Stuck(t, ca, base, through, p) && seen - base <= through
  {
    hide Stuck, SameArena, Closed, Expanded;
    StuckSame(t, ca, ca', base, through, p);
    NotStuck(t, ca', seen, base, through, p);
  }

  /** The reason of v, found to rest on base and level 0 alone. */
  lemma NeedsNothing(t: Trail, ca: seq<Clause>, base: set<Var>, v: Var)
    requires 0 <= t.Reason(v) < |ca|
    ensures Needs(t, ca, base, v) == {} <==>
              forall q :: q in ca[t.Reason(v)] && q.v != v ==> q.v in base || t.Level(q.v) == 0
  {
    if forall q :: q in ca[t.Reason(v)] && q.v != v ==> q.v in base || t.Level(q.v) == 0 {
      assert forall x :: x !in Needs(t, ca, base, v);
    }
    forall q | q in ca[t.Reason(v)] && q.v != v && Needs(t, ca, base, v) == {}
      ensures q.v in base || t.Level(q.v) == 0
    {
      assert q.v !in Needs(t, ca, base, v);
    }
  }

  lemma DropsSame(mode: nat, t: Trail, ca: seq<Clause>, ca': seq<Clause>, base: set<Var>, through: set<Var>, v: Var)
    requires SameArena(ca, ca')
    ensures Drops(mode, t, ca', base, through, v) == Drops(mode, t, ca, base, through, v)
  {
    hide Stuck, Needs, SameArena;
    StuckSame(t, ca, ca', base, through, v);
    NeedsSame(t, ca, ca', base, v);
  }

  /** Minimisation keeps the first literal, and what it does not drop of the others. */
  ghost predicate Keeps(mode: nat, t: Trail, ca: seq<Clause>, base: set<Var>, through: set<Var>, out: Clause, l: Lit) {
    out != [] && (l == out[0] || !Drops(mode, t, ca, base, through, l.v))
  }

  /** Of the first i literals of out, kept are those that minimisation keeps. */
  ghost predicate Thinning(mode: nat, t: Trail, ca: seq<Clause>, base: set<Var>, through: set<Var>, out: Clause, i: nat,
                           kept: Clause) {
    1 <= i <= |out| && forall l :: l in kept <==> l in out[..i] && Keeps(mode, t, ca, base, through, out, l)
  }

  lemma ThinningStart(mode: nat, t: Trail, ca: seq<Clause>, base: set<Var>, through: set<Var>, out: Clause)
    requires out != []
    ensures Thinning(mode, t, ca, base, through, out, 1, out[..1])
  {
    hide Drops;
    assert out[..1] == [out[0]];
  }

  lemma ThinningEnd(mode: nat, t: Trail, ca: seq<Clause>, base: set<Var>, through: set<Var>, out: Clause, kept: Clause)
    requires Thinning(mode, t, ca, base, through, out, |out|, kept)
    ensures forall l :: l in kept <==> l in out && Keeps(mode, t, ca, base, through, out, l)
  {
    hide Drops;
    assert out[..|out|] == out;
  }

  lemma ThinningStep(mode: nat, t: Trail, ca: seq<Clause>, ca': seq<Clause>, base: set<Var>, through: set<Var>,
                     out: Clause, i: nat, kept: Clause, drop: bool)
    requires Thinning(mode, t, ca, base, through, out, i, kept) && i < |out| && Distinct(out) && SameArena(ca, ca')
    requires drop <==> Drops(mode, t, ca', base, through, out[i].v)
    ensures Thinning(mode, t, ca, base, through, out, i + 1, if drop then kept else kept + [out[i]])
  {
    hide Drops, SameArena;
    DropsSame(mode, t, ca, ca', base, through, out[i].v);
    assert out[..i + 1] == out[..i] + [out[i]];
    assert out[i] != out[0] && out[i] !in out[..i];
  }

  // ---------- The mask of levels ----------

  /** Levels modulo 32, one bit each. */
  function LevelBit(level: nat): bv32 {
    1 << (level % 32)
  }

  predicate InMask(level: nat, mask: bv32) {
    (LevelBit(level) & mask) != 0
  }

  ghost function MaskOf(t: Trail, ls: seq<Lit>): bv32 {
    if ls == [] then 0 else MaskOf(t, ls[..|ls| - 1]) | LevelBit(t.Level(ls[|ls| - 1].v))
  }

  lemma MaskNext(t: Trail, out: seq<Lit>, i: nat)
    requires 1 <= i < |out|
    ensures MaskOf(t, out[1..i + 1]) == MaskOf(t, out[1..i]) | LevelBit(t.Level(out[i].v))
  {
    hide LevelBit;
    var ls := out[1..i + 1];
    assert ls[..|ls| - 1] == out[1..i] && ls[|ls| - 1] == out[i];
  }

  lemma NoMask(t: Trail)
    ensures MaskOf(t, []) == 0
  {
  }

  /** The variables that litRedundant does not give up on: implied ones, of a level in the mask. */
  ghost function Passable(t: Trail, mask: bv32): set<Var> {
    set v | v in Below(|t.vardata|) && t.Reason(v) != UNDEF && InMask(t.Level(v), mask)
  }

  lemma PassableIff(t: Trail, v: Var, mask: bv32)
    requires v < |t.vardata|
    ensures v in Passable(t, mask) <==> t.Reason(v) != UNDEF && InMask(t.Level(v), mask)
  {
    hide InMask;
  }

  // ---------- The clause that is learnt ----------

  /** Whether minimisation keeps the literal l of the learnt clause uip, the flags in stale having been there before. */
  ghost predicate Survives(mode: nat, t: Trail, ca: seq<Clause>, uip: Clause, stale: set<Var>, l: Lit) {
    uip != [] && Keeps(mode, t, ca, Vars(uip[1..]) + stale, Passable(t, MaskOf(t, uip[1..])), uip, l)
  }

  lemma SurvivesFront(mode: nat, t: Trail, ca: seq<Clause>, uip: Clause, stale: set<Var>, l: Lit)
    requires uip != []
    ensures l == uip[0] ==> Survives(mode, t, ca, uip, stale, l)
  {
    hide Drops, MaskOf, Passable;
  }

  /** A stored clause of exactly the two literals. */
  ghost predicate HasBinary(ca: seq<Clause>, live: set<int>, a: Lit, b: Lit) {
    a != b && exists cr :: cr in live && 0 <= cr < |ca| && SameLits([a, b], ca[cr])
  }

  lemma HasBinarySame(ca: seq<Clause>, ca': seq<Clause>, live: set<int>, a: Lit, b: Lit)
    requires SameArena(ca, ca')
    ensures HasBinary(ca', live, a, b) == HasBinary(ca, live, a, b)
  {
    if cr :| cr in live && 0 <= cr < |ca| && SameLits([a, b], ca[cr]) {
      assert SameLits([a, b], ca'[cr]);
    }
    if cr :| cr in live && 0 <= cr < |ca'| && SameLits([a, b], ca'[cr]) {
      assert SameLits([a, b], ca[cr]);
    }
  }

  /** Whether both minimisations keep the literal l of the first-UIP clause. */
  ghost predicate Stays(mode: nat, smallLbd: bool, t: Trail, ca: seq<Clause>, live: set<int>, uip: Clause,
                        stale: set<Var>, l: Lit) {
    && Survives(mode, t, ca, uip, stale, l)
    && uip != [] && (l == uip[0] || !smallLbd || !HasBinary(ca, live, uip[0], Neg(l)))
  }

  /** What analysis makes of a conflict in c: the clause at the first unique implication point, less what the two
      minimisations drop. */
  ghost predicate Analysed(t: Trail, ca: seq<Clause>, live: set<int>, c: Clause, stale: set<Var>, level: nat, mode: nat,
                           smallLbd: bool, uip: Clause, out: Clause) {
    && uip != [] && FirstUipClause(t, ca, c, level, uip) && out != [] && out[0] == uip[0]
    && (forall l :: l in out <==> l in uip && Stays(mode, smallLbd, t, ca, live, uip, stale, l))
  }

  /** The order of literals in the arena does not matter. */
  lemma StaysSame(mode: nat, t: Trail, ca: seq<Clause>, ca': seq<Clause>, live: set<int>, uip: Clause, stale: set<Var>,
                  l: Lit)
    requires SameArena(ca, ca') && uip != []
    ensures Survives(mode, t, ca', uip, stale, l) == Survives(mode, t, ca, uip, stale, l)
    ensures HasBinary(ca', live, uip[0], Neg(l)) == HasBinary(ca, live, uip[0], Neg(l))
  {
    hide SameArena, Drops, HasBinary, MaskOf, Passable;
    DropsSame(mode, t, ca, ca', Vars(uip[1..]) + stale, Passable(t, MaskOf(t, uip[1..])), l.v);
    HasBinarySame(ca, ca', live, uip[0], Neg(l));
  }

  lemma FirstUipSame(t: Trail, ca: seq<Clause>, ca': seq<Clause>, c: Clause, d: Clause, level: nat, out: Clause)
    requires SameArena(ca, ca') && SameLits(d, c) && FirstUipClause(t, ca, c, level, out)
    ensures FirstUipClause(t, ca', d, level, out)
  {
    hide FirstPoint, SameArena, SameLits, Walk;
    var i: nat :| i < |t.lits| && FirstPoint(t, ca, c, level, i) && out != [] && out[0] == Neg(t.lits[i])
                  && Vars(out) == Walk(t, ca, Above(t, c), level, i + 1);
    FirstPointSame(t, ca, ca', c, d, level, i);
    AboveSame(t, c, d);
    WalkSame(t, ca, ca', Above(t, c), level, i + 1);
  }

  lemma AnalysedSame(t: Trail, ca: seq<Clause>, ca': seq<Clause>, live: set<int>, c: Clause, d: Clause,
                     stale: set<Var>, level: nat, mode: nat, smallLbd: bool, uip: Clause, out: Clause)
    requires SameArena(ca, ca') && SameLits(d, c)
    requires Analysed(t, ca, live, c, stale, level, mode, smallLbd, uip, out)
    ensures Analysed(t, ca', live, d, stale, level, mode, smallLbd, uip, out)
  {
    hide FirstUipClause, SameArena, SameLits, Survives, HasBinary;
    FirstUipSame(t, ca, ca', c, d, level, uip);
    forall l
      ensures Stays(mode, smallLbd, t, ca', live, uip, stale, l) == Stays(mode, smallLbd, t, ca, live, uip, stale, l)
    {
      StaysSame(mode, t, ca, ca', live, uip, stale, l);
    }
  }
}
