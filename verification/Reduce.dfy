/** Solving by cubes: filtering, solving what is left, and recursing on the cubes that take too long. */
module Reducing {
  import opened Cnf
  import opened Numbers
  import opened Enumeration
  import opened Counting
  import opened Backdoors

  datatype State = SAT | UNSAT | UNKNOWN

  /** An answer of the solver service; a model is given by the variables it makes true. */
  datatype Answer = Yes(model: set<Var>) | No | GaveUp

  /** What filtering leaves: a verdict, or the cubes that took too long. */
  datatype Filtered = Verdict(state: State) | Slow(cubes: seq<seq<Lit>>)

  /** The parts of the system that are taken as given. The service may answer differently at each call: it is told the
      number of the call, the assumptions, whether there is a time limit, and whether it has been interrupted. */
  datatype Oracles = Oracles(conf: seq<Lit> -> bool, service: (nat, seq<Lit>, bool, bool) -> Answer,
                             backdoors: (nat, seq<Lit>) -> seq<Backdoor>)

  datatype Config = Config(maxRecursionDepth: nat, seqSplitSamples: nat, maxThreads: nat, maxUnpropagated: nat,
                           maxCartesianSize: nat)

  ghost function ModelOf(s: set<Var>): Model {
    iset v | v in s
  }

  ghost predicate SoundAnswer(f: set<Clause>, cube: seq<Lit>, a: Answer, mayGiveUp: bool) {
    match a
    case Yes(model) => Models(ModelOf(model), f) && AllHold(ModelOf(model), cube)
    case No => UnsatUnder(f, cube)
    case GaveUp => mayGiveUp
  }

  /** The service is right, and gives up only on a time limit or when interrupted. */
  ghost predicate SoundService(f: set<Clause>, service: (nat, seq<Lit>, bool, bool) -> Answer) {
    forall n, cube, limited, interrupted ::
      SoundAnswer(f, cube, service(n, cube, limited, interrupted), limited || interrupted)
  }

  ghost predicate Sound(f: set<Clause>, o: Oracles) {
    && SoundProp(f, o.conf) && SoundService(f, o.service)
    && (forall n, base :: SoundBackdoors(f, base, o.backdoors(n, base)) && o.backdoors(n, base) != [])
  }

  // ---------- Cubes that remain ----------

  /** Every model extends one of the cubes still on the stack. */
  ghost predicate Pending(f: set<Clause>, stack: seq<(seq<Lit>, nat)>) {
    forall m :: Models(m, f) ==> exists i :: 0 <= i < |stack| && AllHold(m, stack[i].0)
  }

  /** The part of the stack below its top. */
  ghost predicate PendingBut(f: set<Clause>, stack: seq<(seq<Lit>, nat)>, base: seq<Lit>) {
    forall m :: Models(m, f) && !AllHold(m, base) ==> exists i :: 0 <= i < |stack| && AllHold(m, stack[i].0)
  }

  lemma Popped(f: set<Clause>, stack: seq<(seq<Lit>, nat)>)
    requires stack != [] && Pending(f, stack)
    ensures PendingBut(f, stack[..|stack| - 1], stack[|stack| - 1].0)
  {
    var rest := stack[..|stack| - 1];
    forall m | Models(m, f) && !AllHold(m, stack[|stack| - 1].0)
      ensures exists i :: 0 <= i < |rest| && AllHold(m, rest[i].0)
    {
      var i :| 0 <= i < |stack| && AllHold(m, stack[i].0);
      assert rest[i] == stack[i];
    }
  }

  lemma NothingPending(f: set<Clause>, stack: seq<(seq<Lit>, nat)>)
    requires Pending(f, stack) && stack == []
    ensures forall m :: !Models(m, f)
  {
  }

  /** The base cube has been refuted. */
  lemma Refuted(f: set<Clause>, stack: seq<(seq<Lit>, nat)>, base: seq<Lit>)
    requires PendingBut(f, stack, base) && UnsatUnder(f, base)
    ensures Pending(f, stack)
  {
  }

  /** Every cube of the base with one of the assumptions has been refuted, or is among the slow ones, which are no
      others. */
  ghost predicate Accounted(f: set<Clause>, base: seq<Lit>, assumptions: seq<seq<Lit>>, slow: seq<seq<Lit>>) {
    && (forall i :: 0 <= i < |assumptions| ==> UnsatUnder(f, base + assumptions[i]) || base + assumptions[i] in slow)
    && (forall c :: c in slow ==> exists i :: 0 <= i < |assumptions| && c == base + assumptions[i])
  }

  lemma AllHoldConcat(m: Model, a: seq<Lit>, b: seq<Lit>)
    requires AllHold(m, a) && AllHold(m, b)
    ensures AllHold(m, a + b)
  {
  }

  /** A model that extends the base extends a slow cube. */
  lemma SlowCubes(f: set<Clause>, base: seq<Lit>, assumptions: seq<seq<Lit>>, slow: seq<seq<Lit>>, m: Model)
    requires Backdoors.Covers(f, assumptions) && Accounted(f, base, assumptions, slow) && Models(m, f)
    requires AllHold(m, base)
    ensures exists j :: 0 <= j < |slow| && AllHold(m, slow[j])
  {
    var i :| 0 <= i < |assumptions| && AllHold(m, assumptions[i]);
    AllHoldConcat(m, base, assumptions[i]);
    assert !UnsatUnder(f, base + assumptions[i]);
    var j :| 0 <= j < |slow| && slow[j] == base + assumptions[i];
  }

  lemma NoSlowCubes(f: set<Clause>, base: seq<Lit>, assumptions: seq<seq<Lit>>)
    requires Backdoors.Covers(f, assumptions) && Accounted(f, base, assumptions, [])
    ensures UnsatUnder(f, base)
  {
    forall m | Models(m, f)
      ensures !AllHold(m, base)
    {
      if AllHold(m, base) {
        SlowCubes(f, base, assumptions, [], m);
        assert false;
      }
    }
  }

  function Deeper(cubes: seq<seq<Lit>>, depth: nat): (r: seq<(seq<Lit>, nat)>)
    ensures |r| == |cubes| && forall i :: 0 <= i < |r| ==> r[i] == (cubes[i], depth)
  {
    seq(|cubes|, i requires 0 <= i < |cubes| => (cubes[i], depth))
  }

  /** Slow cubes in place of the base they come from. */
  lemma Pushed(f: set<Clause>, stack: seq<(seq<Lit>, nat)>, base: seq<Lit>, assumptions: seq<seq<Lit>>,
               slow: seq<seq<Lit>>, depth: nat)
    requires PendingBut(f, stack, base) && Backdoors.Covers(f, assumptions) && Accounted(f, base, assumptions, slow)
    ensures Pending(f, stack + Deeper(slow, depth))
  {
    var stack' := stack + Deeper(slow, depth);
    forall m | Models(m, f)
      ensures exists i :: 0 <= i < |stack'| && AllHold(m, stack'[i].0)
    {
      if AllHold(m, base) {
        SlowCubes(f, base, assumptions, slow, m);
        var j :| 0 <= j < |slow| && AllHold(m, slow[j]);
        assert stack'[|stack| + j] == (slow[j], depth);
      } else {
        var i :| 0 <= i < |stack| && AllHold(m, stack[i].0);
        assert stack'[i] == stack[i];
      }
    }
  }

  // ---------- The order in which cubes are visited ----------

  /** A cube taken off the stack, its depth, the number of the next call of an oracle, and what has been found. */
  datatype Visit = Visit(base: seq<Lit>, depth: nat, call: nat, found: Filtered) {
    function Slow(): seq<seq<Lit>> {
      if found.Slow? then found.cubes else []
    }
  }

  /** The stack after the given visits: each takes the top off and pushes what was slow, one deeper. */
  function StackAfter(visits: seq<Visit>): seq<(seq<Lit>, nat)> {
    if visits == [] then [([], 0)]
    else
      var stack, last := StackAfter(visits[..|visits| - 1]), visits[|visits| - 1];
      (if stack == [] then [] else stack[..|stack| - 1]) + Deeper(last.Slow(), last.depth + 1)
  }

  /** Every cube visited was on top of the stack. */
  ghost predicate InOrder(visits: seq<Visit>) {
    forall k :: 0 <= k < |visits| ==> TopIs(StackAfter(visits[..k]), visits[k].base, visits[k].depth)
  }

  ghost predicate TopIs(stack: seq<(seq<Lit>, nat)>, base: seq<Lit>, depth: nat) {
    stack != [] && stack[|stack| - 1] == (base, depth)
  }

  lemma NextStack(visits: seq<Visit>, v: Visit)
    requires StackAfter(visits) != []
    ensures var stack := StackAfter(visits);
      StackAfter(visits + [v]) == stack[..|stack| - 1] + Deeper(v.Slow(), v.depth + 1)
  {
    hide Deeper;
    var visits' := visits + [v];
    assert visits'[..|visits|] == visits && visits'[|visits|] == v;
  }

  lemma OneMoreVisit(visits: seq<Visit>, v: Visit)
    requires InOrder(visits) && TopIs(StackAfter(visits), v.base, v.depth)
    ensures InOrder(visits + [v])
    ensures var stack := StackAfter(visits);
      StackAfter(visits + [v]) == stack[..|stack| - 1] + Deeper(v.Slow(), v.depth + 1)
  {
    hide StackAfter, TopIs, Deeper;
    var visits' := visits + [v];
    StillTop(StackAfter(visits), v.base, v.depth);
    NextStack(visits, v);
    assert visits'[..|visits|] == visits;
    forall k | 0 <= k < |visits'|
      ensures TopIs(StackAfter(visits'[..k]), visits'[k].base, visits'[k].depth)
    {
      if k < |visits| {
        assert visits'[..k] == visits[..k] && visits'[k] == visits[k];
      }
    }
  }

  lemma StillTop(stack: seq<(seq<Lit>, nat)>, base: seq<Lit>, depth: nat)
    requires TopIs(stack, base, depth)
    ensures stack != []
  {
  }

  // ---------- Termination ----------

  function Power(b: nat, e: nat): nat {
    if e == 0 then 1 else b * Power(b, e - 1)
  }

  /** A cube weighs the more, the further down it may still be split. */
  function Weight(stack: seq<(seq<Lit>, nat)>, b: nat, maxDepth: nat): nat {
    if stack == [] then 0
    else
      var (_, depth) := stack[|stack| - 1];
      Weight(stack[..|stack| - 1], b, maxDepth) + Power(b, if depth <= maxDepth then maxDepth + 1 - depth else 0)
  }

  lemma {:induction false} PowerPositive(b: nat, e: nat)
    requires b > 0
    ensures Power(b, e) > 0
  {
    if e > 0 {
      PowerPositive(b, e - 1);
      TimesStep(b, 0, Power(b, e - 1));
    }
  }

  lemma {:induction false} WeightPushed(stack: seq<(seq<Lit>, nat)>, cubes: seq<seq<Lit>>, depth: nat, b: nat,
                                        maxDepth: nat)
    requires depth <= maxDepth
    ensures Weight(stack + Deeper(cubes, depth), b, maxDepth)
         == Weight(stack, b, maxDepth) + Power(b, maxDepth + 1 - depth) * |cubes|
  {
    if cubes == [] {
      assert stack + Deeper(cubes, depth) == stack;
    } else {
      var front := cubes[..|cubes| - 1];
      WeightPushed(stack, front, depth, b, maxDepth);
      var whole := stack + Deeper(cubes, depth);
      assert whole[..|whole| - 1] == stack + Deeper(front, depth);
      TimesNext(Power(b, maxDepth + 1 - depth), |front|);
    }
  }

  /** Splitting a cube into fewer than b deeper ones makes the stack lighter. */
  lemma Lighter(rest: seq<(seq<Lit>, nat)>, base: seq<Lit>, depth: nat, cubes: seq<seq<Lit>>, b: nat, maxDepth: nat)
    requires |cubes| < b && depth < maxDepth
    ensures Weight(rest + Deeper(cubes, depth + 1), b, maxDepth) < Weight(rest + [(base, depth)], b, maxDepth)
  {
    hide Power;
    var w := Power(b, maxDepth - depth);
    WeightPushed(rest, cubes, depth + 1, b, maxDepth);
    PowerPositive(b, maxDepth - depth);
    TimesStep(w, |cubes|, b);
    PowerNext(b, maxDepth - depth);
    var whole := rest + [(base, depth)];
    assert whole[..|whole| - 1] == rest;
    assert w * b == b * w;
  }

  lemma PowerNext(b: nat, e: nat)
    ensures Power(b, e + 1) == b * Power(b, e)
  {
  }

  lemma LighterPopped(stack: seq<(seq<Lit>, nat)>, b: nat, maxDepth: nat)
    requires stack != [] && b > 0
    ensures Weight(stack[..|stack| - 1], b, maxDepth) < Weight(stack, b, maxDepth)
  {
    var (_, depth) := stack[|stack| - 1];
    PowerPositive(b, if depth <= maxDepth then maxDepth + 1 - depth else 0);
  }

  // ---------- What the service has answered ----------

  ghost predicate HasModel(answers: seq<Answer>) {
    exists i :: 0 <= i < |answers| && answers[i].Yes?
  }

  /** The cubes on which the service has given up, in order. */
  function GivenUp(cubes: seq<seq<Lit>>, answers: seq<Answer>): (r: seq<seq<Lit>>)
    requires |cubes| == |answers|
  {
    if cubes == [] then []
    else
      var n := |cubes| - 1;
      GivenUp(cubes[..n], answers[..n]) + if answers[n].GaveUp? then [cubes[n]] else []
  }

  lemma MoreAnswers(answers: seq<Answer>, i: nat)
    requires i < |answers|
    ensures HasModel(answers[..i + 1]) <==> HasModel(answers[..i]) || answers[i].Yes?
  {
    var before, after := answers[..i], answers[..i + 1];
    assert after[i] == answers[i];
    if HasModel(before) {
      var k :| 0 <= k < i && before[k].Yes?;
      assert after[k].Yes?;
    }
    if HasModel(after) && !answers[i].Yes? {
      var k :| 0 <= k < i && after[k].Yes?;
      assert before[k].Yes?;
    }
  }

  lemma MoreGivenUp(cubes: seq<seq<Lit>>, answers: seq<Answer>, i: nat)
    requires i < |cubes| == |answers|
    ensures GivenUp(cubes[..i + 1], answers[..i + 1])
         == GivenUp(cubes[..i], answers[..i]) + if answers[i].GaveUp? then [cubes[i]] else []
  {
    assert cubes[..i + 1][..i] == cubes[..i] && answers[..i + 1][..i] == answers[..i];
  }

  /** A cube is slow if and only if the service has given it up. */
  lemma {:induction false} SlowExact(cubes: seq<seq<Lit>>, answers: seq<Answer>, c: seq<Lit>)
    requires |cubes| == |answers|
    ensures c in GivenUp(cubes, answers) <==> exists i :: 0 <= i < |cubes| && cubes[i] == c && answers[i].GaveUp?
    ensures |GivenUp(cubes, answers)| <= |cubes|
  {
    if cubes != [] {
      var n := |cubes| - 1;
      SlowExact(cubes[..n], answers[..n], c);
      if i :| 0 <= i < |cubes| && cubes[i] == c && answers[i].GaveUp? {
        assert i < n ==> cubes[..n][i] == c && answers[..n][i].GaveUp?;
      }
      if i :| 0 <= i < n && cubes[..n][i] == c && answers[..n][i].GaveUp? {
        assert cubes[i] == c && answers[i].GaveUp?;
      }
    }
  }

  // ---------- The solvers ----------

  class ReduceSolve {
    const o: Oracles
    const cfg: Config
    var model: set<Var>
    var curBaseAssumption: seq<Lit>
    /** How often the oracles have been asked. */
    var asked: nat
    /** The cubes visited by the recursion. */
    ghost var visits: seq<Visit>
    ghost const f: set<Clause>

    constructor (o: Oracles, cfg: Config, ghost f: set<Clause>)
      requires cfg.seqSplitSamples > 0 && cfg.maxThreads > 0 && Sound(f, o)
      ensures Valid() && this.f == f && this.cfg == cfg
    {
      this.o, this.cfg, this.f := o, cfg, f;
      model, curBaseAssumption, asked, visits := {}, [], 0, [];
    }

    ghost predicate Valid() {
      cfg.seqSplitSamples > 0 && cfg.maxThreads > 0 && Sound(f, o)
    }

    /** The assignments of the search that propagation does not refute. */
    method FilterConflict(search: Search) returns (nonConflict: seq<seq<Lit>>)
      requires Valid() && search.Whole() && search.done == 0 && CoversBy(f, search.kind)
      modifies search
      ensures Backdoors.Covers(f, nonConflict) && |nonConflict| <= Count(search.kind)
      ensures nonConflict == NonConflict(AllCalls(o.conf, [], search.kind, 0, Count(search.kind)))
    {
      hide Sound, CoversBy, Backdoors.Covers, SoundProp, AllCalls, Nth, Count;
      SoundParts();
      var count, calls := PropSearch(search, [], o.conf, (c, a) => true, cfg.seqSplitSamples, cfg.maxThreads);
      nonConflict := CollectNonConflict(calls);
      FilteredCovers(f, o.conf, search.kind);
      NonConflictFew(calls);
    }

    lemma SoundParts()
      requires Valid()
      ensures SoundProp(f, o.conf) && SoundService(f, o.service)
      ensures SoundBackdoors(f, curBaseAssumption, o.backdoors(asked, curBaseAssumption))
              && o.backdoors(asked, curBaseAssumption) != []
    {
    }

    /** Asks the service about one cube. */
    method Ask(cube: seq<Lit>, limited: bool, interrupted: bool) returns (a: Answer)
      requires Valid()
      modifies this`asked
      ensures SoundAnswer(f, cube, a, limited || interrupted)
      ensures a == o.service(old(asked), cube, limited, interrupted) && asked == old(asked) + 1
    {
      a := o.service(asked, cube, limited, interrupted);
      asked := asked + 1;
    }

    /** What the service answers about the cubes, asked in turn from call n on and not interrupted. */
    function Answers(n: nat, cubes: seq<seq<Lit>>, limited: bool): (answers: seq<Answer>)
      ensures |answers| == |cubes|
      ensures forall i :: 0 <= i < |cubes| ==> answers[i] == o.service(n + i, cubes[i], limited, false)
    {
      seq(|cubes|, i requires 0 <= i < |cubes| => o.service(n + i, cubes[i], limited, false))
    }

    /** Solves the given cubes without a time limit. */
    method SolveFinal(assumptions: seq<seq<Lit>>) returns (result: State)
      requires Valid()
      modifies this`model, this`asked
      ensures asked == old(asked) + |assumptions|
      ensures result == SAT <==> HasModel(Answers(old(asked), assumptions, false))
      ensures result == SAT ==> Models(ModelOf(model), f)
      ensures result == UNSAT ==> forall i :: 0 <= i < |assumptions| ==> UnsatUnder(f, assumptions[i])
      ensures result != UNKNOWN
    {
      hide Sound, Models, UnsatUnder, AllHold;
      var unknown, satisfied := false, false;
      ghost var answers := Answers(asked, assumptions, false);
      for i := 0 to |assumptions|
        invariant asked == old(asked) + i && (satisfied <==> HasModel(answers[..i]))
        invariant satisfied ==> Models(ModelOf(model), f)
        invariant !satisfied ==> !unknown && forall j :: 0 <= j < i ==> UnsatUnder(f, assumptions[j])
      {
        var a := Ask(assumptions[i], false, satisfied);
        MoreAnswers(answers, i);
        match a
        case No =>
        case GaveUp => unknown := true;
        case Yes(m) =>
          satisfied := true;
          model := m;
      }
      assert answers[..|assumptions|] == answers;
      if satisfied {
        return SAT;
      } else if !unknown {
        return UNSAT;
      } else {
        return UNKNOWN;
      }
    }

    /** The cubes of the base with each of the assumptions. */
    static function Cubes(base: seq<Lit>, assumptions: seq<seq<Lit>>): (cubes: seq<seq<Lit>>)
      ensures |cubes| == |assumptions| && forall i :: 0 <= i < |cubes| ==> cubes[i] == base + assumptions[i]
    {
      seq(|assumptions|, i requires 0 <= i < |assumptions| => base + assumptions[i])
    }

    /** What is to become of the cubes, asked from call n on: a verdict, or those given up. */
    ghost function Sifted(n: nat, base: seq<Lit>, assumptions: seq<seq<Lit>>, limited: bool): Filtered {
      var cubes := Cubes(base, assumptions);
      var answers := Answers(n, cubes, limited);
      if HasModel(answers) then Verdict(SAT)
      else if GivenUp(cubes, answers) == [] then Verdict(UNKNOWN)
      else Slow(GivenUp(cubes, answers))
    }

    /** Solves the cubes of the base with the given assumptions within the time limit. Every cube is given to the
        service; without a model, those it has given up are returned, in order and no others. */
    method FilterFast(assumptions: seq<seq<Lit>>, limited: bool) returns (r: Filtered)
      requires Valid()
      modifies this`model, this`asked
      ensures asked == old(asked) + |assumptions|
      ensures r == Sifted(old(asked), curBaseAssumption, assumptions, limited)
      ensures match r
        case Verdict(SAT) => Models(ModelOf(model), f)
        case Verdict(UNSAT) => false
        case Verdict(UNKNOWN) => Accounted(f, curBaseAssumption, assumptions, [])
        case Slow(cubes) => limited && |cubes| <= |assumptions| && Accounted(f, curBaseAssumption, assumptions, cubes)
    {
      hide Sound, Models, UnsatUnder, AllHold, Accounted, HasModel, GivenUp;
      FirstAnswers(f, curBaseAssumption);
      var satisfied, failed: seq<seq<Lit>> := false, [];
      ghost var cubes := Cubes(curBaseAssumption, assumptions);
      ghost var answers := Answers(asked, cubes, limited);
      for i := 0 to |assumptions|
        invariant asked == old(asked) + i && (satisfied <==> HasModel(answers[..i]))
        invariant !satisfied ==> failed == GivenUp(cubes[..i], answers[..i])
        invariant satisfied ==> Models(ModelOf(model), f)
        invariant !satisfied ==> |failed| <= i && (failed != [] ==> limited)
        invariant !satisfied ==> Accounted(f, curBaseAssumption, assumptions[..i], failed)
      {
        var cur := curBaseAssumption + assumptions[i];
        var a := Ask(cur, limited, satisfied);
        MoreAnswers(answers, i);
        MoreGivenUp(cubes, answers, i);
        ghost var failed0 := failed;
        match a {
          case No =>
          case GaveUp => failed := failed + [cur];
          case Yes(m) =>
            satisfied := true;
            model := m;
        }
        if !satisfied {
          AccountOne(f, curBaseAssumption, assumptions, i, failed0, failed);
        }
      }
      assert assumptions[..|assumptions|] == assumptions;
      assert cubes[..|cubes|] == cubes && answers[..|answers|] == answers;
      if satisfied {
        return Verdict(SAT);
      } else if failed == [] {
        return Verdict(UNKNOWN);
      } else {
        return Slow(failed);
      }
    }

    static lemma FirstAnswers(f: set<Clause>, base: seq<Lit>)
      ensures Accounted(f, base, [], []) && !HasModel([]) && GivenUp([], []) == []
    {
    }

    static lemma AccountOne(f: set<Clause>, base: seq<Lit>, assumptions: seq<seq<Lit>>, i: nat, failed: seq<seq<Lit>>,
                            failed': seq<seq<Lit>>)
      requires i < |assumptions| && Accounted(f, base, assumptions[..i], failed)
      requires failed' == failed || failed' == failed + [base + assumptions[i]]
      requires UnsatUnder(f, base + assumptions[i]) || base + assumptions[i] in failed'
      ensures Accounted(f, base, assumptions[..i + 1], failed')
    {
      var before, after := assumptions[..i], assumptions[..i + 1];
      forall j | 0 <= j < |after|
        ensures UnsatUnder(f, base + after[j]) || base + after[j] in failed'
      {
        if j < i {
          assert after[j] == before[j];
        }
      }
      forall c | c in failed'
        ensures exists j :: 0 <= j < |after| && c == base + after[j]
      {
        if c in failed {
          var j :| 0 <= j < |before| && c == base + before[j];
          assert after[j] == before[j];
        } else {
          assert after[i] == assumptions[i];
        }
      }
    }

    /** One of the backdoors found at call n is a strong one, or propagation refutes all its assignments. */
    ghost predicate Exhausted(n: nat, base: seq<Lit>) {
      Enumerable(o.backdoors(n, base)) && !AllLeave(base, o.backdoors(n, base), o.conf)
    }

    /** The search goes through what the backdoors found at call n leave. */
    ghost predicate Splits(n: nat, base: seq<Lit>, kind: Kind) {
      ReducedTo(base, o.backdoors(n, base), o.conf, cfg.maxUnpropagated, cfg.maxCartesianSize, kind)
    }

    /** The cubes are what propagation leaves of that search. */
    ghost predicate SplitInto(n: nat, base: seq<Lit>, cubes: seq<seq<Lit>>) {
      exists kind :: WellFormed(kind) && Splits(n, base, kind)
                     && cubes == NonConflict(AllCalls(o.conf, [], kind, 0, Count(kind)))
    }

    method FindNext() returns (r: Reduction)
      requires Valid()
      modifies this`asked
      ensures r.SbsFound? ==> UnsatUnder(f, curBaseAssumption)
      ensures asked == old(asked) + 1
      ensures r.SbsFound? <==> Exhausted(old(asked), curBaseAssumption)
      ensures r.Reduced? ==> Splits(old(asked), curBaseAssumption, r.search.kind)
      ensures r.Reduced? ==> fresh(r.search) && r.search.Whole() && r.search.done == 0 && CoversBy(f, r.search.kind)
                             && Count(r.search.kind) <= cfg.maxCartesianSize + Pow2(64)
    {
      hide Sound, SoundProp, CoversBy, Count, Pow2, ReducedTo, AllLeave;
      SoundParts();
      r := FindRb(f, curBaseAssumption, o.backdoors(asked, curBaseAssumption), o.conf, cfg.seqSplitSamples,
                  cfg.maxThreads, cfg.maxUnpropagated, cfg.maxCartesianSize);
      asked := asked + 1;
    }

    /** Reduces once and solves what is left: right whatever the reduction was. */
    method SolveOnce() returns (result: State, ghost parts: seq<seq<Lit>>)
      requires Valid() && curBaseAssumption == []
      modifies this`model, this`asked
      ensures result == SAT ==> Models(ModelOf(model), f)
      ensures result == UNSAT ==> forall m :: !Models(m, f)
      ensures result != UNKNOWN
      ensures if Exhausted(old(asked), []) then result == UNSAT
              else SplitInto(old(asked), [], parts)
                   && (result == SAT <==> HasModel(Answers(old(asked) + 1, parts, false)))
    {
      hide Sound, SoundProp, SoundBackdoors, CoversBy, Backdoors.Covers, Count, Pow2, Models, AllCalls, NonConflict,
          WellFormed, Exhausted, Splits, Answers, HasModel;
      parts := [];
      var found := FindNext();
      match found
      case SbsFound =>
        BaseRefuted(f, curBaseAssumption);
        return UNSAT, parts;
      case Reduced(search) =>
        var cubes := FilterConflict(search);
        parts := cubes;
        result := SolveFinal(cubes);
        if result == UNSAT {
          AllRefuted(f, cubes);
        }
    }

    static lemma BaseRefuted(f: set<Clause>, base: seq<Lit>)
      requires UnsatUnder(f, base) && base == []
      ensures forall m :: !Models(m, f)
    {
    }

    static lemma AllRefuted(f: set<Clause>, cubes: seq<seq<Lit>>)
      requires Backdoors.Covers(f, cubes) && forall i :: 0 <= i < |cubes| ==> UnsatUnder(f, cubes[i])
      ensures forall m :: !Models(m, f)
    {
    }

    /** What has been found is what the backdoors, or the service about the parts they leave, say. */
    ghost predicate Faithful(v: Visit) {
      if Exhausted(v.call, v.base) then
        v.found == Verdict(if v.base == [] then UNSAT else UNKNOWN)
      else
        exists cubes :: SplitInto(v.call, v.base, cubes)
                        && v.found == Sifted(v.call + 1, v.base, cubes, v.depth < cfg.maxRecursionDepth)
    }

    ghost predicate AllFaithful(visits: seq<Visit>) {
      forall k :: 0 <= k < |visits| ==> Faithful(visits[k])
    }

    /** One round: the base cube is reduced and its parts are solved, with a time limit unless the depth is the greatest
        allowed. */
    method Round(depth: nat) returns (r: Filtered, ghost assumptions: seq<seq<Lit>>)
      requires Valid()
      modifies this`model, this`asked, this`visits
      ensures visits == old(visits) + [Visit(curBaseAssumption, depth, old(asked), r)]
      ensures Faithful(visits[|visits| - 1])
      ensures match r
        case Verdict(SAT) => Models(ModelOf(model), f)
        case Verdict(UNSAT) => curBaseAssumption == [] && forall m :: !Models(m, f)
        case Verdict(UNKNOWN) => UnsatUnder(f, curBaseAssumption)
        case Slow(cubes) => depth < cfg.maxRecursionDepth && |cubes| <= cfg.maxCartesianSize + Pow2(64)
                            && Backdoors.Covers(f, assumptions) && Accounted(f, curBaseAssumption, assumptions, cubes)
    {
      hide Sound, CoversBy, Backdoors.Covers, Count, Pow2, Models, Accounted, UnsatUnder, AllCalls, NonConflict,
          WellFormed, Exhausted, Splits, Sifted;
      assumptions := [];
      var found := FindNext();
      match found {
        case SbsFound =>
          if |curBaseAssumption| == 0 {
            BaseRefuted(f, curBaseAssumption);
            r := Verdict(UNSAT);
          } else {
            r := Verdict(UNKNOWN);
          }
        case Reduced(search) =>
          var cubes := FilterConflict(search);
          assumptions := cubes;
          r := FilterFast(cubes, depth < cfg.maxRecursionDepth);
          if r == Verdict(UNKNOWN) {
            NoSlowCubes(f, curBaseAssumption, cubes);
          }
      }
      ghost var v := Visit(curBaseAssumption, depth, old(asked), r);
      assert found.Reduced? ==> SplitInto(v.call, v.base, assumptions)
                                && v.found == Sifted(v.call + 1, v.base, assumptions, depth < cfg.maxRecursionDepth);
      visits := visits + [v];
    }

    /** The recursion on slow cubes, with a stack: right when it answers, and it always does. The cube visited next is
        always the one on top; the formula is refuted when none is left, or by the backdoors alone. */
    method SolveRecurring() returns (result: State)
      requires Valid()
      modifies this
      ensures result == SAT ==> Models(ModelOf(model), f)
      ensures result == UNSAT ==> forall m :: !Models(m, f)
      ensures result != UNKNOWN
      ensures visits != [] && InOrder(visits)
      ensures AllFaithful(visits)
      ensures result == UNSAT ==> StackAfter(visits) == [] || visits[|visits| - 1].found == Verdict(UNSAT)
      ensures result == SAT ==> visits[|visits| - 1].found == Verdict(SAT)
    {
      hide Sound, Models, Pending, PendingBut, Backdoors.Covers, Accounted, UnsatUnder, Weight, Pow2, InOrder,
          StackAfter, Faithful;
      ghost var b, maxDepth := cfg.maxCartesianSize + Pow2(64) + 1, cfg.maxRecursionDepth;
      var stack: seq<(seq<Lit>, nat)> := [([], 0)];
      visits := [];
      NoVisits();
      EmptyCube(f);
      while stack != []
        invariant Pending(f, stack) && forall i :: 0 <= i < |stack| ==> stack[i].1 <= maxDepth
        invariant AllFaithful(visits)
        invariant InOrder(visits) && stack == StackAfter(visits) && (visits == [] ==> stack != [])
        decreases Weight(stack, b, maxDepth)
      {
        var (base, depth) := stack[|stack| - 1];
        ghost var before, earlier := stack, visits;
        Popped(f, stack);
        LighterPopped(stack, b, maxDepth);
        curBaseAssumption := base;
        stack := stack[..|stack| - 1];
        assert before == stack + [(base, depth)];
        var r, assumptions := Round(depth);
        OneMoreVisit(earlier, visits[|visits| - 1]);
        match r
        case Verdict(state) =>
          assert Deeper([], depth + 1) == [];
          if state != UNKNOWN {
            return state;
          }
          Refuted(f, stack, base);
        case Slow(cubes) =>
          Pushed(f, stack, base, assumptions, cubes, depth + 1);
          Lighter(stack, base, depth, cubes, b, maxDepth);
          stack := PushAll(stack, cubes, depth + 1);
      }
      NothingPending(f, stack);
      return UNSAT;
    }

    static lemma NoVisits()
      ensures InOrder([]) && StackAfter([]) == [([], 0)]
    {
    }

    static lemma EmptyCube(f: set<Clause>)
      ensures Pending(f, [([], 0)])
    {
      var stack: seq<(seq<Lit>, nat)> := [([], 0)];
      forall m | Models(m, f)
        ensures exists i :: 0 <= i < |stack| && AllHold(m, stack[i].0)
      {
        assert AllHold(m, stack[0].0);
      }
    }

    static method PushAll(stack0: seq<(seq<Lit>, nat)>, cubes: seq<seq<Lit>>, depth: nat)
      returns (stack: seq<(seq<Lit>, nat)>)
      ensures stack == stack0 + Deeper(cubes, depth)
    {
      stack := stack0;
      for i := 0 to |cubes|
        invariant stack == stack0 + Deeper(cubes, depth)[..i]
      {
        assert Deeper(cubes, depth)[..i + 1] == Deeper(cubes, depth)[..i] + [(cubes[i], depth)];
        stack := stack + [(cubes[i], depth)];
      }
    }
  }
}
