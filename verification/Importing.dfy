/** Learnt clauses exchanged between solvers of the same formula. */
module Importing {
  import opened Cnf
  import opened Trails
  import opened Analysis
  import opened Kernel
  import opened Simplifying

  /** What a solver of f over n variables may take over from another one. */
  ghost predicate Importable(f: set<Clause>, n: nat, c: Clause) {
    Distinct(c) && Entails(f, c) && forall l :: l in c ==> l.v < n
  }

  ghost predicate AllImportable(f: set<Clause>, n: nat, cs: set<Clause>) {
    forall c :: c in cs ==> Importable(f, n, c)
  }

  /** What other solvers hand over in the course of a call, in the two queues of the receiver. */
  datatype Pool = Pool(units: set<Lit>, clauses: set<Clause>) {
    ghost predicate Sound(f: set<Clause>, n: nat) {
      (forall l :: l in units ==> Importable(f, n, [l])) && AllImportable(f, n, clauses)
    }
  }

  /** addLearnedClause for each of the clauses: units have a queue of their own. */
  function Received(cs: set<Clause>): Pool {
    Pool(set c | c in cs && |c| == 1 :: c[0], set c | c in cs && |c| != 1)
  }

  /** What a solver learns, any other solver of the formula may import. */
  lemma LearntImportable(t: Trail, f: set<Clause>, out: Clause, level: nat, btLevel: nat)
    requires Learnt(t, f, out, level, btLevel) && Consistent(t)
    ensures Importable(f, |t.vardata|, out)
  {
    hide Entails;
    forall l | l in out
      ensures l.v < |t.vardata|
    {
      assert t.False(l);
      FalseIsBefore(t, l);
    }
  }

  /** The clauses one solver exports make a sound pool for another. */
  lemma ReceivedSound(f: set<Clause>, n: nat, cs: set<Clause>)
    requires AllImportable(f, n, cs)
    ensures Received(cs).Sound(f, n)
  {
    hide Importable;
    forall l | l in Received(cs).units
      ensures Importable(f, n, [l])
    {
      var c :| c in cs && |c| == 1 && c[0] == l;
      assert c == [l];
    }
  }

  /** At level 0 a clause that follows from the formula and is false refutes it. */
  lemma FalseImported(s: State, c: Clause)
    requires Base(s) && s.t.lim == [] && Entails(s.f, c) && forall l :: l in c ==> s.t.False(l)
    ensures forall m :: !Models(m, s.f)
  {
    hide Base;
    FalseLeft(s, c, []);
    forall m
      ensures !Models(m, s.f)
    {
      assert !Satisfies(m, []);
    }
  }
}
