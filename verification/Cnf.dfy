/** Literals, clauses and their meaning over total assignments. */
module Cnf {

  type Var = nat

  /** The source packs a literal into the integer 2 * v + neg; ToInt is that integer. */
  datatype Lit = Lit(v: Var, neg: bool) {
    function ToInt(): nat {
      2 * v + (if neg then 1 else 0)
    }
  }

  type Clause = seq<Lit>

  /** A total assignment, given by the variables it makes true. */
  type Model = iset<Var>

  function Neg(l: Lit): Lit {
    Lit(l.v, !l.neg)
  }

  ghost predicate Holds(m: Model, l: Lit) {
    (l.v in m) != l.neg
  }

  ghost predicate Satisfies(m: Model, c: Clause) {
    exists l :: l in c && Holds(m, l)
  }

  ghost predicate Models(m: Model, f: set<Clause>) {
    forall c :: c in f ==> Satisfies(m, c)
  }

  ghost predicate Entails(f: set<Clause>, c: Clause) {
    forall m :: Models(m, f) ==> Satisfies(m, c)
  }

  ghost predicate AllHold(m: Model, ls: seq<Lit>) {
    forall l :: l in ls ==> Holds(m, l)
  }

  /** No total assignment meets both the formula and the assumptions. */
  ghost predicate UnsatUnder(f: set<Clause>, assumptions: seq<Lit>) {
    forall m :: Models(m, f) ==> !AllHold(m, assumptions)
  }

  /** No variable occurs twice, so no literal does and the clause is no tautology. */
  ghost predicate Distinct(c: Clause) {
    forall i, j :: 0 <= i < j < |c| ==> c[i].v != c[j].v
  }

  /** The literals of c are those of d, in some order. */
  ghost predicate SameLits(c: Clause, d: Clause) {
    && |c| == |d|
    && (forall l :: l in c <==> l in d)
  }

  function Swap(c: Clause, i: nat, j: nat): (d: Clause)
    requires i < |c| && j < |c|
    ensures |d| == |c| && d[i] == c[j] && d[j] == c[i]
    ensures forall k :: 0 <= k < |c| && k != i && k != j ==> d[k] == c[k]
  {
    c[i := c[j]][j := c[i]]
  }

  lemma SwapLits(c: Clause, i: nat, j: nat)
    requires i < |c| && j < |c|
    ensures SameLits(Swap(c, i, j), c)
    ensures Distinct(c) ==> Distinct(Swap(c, i, j))
  {
    var d := Swap(c, i, j);
    forall l
      ensures l in c <==> l in d
    {
      if l in c {
        var k :| 0 <= k < |c| && c[k] == l;
        assert d[if k == i then j else if k == j then i else k] == l;
      }
      if l in d {
        var k :| 0 <= k < |d| && d[k] == l;
        assert c[if k == i then j else if k == j then i else k] == l;
      }
    }
  }

  // ---------- Compacting a clause in place ----------

  /** The first i literals of c0 have been visited; those kept are the first j of c. */
  ghost predicate Compacting(c: Clause, c0: Clause, i: nat, j: nat, kept: Clause) {
    && |c| == |c0| && j <= i <= |c| && c[..j] == kept
    && (forall n :: i <= n < |c| ==> c[n] == c0[n])
  }

  lemma CompactStart(c0: Clause, i: nat)
    requires i <= |c0|
    ensures Compacting(c0, c0, i, i, c0[..i])
  {
  }

  lemma CompactNext(c: Clause, c0: Clause, i: nat, j: nat, kept: Clause)
    requires Compacting(c, c0, i, j, kept) && i < |c|
    ensures |c| == |c0| && |kept| == j <= i && c[i] == c0[i] && c0[..i + 1] == c0[..i] + [c[i]]
    ensures Compacting(c[j := c[i]], c0, i + 1, j + 1, kept + [c[i]])
    ensures Compacting(c, c0, i + 1, j, kept)
    ensures c[j := c[i]][..j + 1] == kept + [c[i]]
  {
  }

  lemma CompactEnd(c: Clause, c0: Clause, i: nat, j: nat, kept: Clause)
    requires Compacting(c, c0, i, j, kept)
    ensures j <= |c| == |c0| && i <= |c| && c[..j] == kept && (i == |c| ==> c0[..i] == c0)
  {
  }
}
