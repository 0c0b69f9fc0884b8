/** Subsumption between stored clauses, with its signature filter. */
module Subsuming {
  import opened Cnf

  /** lit_Error, lit_Undef, or a literal. */
  datatype Verdict = Unrelated | Subsumed | Strengthens(p: Lit)

  // ---------- Signatures ----------

  function Bit(v: Var): bv32 {
    1 << (v % 32)
  }

  function Or(a: bv32, b: bv32): bv32 {
    a | b
  }

  /** One bit per variable, modulo 32. */
  function Signature(c: Clause): bv32 {
    if c == [] then 0 else Or(Signature(c[..|c| - 1]), Bit(c[|c| - 1].v))
  }

  ghost predicate VarsWithin(c: Clause, d: Clause) {
    forall i :: 0 <= i < |c| ==> exists j :: 0 <= j < |d| && d[j].v == c[i].v
  }

  /** Every bit of a is one of s. */
  ghost predicate BitsWithin(a: bv32, s: bv32) {
    a & !s == 0
  }

  lemma WithinMore(a: bv32, s: bv32, b: bv32)
    requires BitsWithin(a, s)
    ensures BitsWithin(a, Or(s, b))
  {
  }

  lemma WithinOr(s: bv32, b: bv32)
    ensures BitsWithin(b, Or(s, b))
  {
  }

  lemma WithinJoined(a: bv32, b: bv32, s: bv32)
    requires BitsWithin(a, s) && BitsWithin(b, s)
    ensures BitsWithin(Or(a, b), s)
  {
  }

  lemma {:induction false} BitCovered(d: Clause, j: nat)
    requires j < |d|
    ensures BitsWithin(Bit(d[j].v), Signature(d))
  {
    hide Bit, Signature, BitsWithin, Or;
    var front, b := Signature(d[..|d| - 1]), Bit(d[|d| - 1].v);
    SignatureLast(d);
    if j < |d| - 1 {
      BitCovered(d[..|d| - 1], j);
      WithinMore(Bit(d[j].v), front, b);
    } else {
      WithinOr(front, b);
    }
  }

  lemma NoBits(s: bv32)
    ensures BitsWithin(0, s)
  {
  }

  /** The filter never rejects a clause whose variables all occur in the other. */
  lemma {:induction false} SignatureCovered(c: Clause, d: Clause)
    requires VarsWithin(c, d)
    ensures BitsWithin(Signature(c), Signature(d))
  {
    hide Bit, Signature, BitsWithin, Or;
    SignatureLast(c);
    if c == [] {
      NoBits(Signature(d));
    } else {
      var last := c[|c| - 1];
      FrontWithin(c, d);
      SignatureCovered(c[..|c| - 1], d);
      var j :| 0 <= j < |d| && d[j].v == last.v;
      BitCovered(d, j);
      WithinJoined(Signature(c[..|c| - 1]), Bit(last.v), Signature(d));
    }
  }

  lemma FrontWithin(c: Clause, d: Clause)
    requires VarsWithin(c, d) && c != []
    ensures VarsWithin(c[..|c| - 1], d)
    ensures exists j :: 0 <= j < |d| && d[j].v == c[|c| - 1].v
  {
    var front, last := c[..|c| - 1], c[|c| - 1];
    forall i | 0 <= i < |front|
      ensures exists j :: 0 <= j < |d| && d[j].v == front[i].v
    {
      assert front[i] == c[i];
    }
  }

  lemma SignatureLast(c: Clause)
    ensures Signature(c) == if c == [] then 0 else Or(Signature(c[..|c| - 1]), Bit(c[|c| - 1].v))
  {
  }

  lemma SignatureNext(c: Clause, i: nat)
    requires i < |c|
    ensures Signature(c[..i + 1]) == Or(Signature(c[..i]), Bit(c[i].v))
  {
    hide Bit, Signature;
    var d := c[..i + 1];
    SignatureLast(d);
    assert d[..i] == c[..i];
  }

  // ---------- Subsumption ----------

  ghost function VarSet(c: Clause): set<Var> {
    set l | l in c :: l.v
  }

  lemma {:induction false} VarCount(c: Clause)
    requires Distinct(c)
    ensures |VarSet(c)| == |c|
  {
    if c != [] {
      var front := c[..|c| - 1];
      VarCount(front);
      assert c == front + [c[|c| - 1]];
      assert VarSet(c) == VarSet(front) + {c[|c| - 1].v};
    }
  }

  /** A clause that is at least as large as another in variables is at least as long. */
  lemma SizeCovered(c: Clause, d: Clause)
    requires VarsWithin(c, d) && Distinct(c) && Distinct(d)
    ensures |c| <= |d|
  {
    VarCount(c);
    VarCount(d);
    forall v | v in VarSet(c)
      ensures v in VarSet(d)
    {
      var l :| l in c && l.v == v;
      var i :| 0 <= i < |c| && c[i] == l;
      var j :| 0 <= j < |d| && d[j].v == c[i].v;
      assert d[j] in d;
    }
    SmallerSet(VarSet(c), VarSet(d));
  }

  lemma SmallerSet(a: set<Var>, b: set<Var>)
    requires a <= b
    ensures |a| <= |b|
  {
    assert b == a + (b - a);
  }

  /** What the loop over c has established after its first n literals: all of them occur in d, but for one, whose
      negation does. */
  ghost predicate Matches(c: Clause, d: Clause, n: nat, r: Verdict) {
    match r
    case Unrelated => false
    case Subsumed => forall i :: 0 <= i < n && i < |c| ==> c[i] in d
    case Strengthens(p) => p in c && Neg(p) in d && forall i :: 0 <= i < n && i < |c| ==> c[i] in d || c[i] == p
  }

  /** With no repeated variables, at most one of the three verdicts fits: the clause is part of the other, or all of
      it but one literal whose negation is there, or neither. */
  ghost predicate Fits(c: Clause, d: Clause, r: Verdict) {
    match r
    case Subsumed => forall l :: l in c ==> l in d
    case Strengthens(p) => p in c && Neg(p) in d && forall l :: l in c && l != p ==> l in d
    case Unrelated =>
      && (exists l :: l in c && l !in d)
      && (forall p :: p in c && Neg(p) in d ==> exists l :: l in c && l != p && l !in d)
  }

  lemma FitsOnce(c: Clause, d: Clause, r: Verdict, r': Verdict)
    requires Distinct(c) && Distinct(d) && Fits(c, d, r) && Fits(c, d, r')
    ensures r == r'
  {
    forall p | p in d
      ensures Neg(p) !in d
    {
      assert Neg(Neg(p)) == p;
      OneSign(d, Neg(p));
    }
  }

  lemma OneSign(d: Clause, p: Lit)
    requires Distinct(d) && Neg(p) in d
    ensures p !in d
  {
    var j :| 0 <= j < |d| && d[j] == Neg(p);
  }

  /** A clause that is part of another entails it. */
  lemma SubsumedEntails(f: set<Clause>, c: Clause, d: Clause)
    requires Fits(c, d, Subsumed) && Entails(f, c)
    ensures Entails(f, d)
  {
    forall m | Models(m, f)
      ensures Satisfies(m, d)
    {
      var l :| l in c && Holds(m, l);
    }
  }

  function Without(d: Clause, q: Lit): Clause {
    if d == [] then [] else if d[0] == q then d[1..] else [d[0]] + Without(d[1..], q)
  }

  /** Subsumption resolution: the two clauses entail the other one without ~p. */
  lemma StrengthenedEntails(f: set<Clause>, c: Clause, d: Clause, p: Lit)
    requires Fits(c, d, Strengthens(p)) && Distinct(c) && Distinct(d) && Entails(f, c) && Entails(f, d)
    ensures Entails(f, Without(d, Neg(p))) && Neg(p) !in Without(d, Neg(p))
  {
    WithoutExact(d, Neg(p));
    forall m | Models(m, f)
      ensures Satisfies(m, Without(d, Neg(p)))
    {
      var l :| l in c && Holds(m, l);
      var k :| k in d && Holds(m, k);
      var i :| 0 <= i < |c| && c[i] == l;
      var n :| 0 <= n < |c| && c[n] == p;
      if l != p {
        assert l != Neg(p);
        assert l in Without(d, Neg(p));
      } else {
        assert k != Neg(p);
        assert k in Without(d, Neg(p));
      }
    }
  }

  lemma {:induction false} WithoutExact(d: Clause, q: Lit)
    requires Distinct(d)
    ensures forall l :: l in Without(d, q) <==> l in d && l != q
    ensures Distinct(Without(d, q))
  {
    if d != [] {
      assert d == [d[0]] + d[1..];
      WithoutExact(d[1..], q);
      if d[0] == q {
        assert q !in d[1..];
      } else {
        forall k | 0 <= k < |Without(d[1..], q)|
          ensures Without(d[1..], q)[k].v != d[0].v
        {
          assert Without(d[1..], q)[k] in d[1..];
        }
      }
    }
  }

  lemma {:induction false} WithoutAt(d: Clause, q: Lit, j: nat)
    requires j < |d| && d[j] == q && q !in d[..j]
    ensures Without(d, q) == d[..j] + d[j + 1..]
  {
    if j > 0 {
      assert d[..j][0] == d[0] && d[1..][..j - 1] == d[..j][1..];
      WithoutAt(d[1..], q, j - 1);
      assert d[..j] == [d[0]] + d[1..][..j - 1];
    }
  }

  /** A stored problem clause, with its signature in the extra field. */
  class StoredClause {
    var data: Clause
    var abs: bv32

    constructor (ps: Clause)
      ensures data == ps && Current()
    {
      data := ps;
      abs := 0;
      new;
      CalcAbstraction();
    }

    predicate Current()
      reads this
    {
      abs == Signature(data)
    }

    method CalcAbstraction()
      modifies this`abs
      ensures Current()
    {
      hide Bit, Signature;
      abs := 0;
      var i := 0;
      SignatureLast([]);
      while i < |data|
        invariant 0 <= i <= |data| && abs == Signature(data[..i])
      {
        SignatureNext(data, i);
        abs := abs | Bit(data[i].v);
        i := i + 1;
      }
      assert data[..i] == data;
    }

    /** Drops the last n literals; the signature field moves along and may be out of date. */
    method Shrink(n: nat)
      requires n <= |data|
      modifies this`data
      ensures data == old(data)[..|old(data)| - n] && abs == old(abs)
    {
      data := data[..|data| - n];
    }

    /** Looks for c[i] or its negation in d; the negation only if none has been used so far. */
    static method FindMatch(l: Lit, d: Clause, ret: Verdict) returns (found: bool, r: Verdict)
      requires !ret.Unrelated?
      ensures found && r == ret ==> l in d
      ensures found && r != ret ==> ret == Subsumed && r == Strengthens(l) && Neg(l) in d
      ensures !found ==> r == ret && l !in d && (ret == Subsumed ==> Neg(l) !in d)
    {
      r, found := ret, true;
      var j := 0;
      while j < |d|
        invariant 0 <= j <= |d| && r == ret
        invariant l !in d[..j] && (ret == Subsumed ==> Neg(l) !in d[..j])
      {
        if l == d[j] {
          return;
        } else if r == Subsumed && l == Neg(d[j]) {
          assert Neg(Neg(d[j])) == d[j];
          r := Strengthens(l);
          return;
        }
        assert d[..j + 1] == d[..j] + [d[j]] && Neg(Neg(l)) == l;
        j := j + 1;
      }
      assert d[..j] == d;
      found := false;
    }

    /** The loops of subsumes, without the filter in front of them. */
    static method Compare(c: Clause, d: Clause) returns (ret: Verdict)
      requires Distinct(c) && Distinct(d)
      ensures Fits(c, d, ret)
    {
      ret := Subsumed;
      var i := 0;
      while i < |c|
        invariant 0 <= i <= |c| && Matches(c, d, i, ret)
        invariant ret.Strengthens? ==> ret.p in c[..i]
      {
        var found, r := FindMatch(c[i], d, ret);
        if !found {
          NoMatch(c, d, i, ret);
          return Unrelated;
        }
        assert c[..i + 1] == c[..i] + [c[i]];
        ret := r;
        i := i + 1;
      }
      forall l | l in c
        ensures ret == Subsumed ==> l in d
        ensures ret.Strengthens? && l != ret.p ==> l in d
      {
        var k :| 0 <= k < |c| && c[k] == l;
      }
    }

    static lemma NoMatch(c: Clause, d: Clause, i: nat, ret: Verdict)
      requires Distinct(c) && Distinct(d) && i < |c| && Matches(c, d, i, ret)
      requires ret.Strengthens? ==> ret.p in c[..i]
      requires c[i] !in d && (ret == Subsumed ==> Neg(c[i]) !in d)
      ensures Fits(c, d, Unrelated)
    {
      assert c[i] in c;
      forall p | p in c && Neg(p) in d
        ensures exists l :: l in c && l != p && l !in d
      {
        if ret.Strengthens? {
          assert Neg(ret.p) in d;
          OneSign(d, ret.p);
          var k :| 0 <= k < i && c[k] == ret.p;
          if p != c[i] {
            assert c[i] in c && c[i] != p && c[i] !in d;
          } else {
            assert ret.p in c && ret.p != p && ret.p !in d;
          }
        } else {
          assert c[i] in c && c[i] != p && c[i] !in d;
        }
      }
    }

    /** Whether this clause subsumes the other, or can shorten it by resolution. The size and the signatures reject
        only pairs that the loops would reject. */
    method Subsumes(other: StoredClause) returns (ret: Verdict)
      requires Current() && other.Current() && Distinct(data) && Distinct(other.data)
      ensures Fits(data, other.data, ret)
    {
      if |other.data| < |data| || abs & !other.abs != 0 {
        FilterSound(data, other.data);
        return Unrelated;
      }
      ret := Compare(data, other.data);
    }

    /** Removes the first occurrence of a literal, in place. */
    static method Remove(d: Clause, p: Lit) returns (c: Clause)
      requires p in d
      ensures c == Without(d, p)
    {
      var j := 0;
      while d[j] != p
        invariant 0 <= j < |d| && p !in d[..j] && p in d[j..]
        decreases |d| - j
      {
        assert d[..j + 1] == d[..j] + [d[j]] && d[j..] == [d[j]] + d[j + 1..];
        j := j + 1;
      }
      ghost var j0 := j;
      WithoutAt(d, p, j0);
      c := d;
      while j < |c| - 1
        invariant j0 <= j < |c| == |d|
        invariant c[..j] == d[..j0] + d[j0 + 1..j + 1] && c[j..] == d[j..]
      {
        ghost var before := c;
        c := c[j := c[j + 1]];
        assert c[..j + 1] == before[..j] + [before[j + 1]] && before[j + 1] == before[j..][1] == d[j + 1];
        assert d[j0 + 1..j + 2] == d[j0 + 1..j + 1] + [d[j + 1]];
        assert c[j + 1..] == before[j..][1..];
        j := j + 1;
      }
      assert d[j0 + 1..j + 1] == d[j0 + 1..];
      c := c[..|c| - 1];
    }

    /** Removes a literal and recomputes the signature. */
    method Strengthen(p: Lit)
      requires p in data
      modifies this
      ensures data == Without(old(data), p) && Current()
    {
      data := Remove(data, p);
      CalcAbstraction();
    }
  }

  /** A pair that the filter rejects does not fit any other verdict. */
  lemma FilterSound(c: Clause, d: Clause)
    requires Distinct(c) && Distinct(d)
    requires |d| < |c| || Signature(c) & !Signature(d) != 0
    ensures Fits(c, d, Unrelated)
  {
    assert !VarsWithin(c, d) by {
      if VarsWithin(c, d) {
        SizeCovered(c, d);
        SignatureCovered(c, d);
      }
    }
    var i :| 0 <= i < |c| && forall j :: 0 <= j < |d| ==> d[j].v != c[i].v;
    var l := c[i];
    assert l in c && l !in d && Neg(l) !in d;
  }
}
