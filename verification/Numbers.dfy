/** Binary and mixed-radix digits. */
module Numbers {

  function Pow2(n: nat): (r: nat)
    ensures r > 0
  {
    if n == 0 then 1 else 2 * Pow2(n - 1)
  }

  /** Bit i of v. */
  function Bit(v: nat, i: nat): bool {
    if i == 0 then v % 2 == 1 else Bit(v / 2, i - 1)
  }

  function Bits(v: nat, n: nat): (r: seq<bool>)
    ensures |r| == n
  {
    if n == 0 then [] else [v % 2 == 1] + Bits(v / 2, n - 1)
  }

  lemma {:induction false} BitsAt(v: nat, n: nat, i: nat)
    requires i < n
    ensures Bits(v, n)[i] == Bit(v, i)
  {
    if i > 0 {
      BitsAt(v / 2, n - 1, i - 1);
    }
  }

  /** The number with the given bits, lowest first. */
  function Number(bits: seq<bool>): nat {
    if bits == [] then 0 else (if bits[0] then 1 else 0) + 2 * Number(bits[1..])
  }

  /** Below 2^n, numbers and their bits correspond one to one. */
  lemma {:induction false} BitsNumber(bits: seq<bool>)
    ensures Number(bits) < Pow2(|bits|) && Bits(Number(bits), |bits|) == bits
  {
    if bits != [] {
      BitsNumber(bits[1..]);
      assert Number(bits) / 2 == Number(bits[1..]);
    }
  }

  lemma {:induction false} NumberBits(v: nat, n: nat)
    requires v < Pow2(n)
    ensures Number(Bits(v, n)) == v
  {
    if n > 0 {
      NumberBits(v / 2, n - 1);
      assert Bits(v, n)[1..] == Bits(v / 2, n - 1);
    }
  }

  /** Binary increment: leading ones become zeros, the first zero a one. */
  function Incremented(bits: seq<bool>): (r: seq<bool>)
    ensures |r| == |bits|
  {
    if bits == [] then [] else if bits[0] then [false] + Incremented(bits[1..]) else [true] + bits[1..]
  }

  lemma {:induction false} IncrementAdds(v: nat, n: nat)
    ensures Incremented(Bits(v, n)) == Bits(v + 1, n)
  {
    if n > 0 {
      assert Bits(v, n)[1..] == Bits(v / 2, n - 1);
      if v % 2 == 1 {
        IncrementAdds(v / 2, n - 1);
        assert (v + 1) / 2 == v / 2 + 1;
      } else {
        assert (v + 1) / 2 == v / 2;
      }
    }
  }

  // ---------- Mixed radix ----------

  ghost predicate Positive(r: seq<nat>) {
    forall i :: 0 <= i < |r| ==> r[i] > 0
  }

  function Product(r: seq<nat>): nat {
    if r == [] then 1 else Product(r[..|r| - 1]) * r[|r| - 1]
  }

  /** The digits of k, the last one varying fastest. */
  function Digits(r: seq<nat>, k: nat): (d: seq<nat>)
    requires Positive(r)
    ensures |d| == |r| && forall i :: 0 <= i < |r| ==> d[i] < r[i]
  {
    if r == [] then [] else
      var m := r[|r| - 1];
      assert m > 0;
      Digits(r[..|r| - 1], k / m) + [k % m]
  }

  function Value(r: seq<nat>, d: seq<nat>): nat
    requires |d| == |r|
  {
    if r == [] then 0 else Value(r[..|r| - 1], d[..|r| - 1]) * r[|r| - 1] + d[|r| - 1]
  }

  ghost predicate InRange(r: seq<nat>, d: seq<nat>) {
    |d| == |r| && forall i :: 0 <= i < |r| ==> d[i] < r[i]
  }

  /** Digits in range are the digits of their value, which is below the product. */
  lemma {:induction false} DigitsValue(r: seq<nat>, d: seq<nat>)
    requires InRange(r, d)
    ensures Positive(r) && Value(r, d) < Product(r) && Digits(r, Value(r, d)) == d
  {
    if r != [] {
      var n := |r| - 1;
      DigitsValue(r[..n], d[..n]);
      assert forall i :: 0 <= i < |r| ==> d[i] < r[i];
      var v, m := Value(r[..n], d[..n]), r[n];
      DivMod(v, m, d[n]);
      TimesBelow(v, Product(r[..n]), m, d[n]);
      assert d == d[..n] + [d[n]];
    }
  }

  /** Every number below the product is the value of its digits. */
  lemma {:induction false} ValueDigits(r: seq<nat>, k: nat)
    requires Positive(r) && k < Product(r)
    ensures Value(r, Digits(r, k)) == k
  {
    if r != [] {
      var n := |r| - 1;
      var m := r[n];
      BelowDivided(k, Product(r[..n]), m);
      ValueDigits(r[..n], k / m);
      assert Digits(r, k)[..n] == Digits(r[..n], k / m);
    }
  }

  lemma DivMod(v: nat, m: nat, d: nat)
    requires d < m
    ensures (v * m + d) / m == v && (v * m + d) % m == d
  {
    var k := v * m + d;
    assert k == m * (k / m) + k % m;
    TimesStep(m, k / m, v);
    TimesStep(m, v, k / m);
  }

  lemma TimesNext(m: nat, n: nat)
    ensures m * (n + 1) == m * n + m
  {
  }

  lemma {:induction false} TimesStep(m: nat, a: nat, b: nat)
    ensures a < b ==> m * a + m <= m * b
    decreases b
  {
    if a < b {
      TimesStep(m, a, b - 1);
      assert m * b == m * (b - 1) + m;
    }
  }

  lemma TimesBelow(v: nat, p: nat, m: nat, d: nat)
    requires v < p && d < m
    ensures v * m + d < p * m
  {
    TimesStep(m, v, p);
    assert m * v == v * m && m * p == p * m;
  }

  lemma BelowDivided(k: nat, p: nat, m: nat)
    requires k < p * m && m > 0
    ensures k / m < p
  {
    assert k == m * (k / m) + k % m;
    assert m * p == p * m;
    TimesStep(m, p, k / m);
  }

  lemma NextDivMod(k: nat, m: nat)
    requires m > 0
    ensures k % m + 1 == m ==> (k + 1) / m == k / m + 1 && (k + 1) % m == 0
    ensures k % m + 1 != m ==> (k + 1) / m == k / m && (k + 1) % m == k % m + 1
  {
    var v, d := k / m, k % m;
    assert k == m * v + d;
    if d + 1 == m {
      assert k + 1 == (v + 1) * m + 0;
      DivMod(v + 1, m, 0);
    } else {
      DivMod(v, m, d + 1);
    }
  }

  /** Counting up by one: the last digit that is not at its maximum grows, those behind it become 0. */
  function NextDigits(r: seq<nat>, d: seq<nat>): (d': seq<nat>)
    requires |d| == |r|
    ensures |d'| == |d|
  {
    if r == [] then [] else
      var n := |r| - 1;
      if d[n] + 1 == r[n] then NextDigits(r[..n], d[..n]) + [0] else d[..n] + [d[n] + 1]
  }

  lemma {:induction false} NextDigitsAdds(r: seq<nat>, k: nat)
    requires Positive(r)
    ensures NextDigits(r, Digits(r, k)) == Digits(r, k + 1)
  {
    if r != [] {
      var n := |r| - 1;
      var m := r[n];
      assert Digits(r, k)[..n] == Digits(r[..n], k / m);
      NextDivMod(k, m);
      NextDigitsAdds(r[..n], k / m);
    }
  }

  lemma {:induction false} ProductPositive(r: seq<nat>)
    requires Positive(r)
    ensures Product(r) > 0
  {
    if r != [] {
      ProductPositive(r[..|r| - 1]);
      assert r[|r| - 1] > 0;
      TimesStep(Product(r[..|r| - 1]), 0, r[|r| - 1]);
    }
  }
}
