/** The in-place removal loop of binResMinimize. */
module BinaryResolution {
  import opened Cnf
  import opened Trails
  import opened Analysis

  /** How many literals of ls have their variable in bad. */
  ghost function Count(ls: seq<Lit>, bad: set<Var>): nat {
    if ls == [] then 0 else (if ls[0].v in bad then 1 else 0) + Count(ls[1..], bad)
  }

  lemma {:induction false} CountConcat(a: seq<Lit>, b: seq<Lit>, bad: set<Var>)
    ensures Count(a + b, bad) == Count(a, bad) + Count(b, bad)
  {
    if a == [] {
      assert a + b == b;
    } else {
      CountConcat(a[1..], b, bad);
      assert (a + b)[1..] == a[1..] + b;
    }
  }

  lemma {:induction false} CountSame(ls: seq<Lit>, bad: set<Var>, bad': set<Var>)
    requires forall i :: 0 <= i < |ls| ==> (ls[i].v in bad <==> ls[i].v in bad')
    ensures Count(ls, bad) == Count(ls, bad')
  {
    if ls != [] {
      CountSame(ls[1..], bad, bad');
    }
  }

  /** Among literals of distinct variables, each bad variable is counted once. */
  lemma {:induction false} CountIsSize(ls: seq<Lit>, bad: set<Var>)
    requires Distinct(ls) && bad <= Vars(ls)
    ensures Count(ls, bad) == |bad| <= |ls|
  {
    if ls == [] {
      assert bad == {};
    } else {
      var x, rest := ls[0].v, ls[1..];
      forall i | 0 <= i < |rest|
        ensures rest[i].v != x
      {
      }
      TailVars(ls);
      var bad' := bad - {x};
      CountSame(rest, bad, bad');
      CountIsSize(rest, bad');
      assert x in bad ==> bad == bad' + {x};
      assert x !in bad ==> bad == bad';
    }
  }

  lemma {:induction false} CountFull(ls: seq<Lit>, bad: set<Var>)
    ensures Count(ls, bad) <= |ls|
    ensures Count(ls, bad) == |ls| ==> forall i :: 0 <= i < |ls| ==> ls[i].v in bad
  {
    if ls != [] {
      CountFull(ls[1..], bad);
    }
  }

  /** Part way through the loop: out[..i] is done, out[i..last + 1] is left, and removed literals were bad. */
  ghost predicate Shrinking(out0: seq<Lit>, out: seq<Lit>, i: nat, last: int, bad: set<Var>, toRemove: nat) {
    && |out| == |out0| && 1 <= i <= last + 1 <= |out0| && out[0] == out0[0]
    && Count(out[i..last + 1], bad) == toRemove - (|out0| - 1 - last)
    && (forall k :: 1 <= k < i ==> out[k].v !in bad)
    && (forall l :: l in out[..last + 1] ==> l in out0)
    && (forall l :: l in out0 ==> l in out[..last + 1] || l.v in bad)
    && Distinct(out[..last + 1])
  }

  lemma ShrinkStart(out: seq<Lit>, bad: set<Var>)
    requires out != [] && Distinct(out) && bad <= Vars(out[1..])
    ensures Shrinking(out, out, 1, |out| - 1, bad, |bad|) && |bad| < |out|
  {
    assert out[..|out|] == out && out[1..|out|] == out[1..];
    CountIsSize(out[1..], bad);
  }

  lemma ShrinkSkip(out0: seq<Lit>, out: seq<Lit>, i: nat, last: int, bad: set<Var>, toRemove: nat)
    requires Shrinking(out0, out, i, last, bad, toRemove) && i < |out0| - toRemove && i <= last && out[i].v !in bad
    ensures Shrinking(out0, out, i + 1, last, bad, toRemove)
  {
    assert out[i..last + 1][1..] == out[i + 1..last + 1];
  }

  lemma ShrinkRoom(out0: seq<Lit>, out: seq<Lit>, i: nat, last: int, bad: set<Var>, toRemove: nat)
    requires Shrinking(out0, out, i, last, bad, toRemove) && i < |out0| - toRemove
    ensures i <= last
  {
  }

  /** What is left still comes from the tail of the clause. */
  lemma ShrinkMember(out0: seq<Lit>, out: seq<Lit>, i: nat, last: int, bad: set<Var>, toRemove: nat)
    requires Shrinking(out0, out, i, last, bad, toRemove) && i <= last && Distinct(out0)
    ensures out[i].v in Vars(out0[1..])
  {
    assert out[..last + 1][i] in out0 && out[..last + 1][0].v != out[..last + 1][i].v;
    TailVars(out0);
    var k :| 0 <= k < |out0| && out0[k] == out[i];
    assert out0[k].v in Vars(out0);
  }

  lemma ShrinkTake(out0: seq<Lit>, out: seq<Lit>, i: nat, last: int, bad: set<Var>, toRemove: nat)
    requires Shrinking(out0, out, i, last, bad, toRemove) && i < |out0| - toRemove && i <= last && out[i].v in bad
    ensures Shrinking(out0, out[i := out[last]], i, last - 1, bad, toRemove)
  {
    var out' := out[i := out[last]];
    ShrinkCount(out, i, last, bad);
    forall l | l in out'[..last]
      ensures l in out[..last + 1]
    {
      var k :| 0 <= k < last && out'[k] == l;
      assert out[..last + 1][if k == i then last else k] == l;
    }
    forall l | l in out[..last + 1]
      ensures l in out'[..last] || l.v in bad
    {
      var k :| 0 <= k < last + 1 && out[k] == l;
      if k != i {
        assert k == last ==> i < last;
        assert out'[..last][if k == last then i else k] == l;
      }
    }
    forall a, b | 0 <= a < b < last
      ensures out'[a].v != out'[b].v
    {
      assert out[..last + 1][if a == i then last else a] == out'[a];
      assert out[..last + 1][if b == i then last else b] == out'[b];
    }
  }

  lemma ShrinkCount(out: seq<Lit>, i: nat, last: int, bad: set<Var>)
    requires i <= last < |out| && out[i].v in bad
    ensures Count(out[i := out[last]][i..last], bad) == Count(out[i..last + 1], bad) - 1
  {
    var out' := out[i := out[last]];
    assert out[i..last + 1][1..] == out[i + 1..last + 1];
    if i < last {
      assert out[i + 1..last + 1] == out[i + 1..last] + [out[last]];
      CountConcat(out[i + 1..last], [out[last]], bad);
      assert out'[i..last] == [out[last]] + out[i + 1..last];
      CountConcat([out[last]], out[i + 1..last], bad);
    }
  }

  lemma ShrinkEnd(out0: seq<Lit>, out: seq<Lit>, i: nat, last: int, bad: set<Var>, toRemove: nat)
    requires Shrinking(out0, out, i, last, bad, toRemove) && i == |out0| - toRemove
    ensures forall l :: l in out[..i] ==> l in out0
    ensures forall l :: l in out0 ==> l in out[..i] || l.v in bad
    ensures forall l :: l in out[..i] ==> l == out0[0] || l.v !in bad
    ensures Distinct(out[..i])
  {
    CountFull(out[i..last + 1], bad);
    assert out[..last + 1] == out[..i] + out[i..last + 1];
    assert forall k :: 0 <= k < i ==> out[..i][k] == out[..last + 1][k];
  }
}
