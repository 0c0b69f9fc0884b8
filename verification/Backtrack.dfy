/** cancelUntil: backtracking that keeps late literals of low levels. */
module Backtracking {
  import opened Cnf
  import opened Trails

  /** The positions below k whose literal has level at most b, in increasing order. */
  function Kept(t: Trail, b: nat, k: nat): (r: seq<nat>)
    requires k <= |t.lits|
  {
    if k == 0 then [] else Kept(t, b, k - 1) + (if t.LevelAt(k - 1) <= b then [k - 1] else [])
  }

  /** The literals of level at most b in their old relative order; everything else is unassigned. */
  function CancelUntil(t: Trail, b: nat): Trail
    requires b < |t.lim|
  {
    var kept := Kept(t, b, |t.lits|);
    KeptIsExact(t, b, |t.lits|);
    Trail(Picked(t, kept), t.lim[..b],
          map v | v in t.assigns && t.Level(v) <= b :: t.assigns[v], t.vardata)
  }

  lemma {:induction false} KeptIsExact(t: Trail, b: nat, k: nat)
    requires k <= |t.lits|
    ensures forall i :: 0 <= i < |Kept(t, b, k)| ==> Kept(t, b, k)[i] < k && t.LevelAt(Kept(t, b, k)[i]) <= b
    ensures forall i, j :: 0 <= i < j < |Kept(t, b, k)| ==> Kept(t, b, k)[i] < Kept(t, b, k)[j]
    ensures forall p :: 0 <= p < k && t.LevelAt(p) <= b ==> p in Kept(t, b, k)
  {
    if k > 0 {
      KeptIsExact(t, b, k - 1);
      var prev := Kept(t, b, k - 1);
      assert t.LevelAt(k - 1) <= b ==> Kept(t, b, k)[|prev|] == k - 1;
      forall p | 0 <= p < k && t.LevelAt(p) <= b
        ensures p in Kept(t, b, k)
      {
        if p < k - 1 {
          assert p in prev;
        }
      }
    }
  }

  lemma {:induction false} KeptPrefix(t: Trail, b: nat, k: nat)
    requires k <= |t.lits|
    requires forall i :: 0 <= i < k ==> t.LevelAt(i) <= b
    ensures Kept(t, b, k) == seq(k, i => i)
  {
    if k > 0 {
      KeptPrefix(t, b, k - 1);
    }
  }

  lemma {:induction false} KeptGrows(t: Trail, b: nat, k: nat, n: nat)
    requires k <= n <= |t.lits|
    ensures Kept(t, b, k) <= Kept(t, b, n)
    decreases n
  {
    if k < n {
      KeptGrows(t, b, k, n - 1);
    }
  }

  /** Nothing before the start of level b + 1 moves. */
  lemma CancelPrefix(t: Trail, b: nat)
    requires Leveled(t) && b < |t.lim|
    ensures t.lim[b] <= |CancelUntil(t, b).lits|
    ensures forall i :: 0 <= i < t.lim[b] ==> CancelUntil(t, b).lits[i] == t.lits[i]
  {
    KeptPrefix(t, b, t.lim[b]);
    KeptGrows(t, b, t.lim[b], |t.lits|);
    var kept := Kept(t, b, |t.lits|);
    assert forall i :: 0 <= i < t.lim[b] ==> kept[i] == Kept(t, b, t.lim[b])[i] == i;
  }

  /** Where the literal kept from position p ends up. */
  lemma NewPosition(t: Trail, b: nat, p: nat) returns (i: nat)
    requires b < |t.lim| && p < |t.lits| && t.LevelAt(p) <= b
    ensures i < |Kept(t, b, |t.lits|)| && Kept(t, b, |t.lits|)[i] == p
  {
    KeptIsExact(t, b, |t.lits|);
    i :| 0 <= i < |Kept(t, b, |t.lits|)| && Kept(t, b, |t.lits|)[i] == p;
  }

  /** A literal survives exactly if its level is at most b. */
  lemma CancelValues(t: Trail, b: nat, l: Lit)
    requires b < |t.lim|
    ensures CancelUntil(t, b).True(l) <==> t.True(l) && t.Level(l.v) <= b
    ensures CancelUntil(t, b).False(l) <==> t.False(l) && t.Level(l.v) <= b
  {
  }

  lemma CancelConsistent(t: Trail, b: nat)
    requires Consistent(t) && b < |t.lim|
    ensures Consistent(CancelUntil(t, b))
  {
    var t' := CancelUntil(t, b);
    var kept := Kept(t, b, |t.lits|);
    KeptIsExact(t, b, |t.lits|);
    forall i | 0 <= i < |t'.lits|
      ensures t'.lits[i].v < |t'.vardata| && t'.True(t'.lits[i])
    {
      assert t'.lits[i] == t.lits[kept[i]];
      assert t.True(t.lits[kept[i]]) && t.LevelAt(kept[i]) <= b;
    }
    forall v | v in t'.assigns
      ensures t'.OnTrail(v)
    {
      assert t.OnTrail(v);
      var p :| 0 <= p < |t.lits| && t.lits[p].v == v;
      var i := NewPosition(t, b, p);
      assert t'.lits[i].v == v;
    }
  }

  lemma CancelLeveled(t: Trail, b: nat)
    requires Leveled(t) && b < |t.lim|
    ensures Leveled(CancelUntil(t, b))
  {
    CancelPrefix(t, b);
    CancelBlocks(t, b);
    CancelDecisions(t, b);
    assert LimSorted(CancelUntil(t, b)) by {
      assert forall a :: 0 <= a < b ==> t.lim[a] <= t.lim[b];
    }
  }

  lemma CancelBlocks(t: Trail, b: nat)
    requires LimSorted(t) && BlocksLow(t) && b < |t.lim|
    requires forall i :: 0 <= i < t.lim[b] ==> i < |CancelUntil(t, b).lits| && CancelUntil(t, b).lits[i] == t.lits[i]
    ensures BlocksLow(CancelUntil(t, b))
  {
    var t' := CancelUntil(t, b);
    forall a, i | 0 <= a < b && 0 <= i < t.lim[a] && i < |t'.lits|
      ensures t'.LevelAt(i) <= a
    {
      assert t.lim[a] <= t.lim[b];
      assert t.LevelAt(i) <= a;
    }
  }

  lemma CancelDecisions(t: Trail, b: nat)
    requires OneDecision(t) && b < |t.lim|
    ensures OneDecision(CancelUntil(t, b)) && LevelsOpened(CancelUntil(t, b))
  {
    var t' := CancelUntil(t, b);
    var kept := Kept(t, b, |t.lits|);
    KeptIsExact(t, b, |t.lits|);
    assert forall i :: 0 <= i < |t'.lits| ==> t'.LevelAt(i) == t.LevelAt(kept[i]) <= b;
    forall i, j | 0 <= i < j < |t'.lits| && t'.LevelAt(i) == t'.LevelAt(j) > 0
      ensures t'.Reason(t'.lits[j].v) != UNDEF
    {
      assert kept[i] < kept[j] && t.LevelAt(kept[i]) == t.LevelAt(kept[j]);
    }
  }

  lemma CancelAntecedents(t: Trail, ca: seq<Clause>, live: set<int>, b: nat, i: nat)
    requires b < |t.lim| && i < |CancelUntil(t, b).lits|
    requires Kept(t, b, |t.lits|)[i] < |t.lits| && Antecedents(t, ca, live, Kept(t, b, |t.lits|)[i])
    requires LevelIsMax(t, ca, Kept(t, b, |t.lits|)[i])
    ensures Antecedents(CancelUntil(t, b), ca, live, i)
  {
    var t' := CancelUntil(t, b);
    var kept := Kept(t, b, |t.lits|);
    KeptIsExact(t, b, |t.lits|);
    var x := t'.lits[i];
    var r := t.Reason(x.v);
    forall q | r != UNDEF && q in ca[r] && q != x
      ensures t'.Before(Neg(q), i)
    {
      assert t.Before(Neg(q), kept[i]);
      var p :| 0 <= p < kept[i] && t.lits[p] == Neg(q);
      var j := NewPosition(t, b, p);
      assert kept[j] < kept[i];
      assert t'.lits[j] == Neg(q);
    }
  }

  lemma CancelJustified(t: Trail, ca: seq<Clause>, live: set<int>, b: nat)
    requires Justified(t, ca, live) && LevelsMaximal(t, ca) && b < |t.lim|
    ensures Justified(CancelUntil(t, b), ca, live) && LevelsMaximal(CancelUntil(t, b), ca)
  {
    hide Antecedents, LevelIsMax;
    var t' := CancelUntil(t, b);
    var kept := Kept(t, b, |t.lits|);
    KeptIsExact(t, b, |t.lits|);
    forall i | 0 <= i < |t'.lits|
      ensures Antecedents(t', ca, live, i)
    {
      CancelAntecedents(t, ca, live, b, i);
    }
    forall i | 0 <= i < |t'.lits|
      ensures LevelIsMax(t', ca, i)
    {
      CancelLevelIsMax(t, ca, b, i);
    }
  }

  lemma CancelLevelIsMax(t: Trail, ca: seq<Clause>, b: nat, i: nat)
    requires b < |t.lim| && i < |CancelUntil(t, b).lits|
    requires Kept(t, b, |t.lits|)[i] < |t.lits| && LevelIsMax(t, ca, Kept(t, b, |t.lits|)[i])
    ensures LevelIsMax(CancelUntil(t, b), ca, i)
  {
  }

  lemma CancelKeepsInv(t: Trail, ca: seq<Clause>, live: set<int>, b: nat)
    requires TrailInv(t, ca, live) && b < |t.lim|
    ensures TrailInv(CancelUntil(t, b), ca, live)
  {
    CancelConsistent(t, b);
    CancelLeveled(t, b);
    CancelJustified(t, ca, live, b);
  }

  /** Exactly the literals of level at most b remain, in their old relative order. */
  lemma CancelKeepsOrder(t: Trail, b: nat, p: nat, q: nat)
    requires Leveled(t) && b < |t.lim| && p < q < |t.lits| && t.LevelAt(p) <= b && t.LevelAt(q) <= b
    ensures exists i, j :: 0 <= i < j < |CancelUntil(t, b).lits| && CancelUntil(t, b).lits[i] == t.lits[p]
                           && CancelUntil(t, b).lits[j] == t.lits[q]
  {
    KeptIsExact(t, b, |t.lits|);
    var i := NewPosition(t, b, p);
    var j := NewPosition(t, b, q);
    assert CancelUntil(t, b).lits[i] == t.lits[p] && CancelUntil(t, b).lits[j] == t.lits[q];
  }

  // ---------- The loops of cancelUntil ----------

  ghost predicate FoundBelow(t: Trail, v: Var, c: nat) {
    exists p :: 0 <= p < c && p < |t.lits| && t.lits[p].v == v
  }

  /** The loop has come down to position c, unassigning what lies above level b. */
  ghost predicate Unassigned(t: Trail, b: nat, c: nat, assigns: map<Var, bool>) {
    && (forall v :: v in assigns <==> v in t.assigns && (t.Level(v) <= b || FoundBelow(t, v, c)))
    && (forall v :: v in assigns ==> assigns[v] == t.assigns[v])
  }

  /** What the loop has saved when it has come down to position c: the literals to keep, in reverse order. */
  function Saved(t: Trail, b: nat, c: nat): seq<Lit>
    requires c <= |t.lits|
    decreases |t.lits| - c
  {
    if c == |t.lits| then [] else Saved(t, b, c + 1) + (if t.LevelAt(c) <= b then [t.lits[c]] else [])
  }

  function Reversed(s: seq<Lit>): seq<Lit> {
    if s == [] then [] else [s[|s| - 1]] + Reversed(s[..|s| - 1])
  }

  function Picked(t: Trail, at: seq<nat>): seq<Lit>
    requires forall i :: 0 <= i < |at| ==> at[i] < |t.lits|
  {
    seq(|at|, i requires 0 <= i < |at| => t.lits[at[i]])
  }

  lemma SavedNext(t: Trail, b: nat, c: nat)
    requires c <= |t.lits|
    ensures if c == |t.lits| then Saved(t, b, c) == []
            else Saved(t, b, c) == Saved(t, b, c + 1) + (if t.LevelAt(c) <= b then [t.lits[c]] else [])
    ensures Reversed([]) == []
  {
  }

  lemma KeptNext(t: Trail, b: nat, c: nat)
    requires c < |t.lits|
    ensures forall i :: 0 <= i < |Kept(t, b, c)| ==> Kept(t, b, c)[i] < |t.lits|
    ensures var next := Kept(t, b, c + 1); forall i :: 0 <= i < |next| ==> next[i] < |t.lits|
    ensures Picked(t, Kept(t, b, c + 1)) == Picked(t, Kept(t, b, c)) + (if t.LevelAt(c) <= b then [t.lits[c]] else [])
  {
    KeptIsExact(t, b, c);
    KeptIsExact(t, b, c + 1);
  }

  lemma ReversedPush(s: seq<Lit>, x: Lit)
    ensures Reversed(s + [x]) == [x] + Reversed(s)
  {
    assert (s + [x])[..|s|] == s;
  }

  /** Everything kept is what is kept below c and then, reversed again, what was saved from c on. */
  lemma {:induction false} KeptAndSaved(t: Trail, b: nat, c: nat)
    requires c <= |t.lits|
    ensures forall i :: 0 <= i < |Kept(t, b, c)| ==> Kept(t, b, c)[i] < |t.lits|
    ensures forall i :: 0 <= i < |Kept(t, b, |t.lits|)| ==> Kept(t, b, |t.lits|)[i] < |t.lits|
    ensures Picked(t, Kept(t, b, |t.lits|)) == Picked(t, Kept(t, b, c)) + Reversed(Saved(t, b, c))
    decreases |t.lits| - c
  {
    hide Kept, Picked, Saved;
    KeptIsExact(t, b, c);
    KeptIsExact(t, b, |t.lits|);
    SavedNext(t, b, c);
    if c < |t.lits| {
      KeptAndSaved(t, b, c + 1);
      KeptNext(t, b, c);
      var x, above, below := t.lits[c], Saved(t, b, c + 1), Picked(t, Kept(t, b, c));
      if t.LevelAt(c) <= b {
        ReversedPush(above, x);
        assert below + [x] + Reversed(above) == below + ([x] + Reversed(above));
      } else {
        assert above + [] == above && below + [] == below;
      }
    } else {
      assert Picked(t, Kept(t, b, c)) + [] == Picked(t, Kept(t, b, c));
    }
  }

  lemma CancelStart(t: Trail, b: nat)
    requires Consistent(t)
    ensures Unassigned(t, b, |t.lits|, t.assigns)
  {
    forall v | v in t.assigns
      ensures FoundBelow(t, v, |t.lits|)
    {
      assert t.OnTrail(v);
    }
  }

  lemma UnassignedStep(t: Trail, b: nat, c: nat, assigns: map<Var, bool>)
    requires Consistent(t) && 0 < c <= |t.lits| && Unassigned(t, b, c, assigns)
    ensures Unassigned(t, b, c - 1, if t.LevelAt(c - 1) <= b then assigns else assigns - {t.lits[c - 1].v})
  {
    var x := t.lits[c - 1].v;
    assert !FoundBelow(t, x, c - 1);
    forall v | v != x
      ensures FoundBelow(t, v, c) <==> FoundBelow(t, v, c - 1)
    {
    }
  }

  lemma TrailAssigned(t: Trail, c: nat)
    requires Consistent(t) && c < |t.lits|
    ensures t.lits[c].v in t.assigns
  {
    assert t.True(t.lits[c]);
  }

  lemma CancelEnd(t: Trail, b: nat, assigns: map<Var, bool>)
    requires LimSorted(t) && BlocksLow(t) && b < |t.lim| && Unassigned(t, b, t.lim[b], assigns)
    ensures assigns == CancelUntil(t, b).assigns
    ensures CancelUntil(t, b).lits == t.lits[..t.lim[b]] + Reversed(Saved(t, b, t.lim[b]))
  {
    KeptPrefix(t, b, t.lim[b]);
    KeptAndSaved(t, b, t.lim[b]);
    assert Picked(t, Kept(t, b, t.lim[b])) == t.lits[..t.lim[b]];
    forall v | FoundBelow(t, v, t.lim[b])
      ensures t.Level(v) <= b
    {
      var p :| 0 <= p < t.lim[b] && p < |t.lits| && t.lits[p].v == v;
      assert t.LevelAt(p) <= b;
    }
  }
}
