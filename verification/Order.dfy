/** The two order heaps from which decisions are taken, and what they lose when the heuristic mode changes. */
module Ordering {
  import opened Cnf
  import opened Trails
  import opened Backtracking

  /** Which heap is in use, the keys of both, and the variables that may be decided on. */
  datatype Order = Order(vsids: bool, byVsids: set<Var>, byChb: set<Var>, decision: set<Var>) {
    function Heap(mode: bool): set<Var> {
      if mode then byVsids else byChb
    }

    function Active(): set<Var> {
      Heap(vsids)
    }

    function Other(): set<Var> {
      Heap(!vsids)
    }

    function WithActive(keys: set<Var>): Order {
      if vsids then this.(byVsids := keys) else this.(byChb := keys)
    }

    /** insertVarOrder for each of vs: only the heap in use is told. */
    function Inserted(vs: set<Var>): Order {
      WithActive(Active() + vs * decision)
    }

    function Rebuilt(valued: set<Var>): Order {
      this.(byVsids := decision - valued, byChb := decision - valued)
    }
  }

  /** What has been unassigned since o0 and keys0 has been put back. */
  ghost predicate Restocked(o0: Order, keys0: set<Var>, keys: set<Var>, o: Order) {
    keys <= keys0 && o == o0.Inserted(keys0 - keys)
  }

  lemma RestockedStart(o: Order, keys: set<Var>)
    ensures Restocked(o, keys, keys, o)
  {
    assert o.Active() + (keys - keys) * o.decision == o.Active();
  }

  lemma RestockedStep(o0: Order, keys0: set<Var>, keys: set<Var>, o: Order, x: Var)
    requires Restocked(o0, keys0, keys, o) && x in keys0
    ensures Restocked(o0, keys0, keys - {x}, o.Inserted({x}))
  {
    assert keys0 - (keys - {x}) == (keys0 - keys) + {x};
    assert o.Active() + {x} * o.decision == o0.Active() + (keys0 - keys + {x}) * o.decision;
  }

  lemma RestockedOther(o0: Order, keys0: set<Var>, keys: set<Var>, o: Order)
    requires Restocked(o0, keys0, keys, o)
    ensures o == o0.WithActive(o.Active())
  {
  }

  /** The heap in use lacks assigned variables only. */
  ghost predicate HeapFull(o: Order, valued: set<Var>) {
    o.decision - o.Active() <= valued
  }

  /** Besides, the other heap lacks only variables assigned for good. */
  ghost predicate Stocked(o: Order, valued: set<Var>, bottom: set<Var>) {
    HeapFull(o, valued) && o.decision - o.Other() <= bottom
  }

  /** Both heaps lack assigned variables only. */
  ghost predicate BothFull(o: Order, valued: set<Var>) {
    Stocked(o, valued, valued)
  }

  /** When nothing can be taken off the heap, the assignment is complete exactly if the heap lacked no unassigned
      variable. */
  lemma NothingExact(o: Order, valued: set<Var>)
    requires forall v :: v in o.Active() && v in o.decision ==> v in valued
    ensures o.decision <= valued <==> HeapFull(o, valued)
  {
    forall v | v in o.decision && HeapFull(o, valued)
      ensures v in valued
    {
      assert v !in o.Active() ==> v in o.decision - o.Active();
    }
  }

  lemma StockedMore(o: Order, a: set<Var>, b: set<Var>, a': set<Var>, b': set<Var>)
    requires Stocked(o, a, b) && a <= a' && b <= b'
    ensures Stocked(o, a', b')
  {
  }

  /** Backtracking puts back what it unassigns. */
  lemma StockedCancel(o: Order, a: set<Var>, b: set<Var>, a': set<Var>, b': set<Var>)
    requires Stocked(o, a, b) && b <= b'
    ensures Stocked(o.Inserted(a - a'), a', b')
  {
    var o' := o.Inserted(a - a');
    forall v | v in o'.decision - o'.Active()
      ensures v in a'
    {
      assert v in o.decision - o.Active();
    }
  }

  /** Taking variables off the heap, all but one of them assigned or no decision variables, and deciding on that one. */
  lemma StockedPick(o: Order, o': Order, a: set<Var>, b: set<Var>, a': set<Var>, b': set<Var>)
    requires Stocked(o, a, b) && o' == o.WithActive(o'.Active()) && a <= a' && b <= b'
    requires forall v :: v in o.Active() && v !in o'.Active() ==> v !in o.decision || v in a'
    ensures Stocked(o', a', b')
  {
    forall v | v in o'.decision - o'.Active()
      ensures v in a'
    {
      if v !in o.Active() {
        assert v in o.decision - o.Active();
      }
    }
  }

  /** The variables assigned at level 0. */
  ghost function Bottom(t: Trail): set<Var> {
    set v | v in t.assigns && t.Level(v) == 0
  }

  ghost predicate TrailStocked(o: Order, t: Trail) {
    Stocked(o, t.assigns.Keys, Bottom(t))
  }

  lemma StockCancel(o: Order, t: Trail, b: nat, o': Order)
    requires TrailStocked(o, t) && b < |t.lim|
    requires Restocked(o, t.assigns.Keys, CancelUntil(t, b).assigns.Keys, o')
    ensures TrailStocked(o', CancelUntil(t, b))
  {
    var t' := CancelUntil(t, b);
    StockedCancel(o, t.assigns.Keys, Bottom(t), t'.assigns.Keys, Bottom(t'));
  }

  lemma StockEnqueue(o: Order, t: Trail, p: Lit, level: nat, from: int)
    requires TrailStocked(o, t) && p.v < |t.vardata| && t.Undef(p)
    ensures TrailStocked(o, Enqueue(t, p, level, from))
  {
    StockedMore(o, t.assigns.Keys, Bottom(t), Enqueue(t, p, level, from).assigns.Keys,
                Bottom(Enqueue(t, p, level, from)));
  }

  lemma StockExtends(o: Order, t: Trail, t': Trail)
    requires TrailStocked(o, t) && Extends(t, t')
    ensures TrailStocked(o, t')
  {
    StockedMore(o, t.assigns.Keys, Bottom(t), t'.assigns.Keys, Bottom(t'));
  }

  /** Forgetting reasons. */
  lemma StockSame(o: Order, t: Trail, t': Trail)
    requires t.assigns == t'.assigns && forall v :: t'.Level(v) == t.Level(v)
    ensures TrailStocked(o, t) ==> TrailStocked(o, t')
  {
    assert Bottom(t) == Bottom(t');
  }

  lemma StockPick(o: Order, o': Order, t: Trail)
    requires TrailStocked(o, t) && o' == o.WithActive(o'.Active())
    requires forall v :: v in o.Active() && v !in o'.Active() ==> v !in o.decision || v in t.assigns
    ensures TrailStocked(o', t)
  {
    StockedPick(o, o', t.assigns.Keys, Bottom(t), t.assigns.Keys, Bottom(t));
  }

  lemma StockHeap(o: Order, t: Trail)
    requires TrailStocked(o, t)
    ensures HeapFull(o, t.assigns.Keys)
  {
  }

  /** Deciding on the variable just taken off the heap. */
  lemma StockDecide(o: Order, o': Order, t: Trail, p: Lit)
    requires TrailStocked(o, t) && p.v < |t.vardata| && t.Undef(p) && o' == o.WithActive(o'.Active())
    requires forall v :: v in o.Active() && v !in o'.Active() ==> v !in o.decision || v in t.assigns || v == p.v
    ensures TrailStocked(o', Enqueue(NewLevel(t), p, |t.lim| + 1, UNDEF))
  {
    var t' := Enqueue(NewLevel(t), p, |t.lim| + 1, UNDEF);
    StockedPick(o, o', t.assigns.Keys, Bottom(t), t'.assigns.Keys, Bottom(t'));
  }

  /** At level 0 everything is assigned for good, and more of it than before. */
  lemma StockRoot(o: Order, t: Trail, t': Trail)
    requires TrailStocked(o, t) && t.assigns.Keys <= t'.assigns.Keys && Consistent(t') && Leveled(t') && t'.lim == []
    ensures TrailStocked(o, t')
  {
    RootBottom(t');
    StockedMore(o, t.assigns.Keys, Bottom(t), t'.assigns.Keys, Bottom(t'));
  }

  lemma RootBottom(t: Trail)
    requires Consistent(t) && Leveled(t) && t.lim == []
    ensures Bottom(t) == t.assigns.Keys
  {
    forall v | v in t.assigns
      ensures t.Level(v) == 0
    {
      var i :| 0 <= i < |t.lits| && t.lits[i].v == v;
      assert t.LevelAt(i) <= 0;
    }
  }

  /** At level 0 the mode may change. */
  lemma BothFullToggled(o: Order, a: set<Var>, vsids: bool)
    ensures BothFull(o, a) <==> BothFull(o.(vsids := vsids), a)
  {
  }

  /** If a heap is empty, both lack assigned variables only exactly if every decision variable is assigned. */
  lemma EmptyHeapFull(o: Order, mode: bool, a: set<Var>)
    requires o.Heap(mode) == {}
    ensures BothFull(o, a) <==> o.decision <= a
  {
    assert o.decision - {} == o.decision;
    assert o.Heap(o.vsids) == o.Active() && o.Heap(!o.vsids) == o.Other();
  }

  lemma RebuiltFull(o: Order, a: set<Var>)
    ensures BothFull(o.Rebuilt(a), a)
  {
  }

  /** Changing the mode between the answer l_True, which has emptied the heap in use, and the final backtrack leaves
      that heap empty: whatever is unassigned goes to the other one. */
  lemma HeapLost(o: Order, mode: bool, gone: set<Var>)
    requires o.Active() == {} && mode != o.vsids
    ensures o.(vsids := mode).Inserted(gone).(vsids := o.vsids).Active() == {}
  {
  }
}
