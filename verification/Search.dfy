/** Enumerating assignments: all sign patterns of some variables, or a product of sets of assignments; and splitting an
    enumeration over workers. */
module Enumeration {
  import opened Cnf
  import opened Numbers

  /** What is enumerated. */
  datatype Kind =
    | Full(vars: seq<Var>)
    | Cartesian(sets: seq<seq<seq<Lit>>>)
    | Single

  // ---------- What each index stands for ----------

  function WithSigns(vars: seq<Var>, signs: seq<bool>): (a: seq<Lit>)
    requires |vars| == |signs|
    ensures |a| == |vars| && forall i :: 0 <= i < |a| ==> a[i] == Lit(vars[i], signs[i])
  {
    seq(|vars|, i requires 0 <= i < |vars| => Lit(vars[i], signs[i]))
  }

  /** Bit i of k is the sign of variable i. */
  function Pattern(vars: seq<Var>, k: nat): seq<Lit> {
    WithSigns(vars, Bits(k, |vars|))
  }

  function Sizes(sets: seq<seq<seq<Lit>>>): (r: seq<nat>)
    ensures |r| == |sets| && forall i :: 0 <= i < |sets| ==> r[i] == |sets[i]|
  {
    seq(|sets|, i requires 0 <= i < |sets| => |sets[i]|)
  }

  /** Every set has a block, and all its blocks have the same length. */
  ghost predicate Uniform(sets: seq<seq<seq<Lit>>>) {
    && Positive(Sizes(sets))
    && (forall i, j :: 0 <= i < |sets| && 0 <= j < |sets[i]| ==> |sets[i][j]| == |sets[i][0]|)
  }

  /** The chosen blocks of the first n sets, one after the other. */
  function Joined(sets: seq<seq<seq<Lit>>>, d: seq<nat>, n: nat): seq<Lit>
    requires n <= |sets| && InRange(Sizes(sets), d)
  {
    if n == 0 then [] else
      assert d[n - 1] < Sizes(sets)[n - 1];
      Joined(sets, d, n - 1) + sets[n - 1][d[n - 1]]
  }

  ghost predicate WellFormed(kind: Kind) {
    match kind
    case Full(vars) => |vars| < 64
    case Cartesian(sets) => Uniform(sets)
    case Single => true
  }

  function Count(kind: Kind): nat {
    match kind
    case Full(vars) => Pow2(|vars|)
    case Cartesian(sets) => Product(Sizes(sets))
    case Single => 1
  }

  /** The assignment with index k. */
  function Nth(kind: Kind, k: nat): seq<Lit>
    requires WellFormed(kind)
  {
    match kind
    case Full(vars) => Pattern(vars, k)
    case Cartesian(sets) =>
      var d := Digits(Sizes(sets), k);
      Joined(sets, d, |sets|)
    case Single => []
  }

  lemma CountPositive(kind: Kind)
    requires WellFormed(kind)
    ensures Count(kind) > 0
  {
    if kind.Cartesian? {
      ProductPositive(Sizes(kind.sets));
    }
  }

  // ---------- The loops of the enumerations ----------

  /** All signs up to pos are set, the one at pos is not: those become clear, this one set. */
  lemma {:induction false} IncrementedAt(bits: seq<bool>, pos: nat, i: nat)
    requires pos <= |bits| && (forall i :: 0 <= i < pos ==> bits[i]) && (pos < |bits| ==> !bits[pos]) && i < |bits|
    ensures Incremented(bits)[i] == (i == pos || (i > pos && bits[i]))
  {
    if pos > 0 && i > 0 {
      IncrementedAt(bits[1..], pos - 1, i - 1);
    }
  }

  /** From index n on, all digits are at their maximum, the one before is not. */
  lemma {:induction false} NextDigitsAt(r: seq<nat>, d: seq<nat>, n: nat)
    requires |d| == |r| && n <= |r| && (forall i :: n <= i < |r| ==> d[i] + 1 == r[i])
    requires (n > 0 ==> d[n - 1] + 1 != r[n - 1])
    ensures NextDigits(r, d) == (if n > 0 then d[..n - 1] + [d[n - 1] + 1] else []) + seq(|r| - n, _ => 0)
    decreases |r|
  {
    if n < |r| {
      var m := |r| - 1;
      NextDigitsAt(r[..m], d[..m], n);
      assert seq(|r| - n, _ => 0) == seq(m - n, _ => 0) + [0];
      assert n > 0 ==> d[..m][..n - 1] == d[..n - 1];
    } else if n > 0 {
      assert NextDigits(r, d) == d[..n - 1] + [d[n - 1] + 1];
    }
  }

  lemma {:induction false} JoinedSame(sets: seq<seq<seq<Lit>>>, d: seq<nat>, d': seq<nat>, n: nat)
    requires n <= |sets| && InRange(Sizes(sets), d) && InRange(Sizes(sets), d') && d[..n] == d'[..n]
    ensures Joined(sets, d, n) == Joined(sets, d', n)
  {
    if n > 0 {
      assert d[..n - 1] == d[..n][..n - 1] == d'[..n - 1];
      assert d[n - 1] == d[..n][n - 1] == d'[n - 1];
      JoinedSame(sets, d, d', n - 1);
    }
  }

  /** Where the block of set n starts does not depend on the choice. */
  lemma {:induction false} JoinedLength(sets: seq<seq<seq<Lit>>>, d: seq<nat>, d': seq<nat>, n: nat)
    requires n <= |sets| && Uniform(sets) && InRange(Sizes(sets), d) && InRange(Sizes(sets), d')
    ensures |Joined(sets, d, n)| == |Joined(sets, d', n)|
  {
    if n > 0 {
      JoinedLength(sets, d, d', n - 1);
      assert d[n - 1] < Sizes(sets)[n - 1] && d'[n - 1] < Sizes(sets)[n - 1];
    }
  }

  lemma {:induction false} JoinedPrefix(sets: seq<seq<seq<Lit>>>, d: seq<nat>, n: nat, m: nat)
    requires n <= m <= |sets| && InRange(Sizes(sets), d)
    ensures Joined(sets, d, n) <= Joined(sets, d, m)
    decreases m
  {
    if n < m {
      JoinedPrefix(sets, d, n, m - 1);
    }
  }

  // ---------- Splitting ----------

  function PartSize(total: nat, numSplit: nat, index: nat): nat
    requires numSplit > 0
  {
    total / numSplit + (if index < total % numSplit then 1 else 0)
  }

  function PartStart(total: nat, numSplit: nat, index: nat): nat
    requires numSplit > 0
  {
    if index == 0 then 0 else PartStart(total, numSplit, index - 1) + PartSize(total, numSplit, index - 1)
  }

  /** The parts follow one another without gap or overlap and end at the total; when there are no more parts than
      assignments, none is empty. */
  lemma PartsCover(total: nat, numSplit: nat)
    requires numSplit > 0
    ensures PartStart(total, numSplit, numSplit) == total
    ensures numSplit <= total ==> forall i :: 0 <= i < numSplit ==> PartSize(total, numSplit, i) > 0
  {
    hide PartStart;
    var div, rem := total / numSplit, total % numSplit;
    PartStartIs(total, numSplit, numSplit);
    RestForm(div, rem, numSplit - rem);
    TimesStep(numSplit, div, 1);
  }

  lemma RestForm(div: nat, rem: nat, rest: nat)
    ensures rem * (div + 1) + rest * div == (rem + rest) * div + rem
  {
  }

  lemma TimesNextLeft(n: nat, m: nat)
    ensures (n + 1) * m == n * m + m
  {
  }

  /** The closed form of the start. */
  lemma {:induction false} PartStartIs(total: nat, numSplit: nat, index: nat)
    requires numSplit > 0
    ensures var div, rem := total / numSplit, total % numSplit;
      PartStart(total, numSplit, index) ==
        if index <= rem then index * (div + 1) else rem * (div + 1) + (index - rem) * div
  {
    if index > 0 {
      PartStartIs(total, numSplit, index - 1);
      var div, rem := total / numSplit, total % numSplit;
      if index <= rem {
        TimesNextLeft(index - 1, div + 1);
      } else {
        TimesNextLeft(index - 1 - rem, div);
      }
    }
  }

  lemma {:induction false} PartsGrow(total: nat, numSplit: nat, i: nat, j: nat)
    requires numSplit > 0 && i <= j
    ensures PartStart(total, numSplit, i) <= PartStart(total, numSplit, j)
    ensures i < j && PartSize(total, numSplit, i) == 0 ==>
              PartStart(total, numSplit, i) == PartStart(total, numSplit, j)
    decreases j
  {
    if i < j {
      PartsGrow(total, numSplit, i, j - 1);
    }
  }

  lemma PartWithin(total: nat, numSplit: nat, index: nat)
    requires 0 <= index < numSplit
    ensures PartStart(total, numSplit, index) + PartSize(total, numSplit, index) <= total
    ensures PartStart(total, numSplit, index) < total <==> PartSize(total, numSplit, index) > 0
  {
    hide PartSize, PartStart;
    PartsCover(total, numSplit);
    PartsGrow(total, numSplit, index, numSplit);
    PartsGrow(total, numSplit, index + 1, numSplit);
    NextPart(total, numSplit, index);
  }

  lemma NextPart(total: nat, numSplit: nat, index: nat)
    requires numSplit > 0
    ensures PartStart(total, numSplit, index + 1) == PartStart(total, numSplit, index) + PartSize(total, numSplit,
                                                                                                  index)
  {
  }

  /** Where part `index` starts and how many assignments it has. */
  method GetStartAndTodo(total: nat, numSplit: nat, index: nat) returns (start: nat, toDo: nat)
    requires 0 <= index < numSplit
    ensures start == PartStart(total, numSplit, index) && toDo == PartSize(total, numSplit, index)
    ensures start + toDo <= total && (start < total <==> toDo > 0)
  {
    hide PartStart;
    PartStartIs(total, numSplit, index);
    PartWithin(total, numSplit, index);
    var div := total / numSplit;
    var rem := total % numSplit;
    if index < rem {
      toDo := div + 1;
      start := index * toDo;
    } else {
      toDo := div;
      start := rem * (div + 1) + (index - rem) * div;
    }
  }

  // ---------- The search object ----------

  class Search {
    const kind: Kind
    var total: nat
    var done: nat
    var first: nat
    var last: nat
    var assignment: seq<Lit>
    var indices: seq<nat>

    ghost predicate At(k: nat)
      reads this
      requires WellFormed(kind)
    {
      && assignment == Nth(kind, k)
      && (kind.Cartesian? ==> indices == Digits(Sizes(kind.sets), k))
    }

    /** The search stands at the assignment with index first + done. */
    ghost predicate Valid()
      reads this
    {
      && WellFormed(kind) && first + done < Count(kind) && At(first + done)
      && (total > 0 ==> done < total && first + total <= Count(kind) && last == first + total - 1)
    }

    ghost predicate Whole()
      reads this
    {
      Valid() && first == 0 && total == Count(kind)
    }

    /** All sign patterns of the given variables, starting with all of them positive. */
    constructor FullSearch(vars: seq<Var>)
      requires |vars| < 64
      ensures Whole() && done == 0 && kind == Full(vars)
    {
      kind := Full(vars);
      total, done, first, last := Pow2(|vars|), 0, 0, Pow2(|vars|) - 1;
      assignment := seq(|vars|, i requires 0 <= i < |vars| => Lit(vars[i], false));
      indices := [];
      new;
      ZeroPattern(vars);
    }

    static lemma {:induction false} ZeroBits(n: nat)
      ensures forall i :: 0 <= i < n ==> !Bits(0, n)[i]
    {
      if n > 0 {
        ZeroBits(n - 1);
      }
    }

    static lemma ZeroPattern(vars: seq<Var>)
      ensures Pattern(vars, 0) == seq(|vars|, i requires 0 <= i < |vars| => Lit(vars[i], false))
    {
      ZeroBits(|vars|);
    }

    /** All choices of one block from each set. */
    constructor CartesianSearch(sets: seq<seq<seq<Lit>>>)
      requires Uniform(sets)
      ensures Whole() && done == 0 && kind == Cartesian(sets)
    {
      kind := Cartesian(sets);
      total, done, first := Product(Sizes(sets)), 0, 0;
      last := if Product(Sizes(sets)) > 0 then Product(Sizes(sets)) - 1 else 0;
      indices := seq(|sets|, _ => 0);
      assignment := [];
      new;
      ZeroDigits(Sizes(sets));
      var length := JoinedSize(sets, indices);
      assignment := seq(length, _ => Lit(0, false));
      SetCur(0);
      ProductPositive(Sizes(sets));
    }

    static method JoinedSize(sets: seq<seq<seq<Lit>>>, ghost d: seq<nat>) returns (length: nat)
      requires Uniform(sets) && InRange(Sizes(sets), d)
      ensures length == |Joined(sets, d, |sets|)|
    {
      length := 0;
      for i := 0 to |sets|
        invariant length == |Joined(sets, d, i)|
      {
        assert d[i] < Sizes(sets)[i];
        length := length + |sets[i][0]|;
      }
    }

    static lemma {:induction false} ZeroDigits(r: seq<nat>)
      requires Positive(r)
      ensures Digits(r, 0) == seq(|r|, _ => 0)
    {
      if r != [] {
        ZeroDigits(r[..|r| - 1]);
        assert 0 / r[|r| - 1] == 0 && 0 % r[|r| - 1] == 0;
      }
    }

    constructor SingleSearch()
      ensures Whole() && done == 0 && kind == Single
    {
      kind := Single;
      total, done, first, last, assignment, indices := 1, 0, 0, 0, [], [];
    }

    // ---------- next_assignment and _set_assignment ----------

    /** Binary counting on the signs, in place: clears the leading signs that are set and sets the next one. */
    method NextAssignment(vars: seq<Var>, ghost k: nat)
      requires assignment == Pattern(vars, k)
      modifies this`assignment
      ensures assignment == Pattern(vars, k + 1)
    {
      hide Bits, Incremented;
      ghost var bits, a := Bits(k, |vars|), assignment;
      var pos := 0;
      while pos < |assignment| && assignment[pos].neg
        invariant 0 <= pos <= |assignment| == |a|
        invariant forall i :: 0 <= i < pos ==> bits[i] && assignment[i] == Lit(vars[i], false)
        invariant forall i :: pos <= i < |a| ==> assignment[i] == a[i]
      {
        assignment := assignment[pos := Neg(assignment[pos])];
        pos := pos + 1;
      }
      if pos < |assignment| {
        assignment := assignment[pos := Lit(assignment[pos].v, true)];
      }
      IncrementedPattern(vars, k, pos, assignment);
    }

    static lemma IncrementedPattern(vars: seq<Var>, k: nat, pos: nat, a: seq<Lit>)
      requires |a| == |vars| && pos <= |vars|
      requires forall i :: 0 <= i < pos ==> Bits(k, |vars|)[i] && a[i] == Lit(vars[i], false)
      requires pos < |vars| ==> !Bits(k, |vars|)[pos] && a[pos] == Lit(vars[pos], true)
      requires forall i :: pos < i < |vars| ==> a[i] == Lit(vars[i], Bits(k, |vars|)[i])
      ensures a == Pattern(vars, k + 1)
    {
      hide Bits, Incremented;
      var bits := Bits(k, |vars|);
      IncrementAdds(k, |vars|);
      var b := WithSigns(vars, Incremented(bits));
      forall i | 0 <= i < |vars|
        ensures a[i] == b[i]
      {
        IncrementedAt(bits, pos, i);
      }
    }

    /** Gives the variables the signs that the bits of value say. */
    method SetAssignment(vars: seq<Var>, value: nat)
      requires |assignment| == |vars| && forall i :: 0 <= i < |vars| ==> assignment[i].v == vars[i]
      modifies this`assignment
      ensures assignment == Pattern(vars, value)
    {
      var i := 0;
      while i < |assignment|
        invariant 0 <= i <= |assignment| == |vars|
        invariant forall j :: 0 <= j < i ==> assignment[j] == Lit(vars[j], Bit(value, j))
        invariant forall j :: i <= j < |vars| ==> assignment[j].v == vars[j]
      {
        assignment := assignment[i := Lit(assignment[i].v, Bit(value, i))];
        i := i + 1;
      }
      forall j | 0 <= j < |vars|
        ensures Bits(value, |vars|)[j] == Bit(value, j)
      {
        BitsAt(value, |vars|, j);
      }
    }

    // ---------- CartesianSearch ----------

    /** Writes the chosen blocks from that of set `from` on into the assignment; what precedes is already right. */
    method SetCur(from: nat)
      requires kind.Cartesian? && Uniform(kind.sets) && InRange(Sizes(kind.sets), indices) && from <= |indices|
      requires |assignment| == |Joined(kind.sets, indices, |indices|)|
      requires Joined(kind.sets, indices, from) <= assignment
      modifies this`assignment
      ensures assignment == Joined(kind.sets, indices, |indices|)
    {
      var sets := kind.sets;
      var offset := 0;
      for i := 0 to from
        invariant offset == |Joined(sets, indices, i)|
      {
        assert indices[i] < Sizes(sets)[i];
        offset := offset + |sets[i][indices[i]]|;
      }
      for i := from to |indices|
        invariant offset == |Joined(sets, indices, i)| && |assignment| == |Joined(sets, indices, |indices|)|
        invariant Joined(sets, indices, i) <= assignment
      {
        assert indices[i] < Sizes(sets)[i];
        var block := sets[i][indices[i]];
        JoinedPrefix(sets, indices, i + 1, |indices|);
        WriteBlock(offset, block, Joined(sets, indices, i));
        offset := offset + |block|;
      }
    }

    /** Writes a block at the given offset, behind what is already right. */
    method WriteBlock(offset: nat, block: seq<Lit>, ghost front: seq<Lit>)
      requires offset == |front| && offset + |block| <= |assignment| && front <= assignment
      modifies this`assignment
      ensures |assignment| == old(|assignment|) && front + block <= assignment
    {
      ghost var before := assignment;
      for j := 0 to |block|
        invariant |assignment| == |before| && assignment[..offset + j] == front + block[..j]
      {
        assignment := assignment[offset + j := block[j]];
        assert assignment[..offset + (j + 1)] == assignment[..offset + j] + [block[j]];
      }
    }

    /** The mixed-radix digits of the first index, and the blocks they choose. */
    method ResetCartesian()
      requires kind.Cartesian? && Uniform(kind.sets) && |indices| == |kind.sets|
      requires InRange(Sizes(kind.sets), indices) && |assignment| == |Joined(kind.sets, indices, |indices|)|
      modifies this`assignment, this`indices
      ensures At(first)
    {
      ghost var before := indices;
      ComputeDigits(kind.sets);
      JoinedLength(kind.sets, before, indices, |kind.sets|);
      SetCur(0);
    }

    method ComputeDigits(sets: seq<seq<seq<Lit>>>)
      requires Positive(Sizes(sets)) && |indices| == |sets|
      modifies this`indices
      ensures indices == Digits(Sizes(sets), first)
    {
      hide Digits;
      ghost var r := Sizes(sets);
      var tmpFirst: nat := first;
      var i := |indices|;
      assert r[..i] == r && Digits(r[..i], tmpFirst) + indices[i..] == Digits(r, first);
      while i > 0
        invariant 0 <= i <= |indices| == |r|
        invariant Positive(r[..i]) && Digits(r, first) == Digits(r[..i], tmpFirst) + indices[i..]
      {
        i := i - 1;
        LastDigit(r, i, tmpFirst);
        ghost var before := indices;
        indices := indices[i := tmpFirst % |sets[i]|];
        tmpFirst := tmpFirst / |sets[i]|;
        assert indices[i..] == [indices[i]] + before[i + 1..];
      }
    }

    static lemma LastDigit(r: seq<nat>, i: nat, k: nat)
      requires i < |r| && Positive(r[..i + 1])
      ensures r[i] > 0 && Positive(r[..i])
      ensures Digits(r[..i + 1], k) == Digits(r[..i], k / r[i]) + [k % r[i]]
    {
      assert r[..i + 1][i] == r[i] && r[..i + 1][..i] == r[..i];
      assert forall j :: 0 <= j < i ==> r[..i][j] == r[..i + 1][j];
    }

    /** Counts the mixed-radix number up by one and rewrites the blocks from the one that changed. */
    method AdvanceCartesian(ghost k: nat)
      requires kind.Cartesian? && Uniform(kind.sets) && At(k)
      modifies this`assignment, this`indices
      ensures At(k + 1)
    {
      var sets := kind.sets;
      ghost var d := indices;
      var index := IncrementDigits(sets);
      NextDigitsAdds(Sizes(sets), k);
      var from := if index >= 0 then index else 0;
      JoinedSame(sets, d, indices, from);
      JoinedPrefix(sets, d, from, |sets|);
      JoinedLength(sets, d, indices, |sets|);
      SetCur(from);
    }

    /** The digits of the next index, in place; everything before the returned position is unchanged. */
    method IncrementDigits(sets: seq<seq<seq<Lit>>>) returns (index: int)
      requires InRange(Sizes(sets), indices)
      modifies this`indices
      ensures indices == NextDigits(Sizes(sets), old(indices)) && -1 <= index < |indices|
      ensures index >= 0 ==> indices[..index] == old(indices)[..index]
    {
      hide NextDigits;
      ghost var r, d := Sizes(sets), indices;
      index := |indices| - 1;
      while index >= 0 && indices[index] + 1 == |sets[index]|
        invariant -1 <= index < |indices| == |d|
        invariant indices[..index + 1] == d[..index + 1]
        invariant forall i :: index < i < |d| ==> indices[i] == 0 && d[i] + 1 == r[i]
      {
        assert indices[index] == indices[..index + 1][index] == d[index];
        indices := indices[index := 0];
        assert indices[..index] == d[..index + 1][..index];
        index := index - 1;
      }
      NextDigitsAt(r, d, index + 1);
      if index >= 0 {
        assert indices[index] == indices[..index + 1][index] == d[index];
        indices := indices[index := indices[index] + 1];
        assert indices[..index] == d[..index + 1][..index] == d[..index];
      }
      assert indices == NextDigits(r, d);
    }

    // ---------- operator++, split_search ----------

    method Advance(ghost k: nat)
      requires WellFormed(kind) && At(k)
      modifies this`assignment, this`indices
      ensures At(k + 1)
    {
      match kind
      case Full(vars) => NextAssignment(vars, k);
      case Cartesian(_) => AdvanceCartesian(k);
      case Single =>
    }

    method Reset()
      requires WellFormed(kind) && exists k :: At(k)
      modifies this`assignment, this`indices
      ensures At(first)
    {
      match kind
      case Full(vars) => SetAssignment(vars, first);
      case Cartesian(sets) => ResetCartesian();
      case Single =>
    }

    /** operator++: false once the last assignment has been reached. */
    method Next() returns (more: bool)
      requires Valid()
      modifies this`assignment, this`indices, this`done
      ensures Valid() && more == (total > 0 && old(done) < total - 1)
      ensures done == if more then old(done) + 1 else old(done)
    {
      if total == 0 || done == total - 1 {
        return false;
      }
      Advance(first + done);
      done := done + 1;
      return true;
    }

    /** A copy to be split: a full search is copied as it stands, a product search starts over. */
    constructor Clone(other: Search)
      requires other.Valid()
      ensures Valid() && kind == other.kind
      ensures total == if other.kind.Cartesian? then Count(kind) else other.total
      ensures first + done == if other.kind.Cartesian? then 0 else other.first + other.done
    {
      hide Digits, Joined, Pattern, Product, Pow2, Uniform;
      kind := other.kind;
      total, done, first, last := other.total, other.done, other.first, other.last;
      assignment, indices := other.assignment, other.indices;
      new;
      if kind.Cartesian? {
        total, done, first, last := Product(Sizes(kind.sets)), 0, 0, Product(Sizes(kind.sets)) - 1;
        CountPositive(kind);
        ResetCartesian();
      }
    }

    /** Part `index` of an unsplit search: assignments start .. start + toDo of it, or none if there are more parts than
        assignments. A part without assignments stands where the copy does. */
    method SplitSearch(numSplit: nat, index: nat) returns (part: Search)
      requires Whole() && 0 <= index < numSplit
      ensures fresh(part) && part.Valid() && part.kind == kind && part.total == PartSize(total, numSplit, index)
      ensures part.total > 0 ==> part.first == PartStart(total, numSplit, index) && part.done == 0
      ensures part.total == 0 ==> part.first + part.done == if kind.Cartesian? then 0 else done
    {
      hide Digits, Joined, Pattern, Product, Pow2, Uniform, PartSize, PartStart;
      part := new Search.Clone(this);
      var start, toDo := GetStartAndTodo(total, numSplit, index);
      ghost var k0 := part.first + part.done;
      if start < total {
        part.first := start;
        part.last := start + toDo - 1;
        part.done := 0;
        part.total := toDo;
        assert part.At(k0);
        part.Reset();
      } else {
        part.total := 0;
      }
    }
  }
}
