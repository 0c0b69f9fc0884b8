/** What the calls of the clause queue return, and that a call running alone returns at all. */
module Calling {
  import opened Sharing
  import opened Buffering

  /** A state of the queue with all calls made and everything returned so far. */
  datatype Log = Log(s: State, calls: seq<Command>, returned: seq<Outcome>)

  /** A step of thread i, recording the call it begins or the outcome it returns. */
  function LogStep(l: Log, i: nat, cmd: Command): Log
    requires i < |l.s.threads|
  {
    var s' := Step(l.s, i, cmd);
    if l.s.threads[i].Idle? then Log(s', l.calls + [cmd], l.returned)
    else if s'.threads[i].Idle? then Log(s', l.calls, l.returned + [s'.threads[i].last])
    else Log(s', l.calls, l.returned)
  }

  function LogRun(dummy: ClauseExchange, n: nat, schedule: seq<(nat, Command)>): (l: Log)
    requires forall k :: 0 <= k < |schedule| ==> schedule[k].0 < n
    ensures l.s == Run(dummy, n, schedule)
  {
    if schedule == [] then Log(Initial(dummy, n), [], [])
    else
      var (i, cmd) := schedule[|schedule| - 1];
      LogStep(LogRun(dummy, n, schedule[..|schedule| - 1]), i, cmd)
  }

  // ---------- What has been asked, and what has been answered ----------

  function One(b: bool): nat {
    if b then 1 else 0
  }

  /** How often addClause has been called with c. */
  function Asked(calls: seq<Command>, c: ClauseExchange): nat {
    if calls == [] then 0 else Asked(calls[..|calls| - 1], c) + One(calls[|calls| - 1] == Add(c))
  }

  /** How often o has been returned. */
  function Times(returned: seq<Outcome>, o: Outcome): nat {
    if returned == [] then 0 else Times(returned[..|returned| - 1], o) + One(returned[|returned| - 1] == o)
  }

  /** How often getClause has been called. */
  function Gets(calls: seq<Command>): nat {
    if calls == [] then 0 else Gets(calls[..|calls| - 1]) + One(calls[|calls| - 1].Get?)
  }

  /** How many calls of getClause have returned, with a clause or without. */
  function Answered(returned: seq<Outcome>): nat {
    if returned == [] then 0 else Answered(returned[..|returned| - 1]) + One(IsAnswer(returned[|returned| - 1]))
  }

  predicate IsAnswer(o: Outcome) {
    o.Got? || o.Failed?
  }

  // ---------- What the threads hold in the middle of their calls ----------

  /** What a thread may be doing with a clause: adding it, having linked it or taken it without having returned. */
  datatype Kind = Adding | Linked | Taken | Asking

  function Holds(kind: Kind, q: Queue, th: Thread, c: ClauseExchange): bool {
    match kind
    case Adding => IsAdding(th) && th.node < |q.nodes| && q.nodes[th.node].clause == c
    case Linked => (th.AddCount? || th.AddSwing?) && th.node < |q.nodes| && q.nodes[th.node].clause == c
    case Taken => th == GetCount(c)
    case Asking => !th.Idle? && !IsAdding(th)
  }

  /** How many threads are doing so. */
  function Holders(kind: Kind, q: Queue, threads: seq<Thread>, c: ClauseExchange): nat {
    if threads == [] then 0 else One(Holds(kind, q, threads[0], c)) + Holders(kind, q, threads[1..], c)
  }

  lemma {:induction false} HoldersUpdate(kind: Kind, q: Queue, q': Queue, threads: seq<Thread>, i: nat, th: Thread,
                                         c: ClauseExchange)
    requires i < |threads|
    requires forall j :: 0 <= j < |threads| && j != i ==>
                   Holds(kind, q', threads[j], c) == Holds(kind, q, threads[j], c)
    ensures Holders(kind, q', threads[i := th], c) + One(Holds(kind, q, threads[i], c))
         == Holders(kind, q, threads, c) + One(Holds(kind, q', th, c))
  {
    hide Holds;
    var rest := threads[1..];
    assert forall j :: 0 <= j < |rest| ==> rest[j] == threads[j + 1];
    if i == 0 {
      assert threads[0 := th][1..] == rest;
      HoldersSame(kind, q, q', rest, c);
    } else {
      assert threads[i := th][1..] == rest[i - 1 := th];
      HoldersUpdate(kind, q, q', rest, i - 1, th, c);
    }
  }

  lemma {:induction false} HoldersSame(kind: Kind, q: Queue, q': Queue, threads: seq<Thread>, c: ClauseExchange)
    requires forall j :: 0 <= j < |threads| ==> Holds(kind, q', threads[j], c) == Holds(kind, q, threads[j], c)
    ensures Holders(kind, q', threads, c) == Holders(kind, q, threads, c)
  {
    if threads != [] {
      HoldersSame(kind, q, q', threads[1..], c);
    }
  }

  /** The node of an adding thread exists. */
  lemma NodeInside(q: Queue, th: Thread)
    requires Chain(q) && ThreadOk(q, th) && IsAdding(th)
    ensures th.node < |q.nodes|
  {
    hide Chain, LinkedBy;
    if th.AddCount? || th.AddSwing? {
      SuccessorInside(q, th.tail, th.node);
    }
  }

  // ---------- The accounts ----------

  /** For each clause: the calls made are those that have returned and those under way. */
  ghost predicate Accounts(l: Log, c: ClauseExchange) {
    && Asked(l.calls, c) == Times(l.returned, Added(c)) + Holders(Adding, l.s.q, l.s.threads, c)
    && multiset(l.s.q.enqueued)[c] == Times(l.returned, Added(c)) + Holders(Linked, l.s.q, l.s.threads, c)
    && multiset(l.s.q.dequeued)[c] == Times(l.returned, Got(c)) + Holders(Taken, l.s.q, l.s.threads, c)
    && Gets(l.calls) == Answered(l.returned) + Holders(Asking, l.s.q, l.s.threads, c)
  }

  /** No call returns without an outcome, and getClause fails on an empty queue only. */
  ghost predicate Sincere(returned: seq<Outcome>) {
    forall k :: 0 <= k < |returned| ==> !returned[k].Nothing? && returned[k] != Failed(false)
  }

  /** What a step that turns th into th' does to what the thread holds, its outcome being o if it returns. */
  ghost predicate Balanced(q: Queue, th: Thread, q': Queue, th': Thread, c: ClauseExchange) {
    var o := if th'.Idle? then th'.last else Nothing;
    && One(Holds(Adding, q, th, c)) == One(Holds(Adding, q', th', c)) + One(o == Added(c))
    && One(Holds(Linked, q, th, c)) + multiset(q'.enqueued)[c]
       == One(Holds(Linked, q', th', c)) + One(o == Added(c)) + multiset(q.enqueued)[c]
    && One(Holds(Taken, q, th, c)) + multiset(q'.dequeued)[c]
       == One(Holds(Taken, q', th', c)) + One(o == Got(c)) + multiset(q.dequeued)[c]
    && One(Holds(Asking, q, th, c)) == One(Holds(Asking, q', th', c)) + One(IsAnswer(o))
    && (th'.Idle? ==> !o.Nothing? && o != Failed(false))
  }

  lemma AddBalanced(q: Queue, th: Thread, c: ClauseExchange)
    requires Chain(q) && ThreadOk(q, th) && IsAdding(th)
    ensures Balanced(q, th, AddStep(q, th).0, AddStep(q, th).1, c)
  {
    hide Chain, LinkedBy, Follows, Owned, CasTail, Balanced, AddStep;
    NodeInside(q, th);
    if th.AddLink? {
      LinkBalanced(q, th, c);
    } else {
      SameNodes(q, th);
      QuietBalanced(q, th, AddStep(q, th).0, AddStep(q, th).1, c);
    }
  }

  lemma LinkBalanced(q: Queue, th: Thread, c: ClauseExchange)
    requires Chain(q) && ThreadOk(q, th) && th.AddLink? && th.node < |q.nodes|
    ensures Balanced(q, th, AddStep(q, th).0, AddStep(q, th).1, c)
  {
    hide Chain, LinkedBy, Follows, Owned;
    LinkedInside(q, th.tail, q.tailPos);
    var q' := AddStep(q, th).0;
    assert q'.nodes[th.node].clause == q.nodes[th.node].clause;
    if q.nodes[th.tail].next == NULL {
      assert q'.enqueued == q.enqueued + [q.nodes[th.node].clause];
    }
  }

  /** The other steps of addClause leave the nodes and the history alone. */
  lemma SameNodes(q: Queue, th: Thread)
    requires IsAdding(th) && !th.AddLink? && th.node < |q.nodes|
    ensures var (q', th') := AddStep(q, th);
      && q'.nodes == q.nodes && q'.enqueued == q.enqueued && q'.dequeued == q.dequeued
      && (if th.AddSwing? then th' == Idle(Added(q.nodes[th.node].clause))
          else IsAdding(th') && th'.node == th.node && (th.AddCount? <==> th'.AddSwing?) && !th'.AddCount?)
  {
  }

  lemma QuietBalanced(q: Queue, th: Thread, q': Queue, th': Thread, c: ClauseExchange)
    requires IsAdding(th) && !th.AddLink? && th.node < |q.nodes|
    requires q'.nodes == q.nodes && q'.enqueued == q.enqueued && q'.dequeued == q.dequeued
    requires if th.AddSwing? then th' == Idle(Added(q.nodes[th.node].clause))
             else IsAdding(th') && th'.node == th.node && (th.AddCount? <==> th'.AddSwing?) && !th'.AddCount?
    ensures Balanced(q, th, q', th', c)
  {
    hide Holds, IsAdding;
    AddingHolds(q, th, c);
    if th.AddSwing? {
      IdleHolds(q', th', c);
    } else {
      AddingHolds(q', th', c);
    }
  }

  lemma AddingHolds(q: Queue, th: Thread, c: ClauseExchange)
    requires IsAdding(th) && th.node < |q.nodes|
    ensures Holds(Adding, q, th, c) == (q.nodes[th.node].clause == c)
    ensures Holds(Linked, q, th, c) == ((th.AddCount? || th.AddSwing?) && q.nodes[th.node].clause == c)
    ensures !Holds(Taken, q, th, c) && !Holds(Asking, q, th, c) && !th.Idle?
  {
  }

  lemma IdleHolds(q: Queue, th: Thread, c: ClauseExchange)
    requires th.Idle?
    ensures forall kind :: !Holds(kind, q, th, c)
  {
  }

  lemma GetBalanced(q: Queue, th: Thread, c: ClauseExchange)
    requires Chain(q) && ThreadOk(q, th) && !IsAdding(th) && !th.Idle?
    ensures Balanced(q, th, GetStep(q, th).0, GetStep(q, th).1, c)
  {
    hide Chain, LinkedBy, LinkedBefore, NotAfter, Follows, Content, Holds;
    var (q', th') := GetStep(q, th);
    AskingHolds(q, th, c);
    if th'.Idle? {
      IdleHolds(q', th', c);
    } else {
      AskingHolds(q', th', c);
    }
  }

  lemma AskingHolds(q: Queue, th: Thread, c: ClauseExchange)
    requires !IsAdding(th) && !th.Idle?
    ensures !Holds(Adding, q, th, c) && !Holds(Linked, q, th, c)
    ensures Holds(Taken, q, th, c) == (th == GetCount(c)) && Holds(Asking, q, th, c)
  {
  }

  lemma StepBalanced(s: State, i: nat, cmd: Command, c: ClauseExchange)
    requires Inv(s) && i < |s.threads| && !s.threads[i].Idle?
    ensures Balanced(s.q, s.threads[i], Step(s, i, cmd).q, Step(s, i, cmd).threads[i], c)
  {
    hide Chain, Fifo, Counted, Apart, Attended, ThreadOk, Balanced, AddStep, GetStep;
    assert ThreadOk(s.q, s.threads[i]);
    if IsAdding(s.threads[i]) {
      AddBalanced(s.q, s.threads[i], c);
    } else {
      GetBalanced(s.q, s.threads[i], c);
    }
  }

  lemma StepThreads(s: State, i: nat, cmd: Command)
    requires Inv(s) && i < |s.threads|
    ensures Step(s, i, cmd).threads == s.threads[i := Step(s, i, cmd).threads[i]] && Grows(s.q, Step(s, i, cmd).q)
  {
    hide Chain, Fifo, Counted, Apart, Attended, ThreadOk, Grows;
    assert ThreadOk(s.q, s.threads[i]);
    if s.threads[i].Idle? {
      StartKeeps(s.q, s.threads[i], if cmd.Add? then cmd.c else ClauseExchange(0, []));
    } else {
      ThreadKeeps(s.q, s.threads[i]);
    }
  }

  /** Nodes keep their clauses, so what the other threads hold stays the same. */
  lemma OthersHold(kind: Kind, s: State, i: nat, cmd: Command, c: ClauseExchange)
    requires Inv(s) && i < |s.threads|
    ensures forall j :: 0 <= j < |s.threads| && j != i ==>
              Holds(kind, Step(s, i, cmd).q, s.threads[j], c) == Holds(kind, s.q, s.threads[j], c)
  {
    hide Chain, Fifo, Counted, Apart, Attended, ThreadOk, Step;
    StepThreads(s, i, cmd);
    forall j | 0 <= j < |s.threads| && j != i
      ensures Holds(kind, Step(s, i, cmd).q, s.threads[j], c) == Holds(kind, s.q, s.threads[j], c)
    {
      assert ThreadOk(s.q, s.threads[j]);
      if IsAdding(s.threads[j]) {
        NodeInside(s.q, s.threads[j]);
      }
    }
  }

  /** A call begins: the thread holds what it is to add. */
  lemma BeginHolds(s: State, i: nat, cmd: Command, c: ClauseExchange)
    requires i < |s.threads| && s.threads[i].Idle?
    ensures var th, s' := s.threads[i], Step(s, i, cmd);
      var th' := s'.threads[i];
      && !th'.Idle? && s'.q.enqueued == s.q.enqueued && s'.q.dequeued == s.q.dequeued
      && Holds(Adding, s'.q, th', c) == (cmd == Add(c)) && Holds(Asking, s'.q, th', c) == cmd.Get?
      && !Holds(Linked, s'.q, th', c) && !Holds(Taken, s'.q, th', c) && forall kind :: !Holds(kind, s.q, th, c)
  {
  }

  lemma CallsGrow(calls: seq<Command>, cmd: Command, c: ClauseExchange)
    ensures Asked(calls + [cmd], c) == Asked(calls, c) + One(cmd == Add(c))
    ensures Gets(calls + [cmd]) == Gets(calls) + One(cmd.Get?)
  {
    assert (calls + [cmd])[..|calls|] == calls;
  }

  lemma ReturnsGrow(returned: seq<Outcome>, o: Outcome)
    ensures forall o' :: Times(returned + [o], o') == Times(returned, o') + One(o == o')
    ensures Answered(returned + [o]) == Answered(returned) + One(IsAnswer(o))
  {
    assert (returned + [o])[..|returned|] == returned;
  }

  lemma LogStepAccounts(l: Log, i: nat, cmd: Command, c: ClauseExchange)
    requires Inv(l.s) && Accounts(l, c) && Sincere(l.returned) && i < |l.s.threads|
    ensures Accounts(LogStep(l, i, cmd), c) && Sincere(LogStep(l, i, cmd).returned)
  {
    hide Inv, Holds, Step, Asked, Times, Gets, Answered, Holders;
    var l' := LogStep(l, i, cmd);
    StepThreads(l.s, i, cmd);
    var th' := l'.s.threads[i];
    forall kind
      ensures Holders(kind, l'.s.q, l'.s.threads, c) + One(Holds(kind, l.s.q, l.s.threads[i], c))
           == Holders(kind, l.s.q, l.s.threads, c) + One(Holds(kind, l'.s.q, th', c))
    {
      OthersHold(kind, l.s, i, cmd, c);
      HoldersUpdate(kind, l.s.q, l'.s.q, l.s.threads, i, th', c);
    }
    if l.s.threads[i].Idle? {
      BeginHolds(l.s, i, cmd, c);
      CallsGrow(l.calls, cmd, c);
    } else {
      StepBalanced(l.s, i, cmd, c);
      if th'.Idle? {
        ReturnsGrow(l.returned, th'.last);
      }
    }
  }

  lemma {:induction false} NothingHeld(kind: Kind, q: Queue, threads: seq<Thread>, c: ClauseExchange)
    requires forall i :: 0 <= i < |threads| ==> threads[i].Idle?
    ensures Holders(kind, q, threads, c) == 0
  {
    if threads != [] {
      NothingHeld(kind, q, threads[1..], c);
    }
  }

  /** In every interleaving, for every clause: what addClause has been called with is what it has returned from, and
      what threads are adding; what has entered the queue is what addClause has returned from, and what threads have
      linked; what has left the queue is what getClause has returned, and what threads have taken. No call is lost, and
      none returns empty-handed unless the queue was empty. */
  lemma {:induction false} EveryCall(dummy: ClauseExchange, n: nat, schedule: seq<(nat, Command)>, c: ClauseExchange)
    requires forall k :: 0 <= k < |schedule| ==> schedule[k].0 < n
    ensures Accounts(LogRun(dummy, n, schedule), c) && Sincere(LogRun(dummy, n, schedule).returned)
  {
    hide Inv, Holders;
    if schedule == [] {
      var s := Initial(dummy, n);
      forall kind
        ensures Holders(kind, s.q, s.threads, c) == 0
      {
        NothingHeld(kind, s.q, s.threads, c);
      }
    } else {
      var front := schedule[..|schedule| - 1];
      EveryCall(dummy, n, front, c);
      RunInv(dummy, n, front);
      LogStepAccounts(LogRun(dummy, n, front), schedule[|schedule| - 1].0, schedule[|schedule| - 1].1, c);
    }
  }

  /** Once every call has returned, each clause has been added as often as asked, and that often it has been got or is
      still in the queue. */
  lemma AllReturned(dummy: ClauseExchange, n: nat, schedule: seq<(nat, Command)>, c: ClauseExchange)
    requires forall k :: 0 <= k < |schedule| ==> schedule[k].0 < n
    requires forall i :: 0 <= i < n ==> Run(dummy, n, schedule).threads[i].Idle?
    ensures var l := LogRun(dummy, n, schedule);
      && Asked(l.calls, c) == Times(l.returned, Added(c)) == Times(l.returned, Got(c)) + multiset(Content(l.s.q))[c]
      && Gets(l.calls) == Answered(l.returned)
  {
    hide Chain, Counted, Apart, Attended, ThreadOk, Content, Holders, Asked, Times, Gets, Answered;
    EveryCall(dummy, n, schedule, c);
    RunInv(dummy, n, schedule);
    var l := LogRun(dummy, n, schedule);
    forall kind
      ensures Holders(kind, l.s.q, l.s.threads, c) == 0
    {
      NothingHeld(kind, l.s.q, l.s.threads, c);
    }
    assert multiset(l.s.q.enqueued) == multiset(l.s.q.dequeued) + multiset(Content(l.s.q));
  }

  // ---------- A thread that runs alone ----------

  /** How many steps of addClause are left at most, if no other thread moves. */
  function AddLeft(q: Queue, th: Thread): nat {
    var again := if q.tailPos == |q.order| - 1 then 6 else 10;
    match th
    case AddReadTail(_) => again
    case AddReadNext(_, tail) => if tail == q.tail then again - 1 else again + 2
    case AddCheck(_, tail, next) =>
      if tail != q.tail then again + 1 else if next == NextOf(q, tail) then again - 2 else again + 2
    case AddLink(_, tail) => if NextOf(q, tail) == NULL then 3 else again + 1
    case AddHelp(_, tail, _) => if tail == q.tail then 7 else again + 1
    case AddCount(_, _) => 2
    case AddSwing(_, _) => 1
    case _ => 0
  }

  /** The same for getClause. */
  function GetLeft(q: Queue, th: Thread): nat {
    var again := if q.headPos < q.tailPos then 7 else if q.tailPos == |q.order| - 1 then 4 else 12;
    match th
    case GetReadHead => again
    case GetReadTail(head) => if head == q.head then again - 1 else again + 3
    case GetReadNext(head, tail) =>
      if head != q.head then again + 2 else if tail == q.tail then again - 2 else again + 3
    case GetCheck(head, tail, next, _) =>
      if head != q.head then again + 1
      else if head != tail then 4
      else if next == NULL then 1
      else if tail == q.tail then 9 else again + 2
    case GetHelp(tail, _) => if tail == q.tail then 8 else again + 1
    case GetReadClause(head, _) => if head == q.head then 3 else again + 2
    case GetTake(head, _, _) => if head == q.head then 2 else again + 1
    case GetCount(_) => 1
    case _ => 0
  }

  lemma AddLess(q: Queue, th: Thread)
    requires Chain(q) && ThreadOk(q, th) && IsAdding(th)
    ensures AddLeft(AddStep(q, th).0, AddStep(q, th).1) < AddLeft(q, th)
    ensures IsAdding(AddStep(q, th).1) || AddStep(q, th).1.Idle?
  {
    hide Once;
    NodeInside(q, th);
    HasNext(q);
  }

  lemma GetLess(q: Queue, th: Thread)
    requires Chain(q) && ThreadOk(q, th) && !IsAdding(th) && !th.Idle?
    ensures GetLeft(GetStep(q, th).0, GetStep(q, th).1) < GetLeft(q, th)
    ensures !IsAdding(GetStep(q, th).1)
  {
    hide Chain, LinkedBy, LinkedBefore, NotAfter, Content, Follows;
    if th.GetReadClause? {
      NextInside(q, th.head, th.next);
    } else if th.GetReadNext? {
      NextReadLess(q, th);
    } else if th.GetHelp? {
      HelpLess(q, th);
    }
    HeadEnds(q);
  }

  /** Where head and tail stand with respect to each other and to the last node. */
  lemma HeadEnds(q: Queue)
    requires Chain(q)
    ensures q.headPos <= q.tailPos && |q.order| - 2 <= q.tailPos < |q.order|
    ensures q.head == q.tail <==> q.headPos == q.tailPos
    ensures q.head == q.tail ==> (NextOf(q, q.head) == NULL <==> q.tailPos == |q.order| - 1)
  {
    HasNext(q);
  }

  lemma NextReadLess(q: Queue, th: Thread)
    requires Chain(q) && ThreadOk(q, th) && th.GetReadNext?
    ensures GetLeft(GetStep(q, th).0, GetStep(q, th).1) < GetLeft(q, th)
  {
    hide Chain, LinkedBy, LinkedBefore, NotAfter, Content;
    HeadEnds(q);
  }

  lemma HelpLess(q: Queue, th: Thread)
    requires Chain(q) && ThreadOk(q, th) && th.GetHelp?
    ensures GetLeft(GetStep(q, th).0, GetStep(q, th).1) < GetLeft(q, th)
  {
    hide Chain, LinkedBy;
    HeadEnds(q);
  }

  /** At most k steps of thread i, until its call returns. */
  function Solo(s: State, i: nat, k: nat): (s': State)
    requires i < |s.threads|
    ensures |s'.threads| == |s.threads|
    decreases k
  {
    if k == 0 || s.threads[i].Idle? then s else Solo(Step(s, i, Get), i, k - 1)
  }

  /** addClause, running alone from any state it may have been left in, returns and has appended its clause once. */
  lemma {:induction false} SoloAdd(s: State, i: nat, k: nat)
    requires Inv(s) && i < |s.threads| && IsAdding(s.threads[i]) && AddLeft(s.q, s.threads[i]) <= k
    ensures var th, s' := s.threads[i], Solo(s, i, k);
      && th.node < |s.q.nodes| && Inv(s') && s'.threads[i] == Idle(Added(s.q.nodes[th.node].clause))
      && Content(s'.q) == if th.AddCount? || th.AddSwing? then Content(s.q)
                          else Content(s.q) + [s.q.nodes[th.node].clause]
    decreases k
  {
    hide Chain, Fifo, Counted, Apart, Attended, ThreadOk, Content, AddLeft;
    var th, s1 := s.threads[i], Step(s, i, Get);
    assert ThreadOk(s.q, th);
    AddLess(s.q, th);
    NodeInside(s.q, th);
    StepKeepsInv(s, i, Get);
    StepRefines(s, i, Get);
    StepThreads(s, i, Get);
    AddMoves(s.q, th);
    if IsAdding(s1.threads[i]) {
      SoloAdd(s1, i, k - 1);
    }
  }

  lemma AddMoves(q: Queue, th: Thread)
    requires Chain(q) && ThreadOk(q, th) && IsAdding(th) && th.node < |q.nodes|
    ensures var th' := AddStep(q, th).1;
      && (th.AddSwing? ==> th' == Idle(Added(q.nodes[th.node].clause))) && (th.AddCount? ==> th'.AddSwing?)
      && (!th.AddSwing? ==> IsAdding(th') && th'.node == th.node)
      && (!th.AddSwing? && !th.AddCount? ==> !th'.AddSwing? && (th'.AddCount? ==> th.AddLink?))
  {
    hide Chain, LinkedBy, Follows, Owned;
  }

  /** Between the reads of getClause nothing has changed. */
  ghost predicate Fresh(q: Queue, th: Thread) {
    th.GetCheck? ==> th.next == NextOf(q, th.head)
  }

  /** getClause, running alone, returns the first clause and takes it off, or finds the queue empty. */
  lemma {:induction false} SoloGet(s: State, i: nat, k: nat)
    requires Inv(s) && i < |s.threads| && !s.threads[i].Idle? && !IsAdding(s.threads[i]) && Fresh(s.q, s.threads[i])
    requires GetLeft(s.q, s.threads[i]) <= k
    ensures var th, s' := s.threads[i], Solo(s, i, k);
      && Inv(s') && s'.threads[i].Idle?
      && (if th.GetCount? then s'.threads[i].last == Got(th.clause) && Content(s'.q) == Content(s.q)
          else if Content(s.q) == [] then s'.threads[i].last == Failed(true) && Content(s'.q) == []
          else s'.threads[i].last.Got? && Content(s.q) == [s'.threads[i].last.c] + Content(s'.q))
    decreases k
  {
    hide Chain, Fifo, Counted, Apart, Attended, ThreadOk, Content, GetLeft;
    var th, s1 := s.threads[i], Step(s, i, Get);
    assert ThreadOk(s.q, th);
    GetLess(s.q, th);
    StepKeepsInv(s, i, Get);
    StepRefines(s, i, Get);
    StepThreads(s, i, Get);
    GetMoves(s.q, th);
    if !s1.threads[i].Idle? {
      SoloGet(s1, i, k - 1);
    }
  }

  lemma GetMoves(q: Queue, th: Thread)
    requires Chain(q) && ThreadOk(q, th) && !th.Idle? && !IsAdding(th) && Fresh(q, th)
    ensures var th', q' := GetStep(q, th).1, GetStep(q, th).0;
      && (th.GetCount? ==> th' == Idle(Got(th.clause))) && Fresh(q', th')
      && (th'.GetCount? ==> th.GetTake?)
      && (!th.GetCount? && th'.Idle? ==> th' == Idle(Failed(true)) && Content(q) == [])
  {
    hide Chain, LinkedBy, LinkedBefore, NotAfter, Follows, Content;
    if th.GetCheck? {
      NextRead(q, th.head, th.tail);
    }
  }

  /** No call waits for another thread: running alone, each returns within fifteen steps. */
  lemma NoneWaits(s: State, i: nat)
    requires Inv(s) && i < |s.threads|
    ensures Solo(s, i, 15).threads[i].Idle?
  {
    hide Chain, Fifo, Counted, Apart, Attended, ThreadOk;
    if IsAdding(s.threads[i]) {
      SoloAdd(s, i, 15);
    } else if !s.threads[i].Idle? {
      SoloEnds(s, i, 15);
    }
  }

  lemma {:induction false} SoloEnds(s: State, i: nat, k: nat)
    requires Inv(s) && i < |s.threads| && !s.threads[i].Idle? && !IsAdding(s.threads[i])
    requires GetLeft(s.q, s.threads[i]) <= k
    ensures Solo(s, i, k).threads[i].Idle?
    decreases k
  {
    hide Chain, Fifo, Counted, Apart, Attended, ThreadOk, GetLeft;
    assert ThreadOk(s.q, s.threads[i]);
    GetLess(s.q, s.threads[i]);
    StepKeepsInv(s, i, Get);
    StepThreads(s, i, Get);
    if !Step(s, i, Get).threads[i].Idle? {
      SoloEnds(Step(s, i, Get), i, k - 1);
    }
  }
}
