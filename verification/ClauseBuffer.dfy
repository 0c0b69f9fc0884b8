/** The lock-free clause queue: producers and consumers interleave at single atomic reads and compare-and-swaps. */
module Buffering {
  import opened Sharing

  /** The number of a node, or -1 for a null pointer. */
  type Pointer = p: int | p >= -1

  const NULL: Pointer := -1

  /** A list element; elements are numbered in the order of their allocation, and numbers are never reused. */
  datatype Node = Node(clause: ClauseExchange, next: Pointer)

  /** What a call has returned. */
  datatype Outcome = Nothing | Added(c: ClauseExchange) | Got(c: ClauseExchange) | Failed(wasEmpty: bool)

  /** Where a thread stands, with its local variables; each name says what the thread does next. A thread that would
      dereference a null pointer is stuck. In GetCheck,
      wasEmpty records whether the queue was empty when next was read. */
  datatype Thread =
    | Idle(last: Outcome)
    | AddReadTail(node: nat)
    | AddReadNext(node: nat, tail: nat)
    | AddCheck(node: nat, tail: nat, next: Pointer)
    | AddLink(node: nat, tail: nat)
    | AddHelp(node: nat, tail: nat, succ: nat)
    | AddCount(node: nat, tail: nat)
    | AddSwing(node: nat, tail: nat)
    | GetReadHead
    | GetReadTail(head: nat)
    | GetReadNext(head: nat, tail: nat)
    | GetCheck(head: nat, tail: nat, next: Pointer, wasEmpty: bool)
    | GetHelp(tail: nat, succ: nat)
    | GetReadClause(head: nat, next: Pointer)
    | GetTake(head: nat, succ: nat, clause: ClauseExchange)
    | GetCount(clause: ClauseExchange)

  /** The shared queue: its nodes, root pointers and counter. The rest is history: the nodes ever linked, in list order,
      the positions of head and tail among them, and what has been enqueued and dequeued. */
  datatype Queue = Queue(nodes: seq<Node>, head: nat, tail: nat, size: int,
                         order: seq<nat>, headPos: nat, tailPos: nat,
                         enqueued: seq<ClauseExchange>, dequeued: seq<ClauseExchange>)

  datatype State = State(q: Queue, threads: seq<Thread>)

  /** What an idle thread is asked to do. */
  datatype Command = Add(c: ClauseExchange) | Get

  function Initial(dummy: ClauseExchange, n: nat): State {
    State(Queue([Node(dummy, NULL)], 0, 0, 0, [0], 0, 0, [], []), seq(n, _ => Idle(Nothing)))
  }

  // ---------- The atomic steps ----------

  function NextOf(q: Queue, node: nat): Pointer {
    if node < |q.nodes| then q.nodes[node].next else NULL
  }

  /** The root pointer tail moves on to next, if it is still the node read before. */
  function CasTail(q: Queue, tail: nat, next: nat): Queue {
    if q.tail == tail then q.(tail := next, tailPos := q.tailPos + 1) else q
  }

  /** A new node, not yet linked. */
  function Allocate(q: Queue, c: ClauseExchange): Queue {
    q.(nodes := q.nodes + [Node(c, NULL)])
  }

  /** The node is linked behind a tail that has no successor yet. */
  function LinkNode(q: Queue, tail: nat, node: nat): Queue
    requires tail < |q.nodes| && node < |q.nodes|
  {
    q.(nodes := q.nodes[tail := q.nodes[tail].(next := node)], order := q.order + [node],
       enqueued := q.enqueued + [q.nodes[node].clause])
  }

  /** The root pointer head moves on to next, whose clause c is thereby taken. */
  function TakeHead(q: Queue, next: nat, c: ClauseExchange): Queue {
    q.(head := next, headPos := q.headPos + 1, dequeued := q.dequeued + [c])
  }

  /** One atomic step of addClause. */
  function AddStep(q: Queue, th: Thread): (Queue, Thread) {
    match th
    case AddReadTail(node) => (q, AddReadNext(node, q.tail))
    case AddReadNext(node, tail) => (q, AddCheck(node, tail, NextOf(q, tail)))
    case AddCheck(node, tail, next) =>
      (q, if tail != q.tail then AddReadTail(node)
          else if next == NULL then AddLink(node, tail)
          else AddHelp(node, tail, next))
    case AddLink(node, tail) =>
      if tail < |q.nodes| && node < |q.nodes| && q.nodes[tail].next == NULL then
        (LinkNode(q, tail, node), AddCount(node, tail))
      else
        (q, AddReadTail(node))
    case AddHelp(node, tail, next) => (CasTail(q, tail, next), AddReadTail(node))
    case AddCount(node, tail) => (q.(size := q.size + 1), AddSwing(node, tail))
    case AddSwing(node, tail) =>
      (CasTail(q, tail, node), if node < |q.nodes| then Idle(Added(q.nodes[node].clause)) else th)
    case _ => (q, th)
  }

  /** One atomic step of getClause. */
  function GetStep(q: Queue, th: Thread): (Queue, Thread) {
    match th
    case GetReadHead => (q, GetReadTail(q.head))
    case GetReadTail(head) => (q, GetReadNext(head, q.tail))
    case GetReadNext(head, tail) => (q, GetCheck(head, tail, NextOf(q, head), Content(q) == []))
    case GetCheck(head, tail, next, wasEmpty) =>
      (q, if head != q.head then GetReadHead
          else if head != tail then GetReadClause(head, next)
          else if next == NULL then Idle(Failed(wasEmpty))
          else GetHelp(tail, next))
    case GetHelp(tail, next) => (CasTail(q, tail, next), GetReadHead)
    case GetReadClause(head, next) =>
      (q, if 0 <= next < |q.nodes| then GetTake(head, next, q.nodes[next].clause) else th)
    case GetTake(head, next, c) =>
      if q.head == head then (TakeHead(q, next, c), GetCount(c)) else (q, GetReadHead)
    case GetCount(c) => (q.(size := q.size - 1), Idle(Got(c)))
    case _ => (q, th)
  }

  /** Thread i takes its next step; an idle one starts what it is asked to do. */
  function Step(s: State, i: nat, cmd: Command): State
    requires i < |s.threads|
  {
    match s.threads[i]
    case Idle(_) =>
      (match cmd
       case Add(c) => State(Allocate(s.q, c), s.threads[i := AddReadTail(|s.q.nodes|)])
       case Get => State(s.q, s.threads[i := GetReadHead]))
    case th =>
      var (q, th') := if IsAdding(th) then AddStep(s.q, th) else GetStep(s.q, th);
      State(q, s.threads[i := th'])
  }

  predicate IsAdding(th: Thread) {
    th.AddReadTail? || th.AddReadNext? || th.AddCheck? || th.AddLink? || th.AddHelp? || th.AddCount? || th.AddSwing?
  }

  /** The clauses linked after head: what the queue holds. */
  function Content(q: Queue): seq<ClauseExchange> {
    ClausesFrom(q, q.headPos + 1)
  }

  function ClausesFrom(q: Queue, p: nat): seq<ClauseExchange>
    decreases |q.order| - p
  {
    if p >= |q.order| || q.order[p] >= |q.nodes| then [] else [q.nodes[q.order[p]].clause] + ClausesFrom(q, p + 1)
  }

  // ---------- The invariant ----------

  /** The linked nodes form one list; head and tail are on it, in this order, and tail lags by at most one. */
  ghost predicate Chain(q: Queue) {
    && (forall p :: 0 <= p < |q.order| ==> q.order[p] < |q.nodes|)
    && Once(q.order)
    && q.headPos <= q.tailPos < |q.order| <= q.tailPos + 2
    && q.head == q.order[q.headPos] && q.tail == q.order[q.tailPos]
    && (forall p :: 0 <= p < |q.order| - 1 ==> q.nodes[q.order[p]].next == q.order[p + 1])
    && q.nodes[q.order[|q.order| - 1]].next == NULL
  }

  ghost predicate Once(order: seq<nat>) {
    forall p, r :: 0 <= p < r < |order| ==> order[p] != order[r]
  }

  /** What has gone in is what has come out, followed by what is still linked. */
  ghost predicate Fifo(q: Queue) {
    && q.enqueued == q.dequeued + Content(q)
    && |q.dequeued| == q.headPos
  }

  /** A node of its own: allocated, not linked. */
  ghost predicate Owned(q: Queue, node: nat) {
    node < |q.nodes| && node !in q.order && q.nodes[node].next == NULL
  }

  /** node is linked, at position hi or before. */
  ghost predicate LinkedBy(q: Queue, node: nat, hi: nat) {
    exists p :: 0 <= p <= hi && p < |q.order| && q.order[p] == node
  }

  /** a is linked at a position no later than b. */
  ghost predicate NotAfter(q: Queue, a: nat, b: nat) {
    exists p, r :: 0 <= p <= r < |q.order| && q.order[p] == a && q.order[r] == b
  }

  ghost predicate Follows(q: Queue, node: nat, next: Pointer) {
    node < |q.nodes| && q.nodes[node].next == next && next != NULL
  }

  /** What a thread may rely on. */
  ghost predicate ThreadOk(q: Queue, th: Thread) {
    match th
    case Idle(last) => last.Failed? ==> last.wasEmpty
    case AddReadTail(node) => Owned(q, node)
    case AddReadNext(node, tail) => Owned(q, node) && LinkedBy(q, tail, q.tailPos)
    case AddCheck(node, tail, next) =>
      Owned(q, node) && LinkedBy(q, tail, q.tailPos) && (next == NULL || Follows(q, tail, next))
    case AddLink(node, tail) => Owned(q, node) && LinkedBy(q, tail, q.tailPos)
    case AddHelp(node, tail, next) => Owned(q, node) && LinkedBy(q, tail, q.tailPos) && Follows(q, tail, next)
    case AddCount(node, tail) => LinkedBy(q, tail, q.tailPos) && Follows(q, tail, node)
    case AddSwing(node, tail) => LinkedBy(q, tail, q.tailPos) && Follows(q, tail, node)
    case GetReadHead => true
    case GetReadTail(head) => LinkedBy(q, head, q.headPos)
    case GetReadNext(head, tail) => LinkedBy(q, head, q.headPos) && LinkedBy(q, tail, q.tailPos)
        && NotAfter(q, head, tail)
    case GetCheck(head, tail, next, wasEmpty) =>
      && LinkedBy(q, head, q.headPos) && LinkedBy(q, tail, q.tailPos) && NotAfter(q, head, tail)
      && (next == NULL ==> head == tail && (q.head == head ==> wasEmpty))
      && (next != NULL ==> Follows(q, head, next))
    case GetHelp(tail, next) => LinkedBy(q, tail, q.tailPos) && Follows(q, tail, next)
    case GetReadClause(head, next) => LinkedBy(q, head, q.headPos) && Follows(q, head, next)
        && LinkedBefore(q, head, q.tailPos)
    case GetTake(head, next, c) =>
      && LinkedBy(q, head, q.headPos) && Follows(q, head, next) && LinkedBefore(q, head, q.tailPos)
      && 0 <= next < |q.nodes| && q.nodes[next].clause == c
    case GetCount(_) => true
  }

  ghost predicate LinkedBefore(q: Queue, node: nat, hi: nat) {
    exists p :: 0 <= p < hi && p < |q.order| && q.order[p] == node
  }

  /** The node a thread has allocated and not yet linked. */
  function Holding(th: Thread): Pointer {
    if th.AddReadTail? || th.AddReadNext? || th.AddCheck? || th.AddLink? || th.AddHelp? then th.node else NULL
  }

  ghost predicate Apart(threads: seq<Thread>) {
    forall i, j :: 0 <= i < j < |threads| && Holding(threads[i]) != NULL ==> Holding(threads[i]) != Holding(threads[j])
  }

  /** By how much a thread's pending update will change the counter. */
  function Owed(th: Thread): int {
    if th.AddCount? then 1 else if th.GetCount? then -1 else 0
  }

  function Owing(threads: seq<Thread>): int {
    if threads == [] then 0 else Owed(threads[0]) + Owing(threads[1..])
  }

  /** The counter, once all pending updates are in, is the number of clauses in the queue. */
  ghost predicate Counted(s: State) {
    s.q.size + Owing(s.threads) == |s.q.order| - 1 - s.q.headPos
  }

  /** A thread that has linked a node and is yet to move buffer.tail onto it. */
  predicate Swinging(th: Thread, tail: nat) {
    (th.AddCount? || th.AddSwing?) && th.tail == tail
  }

  /** If tail lags, the thread that linked the last node is still to move it. */
  ghost predicate Attended(s: State) {
    |s.q.order| == s.q.tailPos + 2 ==> exists i :: 0 <= i < |s.threads| && Swinging(s.threads[i], s.q.tail)
  }

  ghost predicate Inv(s: State) {
    && Chain(s.q) && Fifo(s.q) && Counted(s) && Apart(s.threads) && Attended(s)
    && (forall i :: 0 <= i < |s.threads| ==> ThreadOk(s.q, s.threads[i]))
  }

  // ---------- Growth ----------

  /** What every step does to the queue: the list grows at its end, head and tail only move forward, and nodes change
      only when they are linked. */
  ghost predicate Grows(q: Queue, q': Queue) {
    && q.order <= q'.order && q.headPos <= q'.headPos && q.tailPos <= q'.tailPos && |q.nodes| <= |q'.nodes|
    && (forall n :: 0 <= n < |q.nodes| ==> q'.nodes[n].clause == q.nodes[n].clause)
    && (forall n :: 0 <= n < |q.nodes| && q.nodes[n].next != NULL ==> q'.nodes[n].next == q.nodes[n].next)
    && (forall n: nat :: n < |q.nodes| && n !in q'.order ==> q'.nodes[n] == q.nodes[n])
  }

  lemma GrowsLinked(q: Queue, q': Queue, a: nat, b: nat)
    requires Grows(q, q')
    ensures LinkedBy(q, a, q.headPos) ==> LinkedBy(q', a, q'.headPos)
    ensures LinkedBy(q, a, q.tailPos) ==> LinkedBy(q', a, q'.tailPos)
    ensures LinkedBefore(q, a, q.tailPos) ==> LinkedBefore(q', a, q'.tailPos)
    ensures NotAfter(q, a, b) ==> NotAfter(q', a, b)
  {
    if LinkedBy(q, a, q.headPos) {
      var p :| 0 <= p <= q.headPos && p < |q.order| && q.order[p] == a;
      assert q'.order[p] == a;
    }
    if LinkedBy(q, a, q.tailPos) {
      var p :| 0 <= p <= q.tailPos && p < |q.order| && q.order[p] == a;
      assert q'.order[p] == a;
    }
    if LinkedBefore(q, a, q.tailPos) {
      var p :| 0 <= p < q.tailPos && p < |q.order| && q.order[p] == a;
      assert q'.order[p] == a;
    }
    if NotAfter(q, a, b) {
      var p, r :| 0 <= p <= r < |q.order| && q.order[p] == a && q.order[r] == b;
      assert q'.order[p] == a && q'.order[r] == b;
    }
  }

  /** A head that a thread has read, once left behind, does not come back. */
  lemma HeadStays(q: Queue, q': Queue, head: nat)
    requires Chain(q) && Chain(q') && Grows(q, q') && LinkedBy(q, head, q.headPos) && q'.head == head
    ensures q.head == head
  {
    var p :| 0 <= p <= q.headPos && p < |q.order| && q.order[p] == head;
    assert q'.order[p] == q'.order[q'.headPos];
    assert p == q'.headPos;
  }

  /** Whatever the other threads do, a thread may go on relying on what it relied on. */
  lemma Stable(q: Queue, q': Queue, th: Thread)
    requires Chain(q) && Chain(q') && Grows(q, q') && ThreadOk(q, th)
    requires Holding(th) != NULL ==> Holding(th) !in q'.order
    ensures ThreadOk(q', th)
  {
    hide Chain, LinkedBy, LinkedBefore, NotAfter;
    match th
    case AddReadNext(node, tail) => GrowsLinked(q, q', tail, tail);
    case AddCheck(node, tail, next) => GrowsLinked(q, q', tail, tail);
    case AddLink(node, tail) => GrowsLinked(q, q', tail, tail);
    case AddHelp(node, tail, next) => GrowsLinked(q, q', tail, tail);
    case AddCount(node, tail) => GrowsLinked(q, q', tail, tail);
    case AddSwing(node, tail) => GrowsLinked(q, q', tail, tail);
    case GetReadTail(head) => GrowsLinked(q, q', head, head);
    case GetReadNext(head, tail) =>
      GrowsLinked(q, q', head, tail);
      GrowsLinked(q, q', tail, tail);
    case GetCheck(head, tail, next, wasEmpty) =>
      GrowsLinked(q, q', head, tail);
      GrowsLinked(q, q', tail, tail);
      if q'.head == head {
        HeadStays(q, q', head);
      }
    case GetHelp(tail, next) => GrowsLinked(q, q', tail, tail);
    case GetReadClause(head, next) => GrowsLinked(q, q', head, head);
    case GetTake(head, next, c) => GrowsLinked(q, q', head, head);
    case _ =>
  }

  // ---------- What each atomic operation keeps ----------

  /** Reading the contents only depends on the linked nodes. */
  lemma {:induction false} SameClauses(q: Queue, q': Queue, p: nat)
    requires Chain(q) && q.order == q'.order && |q.nodes| <= |q'.nodes|
    requires forall n :: 0 <= n < |q.nodes| ==> q'.nodes[n].clause == q.nodes[n].clause
    ensures ClausesFrom(q', p) == ClausesFrom(q, p)
    decreases |q.order| - p
  {
    if p < |q.order| {
      SameClauses(q, q', p + 1);
    }
  }

  lemma {:induction false} OneMoreClause(q: Queue, q': Queue, node: nat, p: nat)
    requires Chain(q) && q'.order == q.order + [node] && |q.nodes| == |q'.nodes| && node < |q.nodes| && p <= |q.order|
    requires forall n :: 0 <= n < |q.nodes| ==> q'.nodes[n].clause == q.nodes[n].clause
    ensures ClausesFrom(q', p) == ClausesFrom(q, p) + [q.nodes[node].clause]
    decreases |q.order| - p
  {
    if p < |q.order| {
      assert q'.order[p] == q.order[p];
      OneMoreClause(q, q', node, p + 1);
    } else {
      assert q'.order[p] == node && ClausesFrom(q', p + 1) == [];
    }
  }

  lemma AllocateKeeps(q: Queue, c: ClauseExchange)
    requires Chain(q) && Fifo(q)
    ensures Chain(Allocate(q, c)) && Fifo(Allocate(q, c)) && Grows(q, Allocate(q, c))
    ensures Owned(Allocate(q, c), |q.nodes|)
  {
    hide Once;
    SameClauses(q, Allocate(q, c), q.headPos + 1);
  }

  lemma HasNext(q: Queue)
    requires Chain(q)
    ensures forall p :: 0 <= p < |q.order| ==> (q.nodes[q.order[p]].next == NULL <==> p == |q.order| - 1)
  {
    forall p | 0 <= p < |q.order| - 1
      ensures q.nodes[q.order[p]].next != NULL
    {
      var succ: nat := q.order[p + 1];
    }
  }

  /** The tail that a thread has found without successor is the last node, and buffer.tail has not moved past it. */
  lemma LastNode(q: Queue, tail: nat)
    requires Chain(q) && LinkedBy(q, tail, q.tailPos) && q.nodes[tail].next == NULL
    ensures tail == q.tail && q.tailPos == |q.order| - 1
  {
    var p :| 0 <= p <= q.tailPos && p < |q.order| && q.order[p] == tail;
    HasNext(q);
  }

  lemma LinkKeeps(q: Queue, tail: nat, node: nat)
    requires Chain(q) && Fifo(q) && LinkedBy(q, tail, q.tailPos) && Owned(q, node) && NextOf(q, tail) == NULL
    ensures tail < |q.nodes| && tail == q.tail
    ensures Chain(LinkNode(q, tail, node)) && Fifo(LinkNode(q, tail, node)) && Grows(q, LinkNode(q, tail, node))
    ensures Content(LinkNode(q, tail, node)) == Content(q) + [q.nodes[node].clause]
    ensures LinkedBy(LinkNode(q, tail, node), tail, q.tailPos) && Follows(LinkNode(q, tail, node), tail, node)
  {
    hide Once;
    LinkedInside(q, tail, q.tailPos);
    LastNode(q, tail);
    LinkChain(q, tail, node);
    OneMoreClause(q, LinkNode(q, tail, node), node, q.headPos + 1);
    assert LinkNode(q, tail, node).order[q.tailPos] == tail;
  }

  lemma LinkedInside(q: Queue, node: nat, hi: nat)
    requires Chain(q) && LinkedBy(q, node, hi)
    ensures node < |q.nodes| && node in q.order
  {
  }

  lemma LinkChain(q: Queue, tail: nat, node: nat)
    requires Chain(q) && Owned(q, node) && tail == q.tail && q.tailPos == |q.order| - 1 && tail < |q.nodes|
    ensures Chain(LinkNode(q, tail, node))
  {
    var q' := LinkNode(q, tail, node);
    assert forall p :: 0 <= p < |q.order| ==> q'.order[p] == q.order[p];
    forall p | 0 <= p < |q'.order| - 1
      ensures q'.nodes[q'.order[p]].next == q'.order[p + 1]
    {
      if p < |q.order| - 1 {
        assert q.order[p] != q.order[|q.order| - 1];
      }
    }
  }

  lemma CasTailKeeps(q: Queue, tail: nat, next: nat)
    requires Chain(q) && Fifo(q) && LinkedBy(q, tail, q.tailPos) && Follows(q, tail, next)
    ensures Chain(CasTail(q, tail, next)) && Fifo(CasTail(q, tail, next)) && Grows(q, CasTail(q, tail, next))
    ensures Content(CasTail(q, tail, next)) == Content(q)
    ensures q.tail == tail ==> |CasTail(q, tail, next).order| < CasTail(q, tail, next).tailPos + 2
  {
    hide Once;
    if q.tail == tail {
      assert q.tailPos < |q.order| - 1 && q.order[q.tailPos + 1] == next;
    }
    SameClauses(q, CasTail(q, tail, next), q.headPos + 1);
  }

  lemma HeadBefore(q: Queue)
    requires Chain(q) && LinkedBefore(q, q.head, q.tailPos)
    ensures q.headPos < q.tailPos
  {
  }

  lemma TakeKeeps(q: Queue, next: nat, c: ClauseExchange)
    requires Chain(q) && Fifo(q) && Follows(q, q.head, next) && LinkedBefore(q, q.head, q.tailPos)
    requires next < |q.nodes| && q.nodes[next].clause == c
    ensures Chain(TakeHead(q, next, c)) && Fifo(TakeHead(q, next, c)) && Grows(q, TakeHead(q, next, c))
    ensures Content(q) == [c] + Content(TakeHead(q, next, c))
  {
    HeadBefore(q);
    hide Once;
    var q' := TakeHead(q, next, c);
    assert q.order[q.headPos + 1] == next;
    SameClauses(q, q', q.headPos + 2);
    assert Content(q) == [c] + ClausesFrom(q, q.headPos + 2);
    assert q.dequeued + Content(q) == q'.dequeued + Content(q');
  }

  // ---------- Every step of every interleaving ----------

  lemma {:induction false} OwingUpdate(threads: seq<Thread>, i: nat, th: Thread)
    requires i < |threads|
    ensures Owing(threads[i := th]) == Owing(threads) - Owed(threads[i]) + Owed(th)
  {
    if i == 0 {
      assert threads[0 := th][1..] == threads[1..];
    } else {
      OwingUpdate(threads[1..], i - 1, th);
      assert threads[i := th][1..] == threads[1..][i - 1 := th];
    }
  }

  /** What one step of a thread, from th to th', must do to the queue for the invariant to survive. */
  ghost predicate StepOk(q: Queue, th: Thread, q': Queue, th': Thread) {
    && Chain(q') && Fifo(q') && Grows(q, q') && ThreadOk(q', th')
    && (q'.order == q.order || (Holding(th) != NULL && q'.order == q.order + [Holding(th)] && Holding(th') == NULL))
    && (Holding(th') == NULL || Holding(th') == Holding(th) || (Holding(th') == |q.nodes| && q'.order == q.order))
    && (|q'.order| == q'.tailPos + 2 ==>
         Swinging(th', q'.tail) || (|q.order| == q.tailPos + 2 && q'.tail == q.tail && !Swinging(th, q.tail)))
    && q'.size + Owed(th') - |q'.order| + q'.headPos == q.size + Owed(th) - |q.order| + q.headPos
  }

  lemma ThreadKeeps(q: Queue, th: Thread)
    requires Chain(q) && Fifo(q) && ThreadOk(q, th) && !th.Idle?
    ensures IsAdding(th) ==> StepOk(q, th, AddStep(q, th).0, AddStep(q, th).1)
    ensures !IsAdding(th) ==> StepOk(q, th, GetStep(q, th).0, GetStep(q, th).1)
  {
    if IsAdding(th) {
      AddKeeps(q, th);
    } else {
      GetKeeps(q, th);
    }
  }

  lemma Unmoved(q: Queue)
    ensures Grows(q, q)
  {
  }

  lemma TailLinked(q: Queue)
    requires Chain(q)
    ensures LinkedBy(q, q.tail, q.tailPos) && LinkedBy(q, q.head, q.headPos)
  {
  }

  lemma AddKeeps(q: Queue, th: Thread)
    requires Chain(q) && Fifo(q) && ThreadOk(q, th) && IsAdding(th)
    ensures StepOk(q, th, AddStep(q, th).0, AddStep(q, th).1)
  {
    hide Chain, Fifo, LinkedBy, Grows, StepOk, ThreadOk;
    match th
    case AddReadTail(node) =>
      AddReadKeeps(q, th);
    case AddReadNext(node, tail) =>
      AddReadKeeps(q, th);
    case AddCheck(node, tail, next) =>
      AddReadKeeps(q, th);
    case AddLink(node, tail) =>
      LinkStepKeeps(q, th);
    case AddHelp(node, tail, next) =>
      AddHelpKeeps(q, th);
    case AddCount(node, tail) =>
      AddCountKeeps(q, th);
    case AddSwing(node, tail) =>
      AddSwingKeeps(q, th);
  }

  lemma AddReadKeeps(q: Queue, th: Thread)
    requires Chain(q) && Fifo(q) && ThreadOk(q, th) && (th.AddReadTail? || th.AddReadNext? || th.AddCheck?)
    ensures StepOk(q, th, AddStep(q, th).0, AddStep(q, th).1)
  {
    hide Chain, Fifo, LinkedBy, Grows;
    Unmoved(q);
    TailLinked(q);
    if th.AddReadNext? {
      LinkedInside(q, th.tail, q.tailPos);
    }
  }

  lemma LinkStepKeeps(q: Queue, th: Thread)
    requires Chain(q) && Fifo(q) && ThreadOk(q, th) && th.AddLink?
    ensures StepOk(q, th, AddStep(q, th).0, AddStep(q, th).1)
  {
    hide Chain, Fifo, LinkedBy, Grows;
    LinkedInside(q, th.tail, q.tailPos);
    Unmoved(q);
    if q.nodes[th.tail].next == NULL {
      LinkKeeps(q, th.tail, th.node);
    }
  }

  lemma AddHelpKeeps(q: Queue, th: Thread)
    requires Chain(q) && Fifo(q) && ThreadOk(q, th) && th.AddHelp?
    ensures StepOk(q, th, AddStep(q, th).0, AddStep(q, th).1)
  {
    hide Chain, Fifo, LinkedBy, Grows;
    CasTailKeeps(q, th.tail, th.succ);
  }

  lemma AddCountKeeps(q: Queue, th: Thread)
    requires Chain(q) && Fifo(q) && ThreadOk(q, th) && th.AddCount?
    ensures StepOk(q, th, AddStep(q, th).0, AddStep(q, th).1)
  {
    hide Chain, Fifo, LinkedBy, Grows;
    CountKeeps(q, q.size + 1);
  }

  lemma AddSwingKeeps(q: Queue, th: Thread)
    requires Chain(q) && Fifo(q) && ThreadOk(q, th) && th.AddSwing?
    ensures StepOk(q, th, AddStep(q, th).0, AddStep(q, th).1)
  {
    hide Chain, Fifo, LinkedBy, Grows;
    CasTailKeeps(q, th.tail, th.node);
    SuccessorInside(q, th.tail, th.node);
  }

  lemma SuccessorInside(q: Queue, tail: nat, next: Pointer)
    requires Chain(q) && LinkedBy(q, tail, q.tailPos) && Follows(q, tail, next)
    ensures 0 <= next < |q.nodes|
  {
    var p :| 0 <= p <= q.tailPos && p < |q.order| && q.order[p] == tail;
    HasNext(q);
    assert q.nodes[q.order[p]].next == q.order[p + 1];
  }

  lemma CountKeeps(q: Queue, n: int)
    requires Chain(q) && Fifo(q)
    ensures Chain(q.(size := n)) && Fifo(q.(size := n)) && Grows(q, q.(size := n))
    ensures forall node: nat :: LinkedBy(q, node, q.tailPos) ==> LinkedBy(q.(size := n), node, q.tailPos)
  {
    SameClauses(q, q.(size := n), q.headPos + 1);
    forall node: nat | LinkedBy(q, node, q.tailPos)
      ensures LinkedBy(q.(size := n), node, q.tailPos)
    {
      var p :| 0 <= p <= q.tailPos && p < |q.order| && q.order[p] == node;
      assert q.(size := n).order[p] == node;
    }
  }

  lemma GetKeeps(q: Queue, th: Thread)
    requires Chain(q) && Fifo(q) && ThreadOk(q, th) && !IsAdding(th) && !th.Idle?
    ensures StepOk(q, th, GetStep(q, th).0, GetStep(q, th).1)
  {
    hide Chain, Fifo, LinkedBy, LinkedBefore, NotAfter, Grows, StepOk;
    match th
    case GetReadHead =>
      ReadKeeps(q, th);
    case GetReadTail(head) =>
      ReadKeeps(q, th);
    case GetReadNext(head, tail) =>
      ReadNextKeeps(q, th);
    case GetCheck(head, tail, next, wasEmpty) =>
      CheckKeeps(q, th);
    case GetHelp(tail, next) =>
      HelpKeeps(q, th);
    case GetReadClause(head, next) =>
      ReadClauseKeeps(q, th);
    case GetTake(head, next, c) =>
      TakeStepKeeps(q, th);
    case GetCount(c) =>
      CountStepKeeps(q, th);
  }

  lemma ReadKeeps(q: Queue, th: Thread)
    requires Chain(q) && Fifo(q) && ThreadOk(q, th) && (th.GetReadHead? || th.GetReadTail?)
    ensures StepOk(q, th, GetStep(q, th).0, GetStep(q, th).1)
  {
    hide Chain, Fifo, LinkedBy, NotAfter, Grows;
    Unmoved(q);
    TailLinked(q);
    if th.GetReadTail? {
      HeadNotAfterTail(q, th.head);
    }
  }

  lemma ReadNextKeeps(q: Queue, th: Thread)
    requires Chain(q) && Fifo(q) && ThreadOk(q, th) && th.GetReadNext?
    ensures StepOk(q, th, GetStep(q, th).0, GetStep(q, th).1)
  {
    hide Chain, Fifo, LinkedBy, NotAfter, Grows;
    Unmoved(q);
    NextRead(q, th.head, th.tail);
  }

  lemma CheckKeeps(q: Queue, th: Thread)
    requires Chain(q) && Fifo(q) && ThreadOk(q, th) && th.GetCheck?
    ensures StepOk(q, th, GetStep(q, th).0, GetStep(q, th).1)
  {
    hide Chain, Fifo, LinkedBy, LinkedBefore, NotAfter, Grows;
    Unmoved(q);
    if th.head != th.tail {
      Earlier(q, th.head, th.tail);
    }
  }

  lemma HelpKeeps(q: Queue, th: Thread)
    requires Chain(q) && Fifo(q) && ThreadOk(q, th) && th.GetHelp?
    ensures StepOk(q, th, GetStep(q, th).0, GetStep(q, th).1)
  {
    hide Chain, Fifo, LinkedBy, Grows;
    CasTailKeeps(q, th.tail, th.succ);
  }

  lemma ReadClauseKeeps(q: Queue, th: Thread)
    requires Chain(q) && Fifo(q) && ThreadOk(q, th) && th.GetReadClause?
    ensures StepOk(q, th, GetStep(q, th).0, GetStep(q, th).1)
  {
    hide Chain, Fifo, LinkedBy, LinkedBefore, Grows;
    Unmoved(q);
    NextInside(q, th.head, th.next);
  }

  lemma TakeStepKeeps(q: Queue, th: Thread)
    requires Chain(q) && Fifo(q) && ThreadOk(q, th) && th.GetTake?
    ensures StepOk(q, th, GetStep(q, th).0, GetStep(q, th).1)
  {
    hide Chain, Fifo, LinkedBy, LinkedBefore, Grows;
    Unmoved(q);
    if q.head == th.head {
      TakeKeeps(q, th.succ, th.clause);
    }
  }

  lemma CountStepKeeps(q: Queue, th: Thread)
    requires Chain(q) && Fifo(q) && th.GetCount?
    ensures StepOk(q, th, GetStep(q, th).0, GetStep(q, th).1)
  {
    hide Chain, Fifo, LinkedBy, Grows;
    CountKeeps(q, q.size - 1);
  }

  /** The head a thread has read is not after the tail it reads next. */
  lemma HeadNotAfterTail(q: Queue, head: nat)
    requires Chain(q) && LinkedBy(q, head, q.headPos)
    ensures NotAfter(q, head, q.tail)
  {
    var p :| 0 <= p <= q.headPos && p < |q.order| && q.order[p] == head;
    assert q.order[q.tailPos] == q.tail;
  }

  /** Without successor, the head read is also the tail read, and if it is still buffer.head the queue is empty. */
  lemma NextRead(q: Queue, head: nat, tail: nat)
    requires Chain(q) && LinkedBy(q, head, q.headPos) && NotAfter(q, head, tail)
    ensures head < |q.nodes|
    ensures NextOf(q, head) == NULL ==> head == tail && (q.head == head ==> Content(q) == [])
  {
    var p, r :| 0 <= p <= r < |q.order| && q.order[p] == head && q.order[r] == tail;
    HasNext(q);
    if NextOf(q, head) == NULL {
      assert p == |q.order| - 1;
      if q.head == head {
        assert q.headPos == p;
      }
    }
  }

  lemma Earlier(q: Queue, head: nat, tail: nat)
    requires Chain(q) && NotAfter(q, head, tail) && LinkedBy(q, tail, q.tailPos) && head != tail
    ensures LinkedBefore(q, head, q.tailPos)
  {
    var p, r :| 0 <= p <= r < |q.order| && q.order[p] == head && q.order[r] == tail;
    var k :| 0 <= k <= q.tailPos && k < |q.order| && q.order[k] == tail;
    assert k == r;
  }

  lemma NextInside(q: Queue, head: nat, next: Pointer)
    requires Chain(q) && LinkedBefore(q, head, q.tailPos) && Follows(q, head, next)
    ensures 0 <= next < |q.nodes|
  {
    var p :| 0 <= p < q.tailPos && p < |q.order| && q.order[p] == head;
    assert q.nodes[q.order[p]].next == q.order[p + 1];
  }

  /** A new thread state in place of the old one, the queue having changed accordingly. */
  lemma StepKeeps(s: State, i: nat, q': Queue, th': Thread)
    requires Inv(s) && i < |s.threads| && StepOk(s.q, s.threads[i], q', th')
    ensures Inv(State(q', s.threads[i := th']))
  {
    hide Chain, Fifo, Grows, ThreadOk;
    var s' := State(q', s.threads[i := th']);
    OwingUpdate(s.threads, i, th');
    HeldNodes(s.q, s.threads);
    forall j | 0 <= j < |s.threads| && j != i
      ensures ThreadOk(q', s'.threads[j])
    {
      OthersKeep(s, i, q', th', j);
    }
    if |q'.order| == q'.tailPos + 2 && !Swinging(th', q'.tail) {
      var j :| 0 <= j < |s.threads| && Swinging(s.threads[j], s.q.tail);
      assert Swinging(s'.threads[j], q'.tail);
    } else {
      assert s'.threads[i] == th';
    }
  }

  lemma HeldNodes(q: Queue, threads: seq<Thread>)
    requires forall i :: 0 <= i < |threads| ==> ThreadOk(q, threads[i])
    ensures forall i :: 0 <= i < |threads| && Holding(threads[i]) != NULL ==> Owned(q, Holding(threads[i]))
  {
  }

  lemma OthersKeep(s: State, i: nat, q': Queue, th': Thread, j: nat)
    requires Inv(s) && i < |s.threads| && j < |s.threads| && i != j && StepOk(s.q, s.threads[i], q', th')
    ensures ThreadOk(q', s.threads[j])
  {
    hide Chain, Fifo, Grows, ThreadOk;
    HeldNodes(s.q, s.threads);
    Stable(s.q, q', s.threads[j]);
  }

  lemma StartKeeps(q: Queue, th: Thread, c: ClauseExchange)
    requires Chain(q) && Fifo(q) && th.Idle?
    ensures StepOk(q, th, Allocate(q, c), AddReadTail(|q.nodes|)) && StepOk(q, th, q, GetReadHead)
  {
    hide Chain, Fifo, Grows;
    AllocateKeeps(q, c);
    Unmoved(q);
  }

  /** Whatever thread moves next, and whatever it is asked to do, the invariant survives. */
  lemma StepKeepsInv(s: State, i: nat, cmd: Command)
    requires Inv(s) && i < |s.threads|
    ensures Inv(Step(s, i, cmd))
  {
    hide Chain, Fifo, ThreadOk, StepOk, Counted, Apart, Attended;
    var th := s.threads[i];
    if th.Idle? {
      StartKeeps(s.q, th, if cmd.Add? then cmd.c else ClauseExchange(0, []));
      if cmd.Add? {
        StepKeeps(s, i, Allocate(s.q, cmd.c), AddReadTail(|s.q.nodes|));
      } else {
        StepKeeps(s, i, s.q, GetReadHead);
      }
    } else {
      ThreadKeeps(s.q, th);
      var r := if IsAdding(th) then AddStep(s.q, th) else GetStep(s.q, th);
      StepKeeps(s, i, r.0, r.1);
    }
  }

  /** The state after an interleaving: which thread moved at each step, and what it was asked if idle. */
  function Run(dummy: ClauseExchange, n: nat, schedule: seq<(nat, Command)>): (s: State)
    requires forall k :: 0 <= k < |schedule| ==> schedule[k].0 < n
    ensures |s.threads| == n
  {
    if schedule == [] then Initial(dummy, n)
    else
      var (i, cmd) := schedule[|schedule| - 1];
      Step(Run(dummy, n, schedule[..|schedule| - 1]), i, cmd)
  }

  lemma {:induction false} NothingOwed(threads: seq<Thread>)
    requires forall i :: 0 <= i < |threads| ==> threads[i].Idle?
    ensures Owing(threads) == 0
  {
    if threads != [] {
      NothingOwed(threads[1..]);
    }
  }

  lemma {:induction false} RunInv(dummy: ClauseExchange, n: nat, schedule: seq<(nat, Command)>)
    requires forall k :: 0 <= k < |schedule| ==> schedule[k].0 < n
    ensures Inv(Run(dummy, n, schedule))
  {
    if schedule == [] {
      NothingOwed(Initial(dummy, n).threads);
    } else {
      RunInv(dummy, n, schedule[..|schedule| - 1]);
      var (i, cmd) := schedule[|schedule| - 1];
      StepKeepsInv(Run(dummy, n, schedule[..|schedule| - 1]), i, cmd);
    }
  }

  lemma {:induction false} ContentLength(q: Queue, p: nat)
    requires Chain(q) && p <= |q.order|
    ensures |ClausesFrom(q, p)| == |q.order| - p
    decreases |q.order| - p
  {
    if p < |q.order| {
      ContentLength(q, p + 1);
    }
  }

  /** In every interleaving: first in, first out; head never passes tail, tail lags by at most one node; the counter is
      the length of the queue but for pending updates; and a call that found nothing did so while the queue was
      empty. */
  lemma EveryInterleaving(dummy: ClauseExchange, n: nat, schedule: seq<(nat, Command)>)
    requires forall k :: 0 <= k < |schedule| ==> schedule[k].0 < n
    ensures var s := Run(dummy, n, schedule);
      && s.q.enqueued == s.q.dequeued + Content(s.q)
      && s.q.headPos <= s.q.tailPos && |s.q.order| - 1 - s.q.tailPos <= 1
      && s.q.size + Owing(s.threads) == |Content(s.q)|
      && (forall i :: 0 <= i < n && s.threads[i].Idle? && s.threads[i].last.Failed? ==> s.threads[i].last.wasEmpty)
  {
    RunInv(dummy, n, schedule);
    var s := Run(dummy, n, schedule);
    ContentLength(s.q, s.q.headPos + 1);
    assert forall i :: 0 <= i < n ==> ThreadOk(s.q, s.threads[i]);
  }

  /** A consumer that reads next->clause has a node there, although it never tests next for null on that branch. */
  lemma NoNullDereference(dummy: ClauseExchange, n: nat, schedule: seq<(nat, Command)>, i: nat)
    requires i < n && forall k :: 0 <= k < |schedule| ==> schedule[k].0 < n
    ensures var s := Run(dummy, n, schedule);
      s.threads[i].GetReadClause? ==> 0 <= s.threads[i].next < |s.q.nodes|
  {
    RunInv(dummy, n, schedule);
    var s := Run(dummy, n, schedule);
    assert ThreadOk(s.q, s.threads[i]);
    if s.threads[i].GetReadClause? {
      NextInside(s.q, s.threads[i].head, s.threads[i].next);
    }
  }

  /** Once every call has returned, the counter is exact and tail is the last node. */
  lemma Quiescent(dummy: ClauseExchange, n: nat, schedule: seq<(nat, Command)>)
    requires forall k :: 0 <= k < |schedule| ==> schedule[k].0 < n
    requires forall i :: 0 <= i < n ==> Run(dummy, n, schedule).threads[i].Idle?
    ensures var s := Run(dummy, n, schedule); s.q.size == |Content(s.q)| && s.q.tailPos == |s.q.order| - 1
  {
    EveryInterleaving(dummy, n, schedule);
    RunInv(dummy, n, schedule);
    NothingOwed(Run(dummy, n, schedule).threads);
  }

  /** Whether a thread returns with its next step, and what. */
  ghost predicate Returns(q: Queue, th: Thread, th': Thread) {
    match th
    case GetCount(c) => th' == Idle(Got(c))
    case AddSwing(node, _) => node < |q.nodes| && th' == Idle(Added(q.nodes[node].clause))
    case GetCheck(head, tail, next, _) =>
      th'.Idle? ==> th' == Idle(Failed(true)) && next == NULL && head == tail == q.head
    case _ => !th'.Idle?
  }

  lemma StepReturns(s: State, i: nat, cmd: Command)
    requires Inv(s) && i < |s.threads|
    ensures Returns(s.q, s.threads[i], Step(s, i, cmd).threads[i])
  {
    hide Fifo, Grows, Counted, Apart, Attended, Content, LinkedBefore, NotAfter;
    assert ThreadOk(s.q, s.threads[i]);
    if s.threads[i].AddSwing? {
      SuccessorInside(s.q, s.threads[i].tail, s.threads[i].node);
    }
  }

  /** Each step is a step of a plain queue, or changes nothing there: linking appends the clause being added, taking
      removes the first clause. A call returns what it has linked or taken, or, from the check alone, that it has seen
      an empty queue. */
  lemma StepRefines(s: State, i: nat, cmd: Command)
    requires Inv(s) && i < |s.threads|
    ensures var th, s' := s.threads[i], Step(s, i, cmd);
      if th.AddLink? && s'.threads[i].AddCount? then
        th.node < |s.q.nodes| && Content(s'.q) == Content(s.q) + [s.q.nodes[th.node].clause]
      else if th.GetTake? && s'.threads[i].GetCount? then
        Content(s.q) == [s'.threads[i].clause] + Content(s'.q)
      else Content(s'.q) == Content(s.q)
    ensures Returns(s.q, s.threads[i], Step(s, i, cmd).threads[i])
  {
    hide Chain, Fifo, Grows, Counted, Apart, Attended, Content, Returns;
    var th, s' := s.threads[i], Step(s, i, cmd);
    assert ThreadOk(s.q, th);
    StepReturns(s, i, cmd);
    if th.AddLink? {
      LinkedInside(s.q, th.tail, s.q.tailPos);
      if NextOf(s.q, th.tail) == NULL {
        LinkKeeps(s.q, th.tail, th.node);
      }
    } else if th.GetTake? && s.q.head == th.head {
      TakeKeeps(s.q, th.succ, th.clause);
    } else {
      SameContent(s.q, s'.q);
    }
  }

  lemma SameContent(q: Queue, q': Queue)
    requires Chain(q) && q.order == q'.order && q.headPos == q'.headPos && |q.nodes| <= |q'.nodes|
    requires forall n :: 0 <= n < |q.nodes| ==> q'.nodes[n].clause == q.nodes[n].clause
    ensures Content(q') == Content(q)
  {
    SameClauses(q, q', q.headPos + 1);
  }
}
