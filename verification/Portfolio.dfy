/** Solvers of one formula that exchange what they learn while each works on tasks of its own. */
module Portfolios {
  import opened Cnf
  import opened Steps
  import opened Importing
  import opened Solving

  /** Assumptions for one of the workers. */
  datatype Task = Task(worker: nat, assumptions: seq<Lit>)

  datatype Answer = Answer(status: Status, model: map<Var, bool>)

  ghost predicate Fits(task: Task, count: nat, n: nat) {
    task.worker < count && forall l :: l in task.assumptions ==> l.v < n
  }

  /** A refutation under the assumptions, or a model that meets them, unless some variable has no value. */
  ghost predicate Right(f: set<Clause>, n: nat, assumptions: seq<Lit>, answer: Answer) {
    match answer.status
    case LFalse => UnsatUnder(f, assumptions)
    case LUndef => true
    case LTrue =>
      && AllHold(ModelOf(answer.model), assumptions)
      && ((forall v: Var :: v < n ==> v in answer.model) ==> Models(ModelOf(answer.model), f))
  }

  /** Between two calls; what the worker has exported, others may import. */
  ghost predicate Member(worker: Solver, f: set<Clause>, n: nat)
    reads worker
  {
    worker.Settled() && worker.formula == f && |worker.vardata| == n && worker.Exports()
  }

  /** Distinct solvers of f over n variables. */
  ghost predicate Team(workers: seq<Solver>, f: set<Clause>, n: nat)
    reads workers
  {
    && (forall i, j :: 0 <= i < j < |workers| ==> workers[i] != workers[j])
    && (forall i :: 0 <= i < |workers| ==> Member(workers[i], f, n))
  }

  /** Some of the clauses exported so far; which ones is up to the budget of literals, and to timing. */
  method Gather(workers: seq<Solver>, ghost f: set<Clause>, ghost n: nat) returns (cs: set<Clause>)
    requires Team(workers, f, n)
    ensures AllImportable(f, n, cs)
    ensures forall c :: c in cs ==> exists i :: 0 <= i < |workers| && c in workers[i].exported
  {
    hide Importable, Solver.Settled;
    cs := {};
    for i := 0 to |workers|
      invariant AllImportable(f, n, cs)
      invariant forall c :: c in cs ==> exists k :: 0 <= k < |workers| && c in workers[k].exported
    {
      assert Member(workers[i], f, n);
      var wanted: set<Clause> := *;
      cs := cs + wanted * workers[i].exported;
    }
  }

  /** One task; the worker imports some of what all have exported. */
  method Work(workers: seq<Solver>, task: Task, restarts: nat, steps: nat, ghost f: set<Clause>, ghost n: nat)
    returns (answer: Answer)
    requires Team(workers, f, n) && Fits(task, |workers|, n)
    modifies workers[task.worker]
    ensures Team(workers, f, n) && Right(f, n, task.assumptions, answer)
  {
    hide Importable, AllImportable, Solver.Settled, UnsatUnder, Models, AllHold;
    var worker := workers[task.worker];
    var cs := Gather(workers, f, n);
    ReceivedSound(f, n, cs);
    assert Member(worker, f, n);
    worker.Assume(task.assumptions);
    var status, interrupted;
    ghost var searched;
    status, interrupted, searched := worker.Solve(restarts, steps, Received(cs));
    answer := Answer(status, worker.model);
    assert forall k :: 0 <= k < |workers| ==> Member(workers[k], f, n);
  }

  /** The workers work on any tasks, in any order. Every answer is right for the assumptions of its task, although it
      may rest on what others have learnt under other assumptions, from clauses imported in turn. */
  method WorkOff(workers: seq<Solver>, tasks: seq<Task>, restarts: nat, steps: nat, ghost f: set<Clause>, ghost n: nat)
    returns (answers: seq<Answer>)
    requires Team(workers, f, n) && forall k :: 0 <= k < |tasks| ==> Fits(tasks[k], |workers|, n)
    modifies workers
    ensures Team(workers, f, n) && |answers| == |tasks|
    ensures forall k :: 0 <= k < |tasks| ==> Right(f, n, tasks[k].assumptions, answers[k])
  {
    hide Member, Right;
    answers := [];
    for k := 0 to |tasks|
      invariant Team(workers, f, n) && |answers| == k
      invariant forall i :: 0 <= i < k ==> Right(f, n, tasks[i].assumptions, answers[i])
    {
      var answer := Work(workers, tasks[k], restarts, steps, f, n);
      answers := answers + [answer];
    }
  }
}
