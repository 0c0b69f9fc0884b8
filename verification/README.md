# A verified model of the parallel SAT solver

This project models, in Dafny, three connected layers of a parallel SAT solver: the CDCL kernel with chronological
backtracking, the splitting of the assignment space into cubes, and the data structures both rest on. It proves them
correct, and where the code falls short, under which conditions it is. `dafny verify dfyconfig.toml` checks everything.

**The CDCL kernel.** `Cnf` fixes literals, clauses and entailment over total assignments. `Trails` and `Backtracking`
describe the assignment stack, whose levels are not sorted: a backtracking step keeps late literals of low levels.
`Watching` states the invariant that makes two-watched-literal propagation complete on such a trail: a watch falsified
at a propagated position is excused only by a true literal whose level is no higher than any level that starts after that
position. `Database` says what stored clauses and level-0 literals have to do with the formula; its lemma `ConeTrue`, an
induction on trail positions, carries conflict analysis, both minimisations, the final conflict and vivification.
`Propagation`, `Kernel`, `Analysis`, `BinaryResolution`, `Steps`, `FinalConflict`, `Forgetting`, `Adding`,
`Vivification`, `Simplifying` and `Importing` hold one lemma per step of the code, on values. `Unwinding`, `Domination`,
`Redundancy` and `Blaming` say what analysis computes in terms of the implication graph: the learnt clause is that of the
dominator of the decision nearest to the conflict, minimisation drops exactly the literals from which no path gets
stuck, and a final conflict blames exactly the decisions that a chain of reasons leads to. `Ordering` describes the two
order heaps from which decisions are taken. The class `Solving.Solver` is the solver itself, with the fields and loops of the
original; each method is tied to those values. Its invariant `Running` holds between any two steps of any run. Learnt
clauses are vivified in the course of the search, as `search` does when it begins, and clauses of other solvers are
imported at level 0. `Portfolios` lets several solvers of one formula, each under assumptions of its own, exchange what
they learn. `Shortcomings` plays two inputs through on which the solver does less than it promises.

**Cubes.** `Enumeration.Search` is the search object (all sign patterns, or a product of sets of assignments; the
virtual dispatch of the original is a case distinction on `Kind`), with splitting over workers. `Counting` propagates
searches, in sequence and split, and counts subtrees. `Backdoors` reduces a formula to assignments that propagation does
not refute, and `Reducing` solves those, recursing on cubes that take too
long; a ghost history of the cubes visited says in which order, and what was found at each.

**Data structures.** `Sorting` (quicksort with unguarded scans), `Heaps` (indexed heap), `Subsuming` (subsumption with a
signature filter), `Sharing` (clause selection within a budget of literals) and `Buffering` (the lock-free clause queue,
as atomic steps of any number of threads) with `Calling` (what its calls return, and that a call running alone returns).

## Modelling choices

- A literal is a pair of variable and sign; `ToInt` is the packed integer of the source. A clause reference is an index
  into the arena `ca`; removed clauses stay there but are not in `live`. Variables without value are absent from the map
  `assigns`. `seen` is a set, `trail` a sequence.
- Which variable comes off an order heap, signs, restarts, changes of the heuristic mode within the second phase, and
  which learnt clauses are dropped or vivified are nondeterministic. Which variables the two heaps hold is not: they are
  key sets, changed as the code changes them (`Heaps` is about the heap itself). The limits of `Search` and `Solve`
  stand for budgets and interruption, `starts` and `turns` count searches and turns of their loop; the number of stored
  literals, which delays the next simplification, is left open.
- A vivified clause is stored under a new reference, in the old place of the list of learnt clauses.
- Propagation in the cube layer is a function from assumptions to "conflict", the native solver and the evolutionary
  search are oracles with contracts (`Backdoors.SoundProp`, `Backdoors.SoundBackdoors`, `Reducing.SoundService`). The
  solver service may answer differently at each call; it gives up only on a time limit or when interrupted, and is
  interrupted only after a model has been found.
- Worker pools run their tasks one after another, except in `Buffering`. A callback of the cube layer is a pure function
  of its call that says whether to go on; those of the source also read flags which other workers set meanwhile.
- What a solver imports is any selection, at any time and with repetitions, from the clauses handed to a call of `Solve`.
  In `Portfolios` these are any of the clauses exported before the call; buckets, budget and queues, which decide what
  is passed on and when, are the subject of `Sharing` and `Buffering`.
- Counters of the source are natural numbers here. A full search has fewer than 64 variables, which the shift that
  computes its size demands. A product search accumulates its size and the length of its assignments in 32 bits, and
  `_prepare_cartesian` truncates the size of each set it multiplies to 32 bits: what is said of product searches holds
  of the source for sets of fewer than 2^32 patterns and products of fewer than 2^32 assignments. With several such sets
  `_prepare_cartesian` keeps the product within its bound, which is itself 32 bits wide; a single set of 2^32 patterns
  or more would wrap and lose the cover.
- The source's documentation of `subsumes` says that the literal returned can be deleted from the other clause. It is
  the negation of that literal that occurs there and may go, as the callers do it; the model follows the code.

## Where the code falls short

- The answer l_True is given when the order heap in use is empty, and that heap may lack unassigned variables. Within a
  call it does not, if it did not at its beginning (`Solving.Solver.Search`). But `solve_` leaves VSIDS mode before its
  final backtrack, and `insertVarOrder` tells only the heap in use; so after an answer l_True in VSIDS mode that heap is
  empty, and the next call, unless `simplify` happens to rebuild the heaps, takes every state without conflict for a
  model. For (-a or x or y), (-a or x or -y), (-a or -x or y), (-a or -x or -y), solving with -a and then with a answers
  l_True twice, though the clauses and a have no model: `Shortcomings.LostVariables`. Exactly when the answer comes with
  a complete assignment is stated by `Solving.Solver.PickBranchLit` and `Solving.Solver.Branch`, when a call may be
  trusted by `Solving.Solver.Solve`: if both heaps lack assigned variables only, as those of a new solver do. The solver
  services of the cube layer, which keep a solver for many cubes, are assumed sound there.
- `analyzeFinal` stops its walk at the start of level 1 and expects every literal without a reason from there on to be a
  decision. Under chronological backtracking a learnt unit enters the trail late, at level 0. If that unit falsifies an
  assumption, the assumption itself joins its negation in the final conflict, which is then a tautology. For the clauses
  (-a or c), (-a or -c) and the assumptions b, a this happens with the options `chrono` at 0, 1 or 2 and
  `confl-to-chrono` at most 1; with their defaults, 100 and 4000, it takes 100 levels and 4000 conflicts.
  `Shortcomings.LateUnitExample` plays the run through, `FinalConflict.FinalShapeExact` states when it happens. The
  verdict is right even then.
- `Heap::remove` sifts the replacement down only. `Heaps.IndexedHeap.Remove` states exactly when heap order survives,
  `Heaps.RemoveExample` shows a loss.
- A part of a split search with more parts than assignments is empty, and `sequential_propagate` still visits one
  assignment of it. `Counting.SplitCountExact` states when the sum of the parts is right all the same,
  `Counting.OverSplitExample` shows a wrong one; the splitting in `ParProp` never makes more parts than assignments.

## Model

| member | source | states |
|---|---|---|
| `Trails.EnqueueKeepsInv` | core/sat/native/mini/lmaple/lmaple/core/Solver.cc:1470-1491 | Enqueueing keeps the trail invariant: each assigned variable once, levels opened, positions before the start of level b+1 at most level b, antecedents before what they imply, implied levels maximal in their reason. |
| `Trails.EnqueueJustified` | core/sat/native/mini/lmaple/lmaple/core/Solver.cc:1470-1491 | Every reason clause still implies its literal from literals falsified earlier on the trail. |
| `Trails.EnqueueLeveled` | core/sat/native/mini/lmaple/lmaple/core/Solver.cc:1470-1491 | Order of levels survives a literal entered below the current level; only the first literal of a level lacks a reason. |
| `Trails.EnqueueLevelsMaximal` | core/sat/native/mini/lmaple/lmaple/core/Solver.cc:1578-1601 | An implied literal has the highest level among the other literals of its reason, one of which has that level. |
| `Trails.NewLevelKeepsInv` | core/sat/native/mini/lmaple/lmaple/core/Solver.h:579 | Opening a level keeps the trail invariant and no literal has the new level yet. |
| `Trails.TrailBound` | core/sat/native/mini/lmaple/lmaple/core/Solver.cc:1470-1491 | The trail never has more entries than there are variables. |
| `Backtracking.KeptIsExact` | core/sat/native/mini/lmaple/lmaple/core/Solver.cc:1056-1105 | The positions that survive backtracking are exactly those of level at most b, in increasing order. |
| `Backtracking.CancelPrefix` | core/sat/native/mini/lmaple/lmaple/core/Solver.cc:1056-1105 | Nothing before the start of level b+1 moves. |
| `Backtracking.CancelValues` | core/sat/native/mini/lmaple/lmaple/core/Solver.cc:1056-1105 | A literal keeps its value exactly if its level is at most b, else it is unassigned. |
| `Backtracking.CancelKeepsOrder` | core/sat/native/mini/lmaple/lmaple/core/Solver.cc:1056-1105 | Two literals that survive keep their relative order. |
| `Backtracking.CancelKeepsInv` | core/sat/native/mini/lmaple/lmaple/core/Solver.cc:1056-1105 | Backtracking with late literals of low levels kept preserves the whole trail invariant. |
| `Backtracking.KeptAndSaved` | core/sat/native/mini/lmaple/lmaple/core/Solver.cc:1056-1105 | What the loop saves in reverse, pushed back, is the old order: prefix plus saved literals is the kept sequence. |
| `Backtracking.CancelEnd` | core/sat/native/mini/lmaple/lmaple/core/Solver.cc:1056-1105 | The loop that unassigns and saves computes the backtracked trail and assignment. |
| `Watching.WatchInvIsComplete` | core/sat/native/mini/lmaple/lmaple/core/Solver.cc:1504-1618 | When all positions are propagated, every clause has a true literal or two watches that are not false, although trail levels are out of order. |
| `Watching.NotAllFalse` | core/sat/native/mini/lmaple/lmaple/core/Solver.cc:1504-1618 | A clause with a watch falsified at a propagated position is not entirely false. |
| `Watching.EnqueueWatchInv` | core/sat/native/mini/lmaple/lmaple/core/Solver.cc:1470-1491 | Enqueueing keeps the watch invariant of what has been propagated. |
| `Watching.NewLevelWatchInv` | core/sat/native/mini/lmaple/lmaple/core/Solver.h:579 | Opening a level when everything is propagated keeps the watch invariant. |
| `Watching.CancelWatchInv` | core/sat/native/mini/lmaple/lmaple/core/Solver.cc:1056-1105 | The watch invariant survives backtracking that keeps late literals of low levels, with propagation resumed at the start of the level left. |
| `Watching.MoveLists` | core/sat/native/mini/lmaple/lmaple/core/Solver.cc:1560-1575 | Moving a watcher to another list keeps every clause listed exactly under its two watches. |
| `Watching.AttachLists` | core/sat/native/mini/lmaple/lmaple/core/Solver.cc:988-997 | A newly attached clause is listed under its first two literals, all others stay listed. |
| `Watching.CleanLists` | core/sat/native/mini/lmaple/lmaple/core/SolverTypes.h:280-300 | Dropping the watchers of removed clauses from a dirty list keeps every live clause listed. |
| `Database.ConeTrue` | core/sat/native/mini/lmaple/lmaple/core/Solver.cc:1199-1431 | In a model of the clauses, every trail literal of a set closed under reasons is true, whatever the order of levels: the induction on trail positions behind analysis, minimisation, final conflict and vivification. |
| `Database.FalseClauseRefutes` | core/sat/native/mini/lmaple/lmaple/core/Solver.cc:1199-1275 | A false clause whose literals lie in such a set has no model with the hypotheses of the set. |
| `Database.FalseAtRoot` | core/sat/native/mini/lmaple/lmaple/core/Solver.cc:1888-1893 | A clause false at level 0 refutes the formula. |
| `Database.ImpliedDerived` | core/sat/native/mini/lmaple/lmaple/core/Solver.cc:1578-1601 | Propagated literals of level 0 are entailed by the formula. |
| `Database.LearnDerived` | core/sat/native/mini/lmaple/lmaple/core/Solver.cc:1919-1944 | Storing an entailed clause keeps everything stored entailed. |
| `Database.ModelMeetsDb` | core/sat/native/mini/lmaple/lmaple/core/Solver.cc:1504-1618 | A model of the formula satisfies every stored clause and every literal of level 0. |
| `Propagation.StartVisit` | core/sat/native/mini/lmaple/lmaple/core/Solver.cc:1512-1520 | Every clause with a watch falsified at the position to propagate is in one of the two lists visited. |
| `Propagation.VisitUnit` | core/sat/native/mini/lmaple/lmaple/core/Solver.cc:1578-1601 | Enqueueing the literal a unit clause implies, at the highest level of the others, completes its visit. |
| `Propagation.VisitMove` | core/sat/native/mini/lmaple/lmaple/core/Solver.cc:1560-1575 | Watching another literal that is not false completes the visit of a clause. |
| `Propagation.VisitRewatch` | core/sat/native/mini/lmaple/lmaple/core/Solver.cc:1591-1601 | A unit clause may watch its literal of the highest level instead. |
| `Propagation.ConflictWatches` | core/sat/native/mini/lmaple/lmaple/core/Solver.cc:1583-1590 | In a clause found false, no watch was falsified before the position being propagated. |
| `Kernel.MidMove` | core/sat/native/mini/lmaple/lmaple/core/Solver.cc:1560-1575 | One watcher moved to another list: lists, clauses, trail and database stay consistent in the middle of the in-place compaction. |
| `Kernel.MidUnit` | core/sat/native/mini/lmaple/lmaple/core/Solver.cc:1578-1590 | One watcher whose clause became unit, implied at the current level. |
| `Kernel.MidUnitRewatch` | core/sat/native/mini/lmaple/lmaple/core/Solver.cc:1591-1604 | One watcher whose clause became unit below the current level, with its watch moved to the highest level. |
| `Kernel.MidConflict` | core/sat/native/mini/lmaple/lmaple/core/Solver.cc:1583-1590 | A conflict found in the middle of a list leaves the lists and the database intact and everything before the newest level propagated. |
| `Solving.Solver.UncheckedEnqueue` | core/sat/native/mini/lmaple/lmaple/core/Solver.cc:1470-1491 | The new trail, assignment and variable data are the enqueued ones. |
| `Solving.Solver.PropagateBinary` | core/sat/native/mini/lmaple/lmaple/core/Solver.cc:1523-1540 | Visits all binary clauses of a literal, or returns one that is false. |
| `Solving.Solver.FindNewWatch` | core/sat/native/mini/lmaple/lmaple/core/Solver.cc:1558-1575 | The first literal from index 2 on that is not false, if any. |
| `Solving.Solver.MaxLevel` | core/sat/native/mini/lmaple/lmaple/core/Solver.cc:1591-1600 | Highest level among the literals from index 1 on and where it first occurs. |
| `Solving.Solver.VisitLong` | core/sat/native/mini/lmaple/lmaple/core/Solver.cc:1547-1612 | One step of the compaction keeps the visiting invariant for the clauses still pending. |
| `Solving.Solver.PropagateLong` | core/sat/native/mini/lmaple/lmaple/core/Solver.cc:1541-1615 | Compacts the list in place; afterwards the position is propagated, or a clause is false and the queue is drained. |
| `Solving.Solver.CopyRest` | core/sat/native/mini/lmaple/lmaple/core/Solver.cc:1585-1588 | The remaining watchers follow the kept ones. |
| `Solving.Solver.Propagate` | core/sat/native/mini/lmaple/lmaple/core/Solver.cc:1504-1618 | Without conflict everything on the trail is propagated and the full invariant holds; a conflict is a stored clause made false, with everything before the newest level still propagated. Clauses are only rearranged, and without conflict the propagations counted are the literals that were waiting. |
| `Solving.Solver.Clean` | core/sat/native/mini/lmaple/lmaple/core/SolverTypes.h:290-300 | Keeps exactly the watchers of clauses in use, in order. |
| `Solving.Solver.CleanAll` | core/sat/native/mini/lmaple/lmaple/core/SolverTypes.h:282-288 | Afterwards no list is dirty, and all live clauses are listed. |
| `Solving.Solver.CancelUntil` | core/sat/native/mini/lmaple/lmaple/core/Solver.cc:1056-1105 | The new trail, assignment, level starts and queue head are those of backtracking to the given level, or nothing changes; exactly the decision variables unassigned are put back, and only in the heap in use. |
| `Solving.Solver.PushSaved` | core/sat/native/mini/lmaple/lmaple/core/Solver.cc:1096-1103 | The saved literals return in their old order. |
| `Solving.Solver.HighestLevel` | core/sat/native/mini/lmaple/lmaple/core/Solver.cc:1147-1170 | Highest level in the clause, its first position, and whether it occurs only once. |
| `Solving.Solver.RemoveWatcher` | core/sat/native/mini/lmaple/lmaple/core/Solver.cc:1171-1178 | The list without its first watcher of the clause, in order. |
| `Solving.Solver.FindConflictLevel` | core/sat/native/mini/lmaple/lmaple/core/Solver.cc:1147-1180 | Afterwards the first literal of the false clause has its highest level, the flag tells exactly whether it is alone there, the clause has kept its literals, and below that level the watch invariant holds. |
| `Kernel.FrontedAll` | core/sat/native/mini/lmaple/lmaple/core/Solver.cc:1171-1178 | Exchanging the watch of a false clause for its literal of the highest level keeps database, lists and the watch invariant below that level. |
| `Analysis.LearntEntailed` | core/sat/native/mini/lmaple/lmaple/core/Solver.cc:1199-1275 | Resolving the conflict along the trail back to the first unique implication point gives a clause the formula entails. |
| `Analysis.SelectStep` | core/sat/native/mini/lmaple/lmaple/core/Solver.cc:1243-1262 | Taking the highest flagged literal of the conflict level keeps the bookkeeping of flags, open literals and learnt tail. |
| `Analysis.HasReason` | core/sat/native/mini/lmaple/lmaple/core/Solver.cc:1243-1265 | While another literal of the conflict level is flagged below, the one taken has a reason. |
| `Kernel.UipReached` | core/sat/native/mini/lmaple/lmaple/core/Solver.cc:1243-1275 | When the walk ends the learnt clause is entailed, all false, free of repeated variables, and has exactly one literal of the conflict level. |
| `Solving.Solver.MarkClause` | core/sat/native/mini/lmaple/lmaple/core/Solver.cc:1224-1241 | Flags exactly the literals of the clause above level 0; those below the conflict level join the learnt clause, the others are counted. |
| `Solving.Solver.SelectNext` | core/sat/native/mini/lmaple/lmaple/core/Solver.cc:1243-1250 | The highest flagged literal of the conflict level, never running off the trail. |
| `Solving.Solver.FirstUip` | core/sat/native/mini/lmaple/lmaple/core/Solver.cc:1199-1275 | Ends with an entailed clause, all false, exactly one literal of the conflict level, its tail exactly the variables flagged. In front it has the negation of the unique implication point nearest to the conflict: the last literal of the conflict level on the trail through which every path of reasons from the conflict to the decision of that level passes. |
| `Unwinding.TakeWalk` | core/sat/native/mini/lmaple/lmaple/core/Solver.cc:1251-1262 | Taking one literal off and flagging what its reason mentions is one step of the walk, which has not come to its end while others are open. |
| `Unwinding.WalkEnds` | core/sat/native/mini/lmaple/lmaple/core/Solver.cc:1243-1275 | The loop over flags and counter stops where that walk comes to its first point, with exactly its flags. |
| `Domination.StopsReached` | core/sat/native/mini/lmaple/lmaple/core/Solver.cc:1243-1250 | Above the positions passed, the walk stops at a literal of the conflict level exactly if a path of reasons leads to it from the conflict. |
| `Domination.UipExact` | core/sat/native/mini/lmaple/lmaple/core/Solver.cc:1243-1262 | One literal of the conflict level is left at a position exactly if every path of reasons from the conflict to the decision of the level passes through it; with two left, some path avoids each. |
| `Domination.FirstIsNearest` | core/sat/native/mini/lmaple/lmaple/core/Solver.cc:1199-1275 | Walking down from the conflict, the first position where one literal of the conflict level is left is the last unique implication point of the trail: a dominator of the decision in the implication graph, and no later literal is one. |
| `Analysis.MinimisedEntailed` | core/sat/native/mini/lmaple/lmaple/core/Solver.cc:1279-1315 | Dropping at once all literals that are expanded into flagged ones is sound, though each may lean on others dropped too. |
| `Analysis.ExploreDone` | core/sat/native/mini/lmaple/lmaple/core/Solver.cc:1397-1431 | Expanding one literal of the stack keeps the explored set closed under reasons, but for the stack. |
| `Analysis.ExploreEnd` | core/sat/native/mini/lmaple/lmaple/core/Solver.cc:1397-1431 | When the stack is empty the explored set is closed under reasons. |
| `Solving.Solver.ExpandReason` | core/sat/native/mini/lmaple/lmaple/core/Solver.cc:1407-1425 | Flags and stacks what a reason mentions and tells exactly what was flagged, everything on a path from p; it gives up only if some path from p is stuck. |
| `Solving.Solver.LitRedundant` | core/sat/native/mini/lmaple/lmaple/core/Solver.cc:1397-1431 | True if and only if no path from the literal, following reasons through levels of the clause, comes to a decision or to another level before it meets a flagged literal or level 0; on giving up all flags are as before. It terminates. |
| `Redundancy.LeadsOn` | core/sat/native/mini/lmaple/lmaple/core/Solver.cc:1407-1425 | A literal that can neither be expanded nor is flagged shows a path that is stuck. |
| `Redundancy.NotStuck` | core/sat/native/mini/lmaple/lmaple/core/Solver.cc:1397-1431 | If all that has been flagged rests on flagged literals, no path gets stuck. |
| `Solving.Solver.LocallyRedundant` | core/sat/native/mini/lmaple/lmaple/core/Solver.cc:1295-1310 | True if and only if the reason mentions nothing but flagged literals and level 0. |
| `Solving.Solver.Minimise` | core/sat/native/mini/lmaple/lmaple/core/Solver.cc:1279-1315 | Compacted in place, exactly these literals survive: in the deep mode, literal 0, decisions, and those from which some path is stuck; in the local mode those whose reason mentions another literal; otherwise all. What is left is still entailed. |
| `Analysis.BinaryEntailed` | core/sat/native/mini/lmaple/lmaple/core/Solver.cc:1365-1393 | Resolving away literals by binary clauses that share literal 0 keeps the clause entailed. |
| `BinaryResolution.ShrinkEnd` | core/sat/native/mini/lmaple/lmaple/core/Solver.cc:1382-1391 | The shrink loop that fetches literals from the end keeps exactly the stamped ones. |
| `Solving.Solver.UnstampResolvable` | core/sat/native/mini/lmaple/lmaple/core/Solver.cc:1370-1381 | Unstamps exactly the literals that a stored binary clause with literal 0 resolves away, and counts each once. |
| `Kernel.BinaryExact` | core/sat/native/mini/lmaple/lmaple/core/Solver.cc:1370-1381 | The watchers of a literal tell exactly with which literals it forms a stored binary clause. |
| `Solving.Solver.RemoveUnstamped` | core/sat/native/mini/lmaple/lmaple/core/Solver.cc:1382-1391 | Keeps literal 0 and exactly the literals not unstamped, without repeated variables. |
| `Solving.Solver.BinResMinimize` | core/sat/native/mini/lmaple/lmaple/core/Solver.cc:1365-1393 | Exactly the literals that a stored binary clause with literal 0 resolves away go; the result is still an entailed part of the first-UIP clause with literal 0 in front. |
| `Solving.Solver.BacktrackLevel` | core/sat/native/mini/lmaple/lmaple/core/Solver.cc:1317-1332 | A literal of the highest level after the first is moved to index 1, and that level is returned. |
| `Analysis.LearntShape` | core/sat/native/mini/lmaple/lmaple/core/Solver.cc:1317-1332 | The final learnt clause: entailed, all false, one literal of the conflict level in front, all others at or below the level to backtrack to. |
| `Solving.Solver.Analyze` | core/sat/native/mini/lmaple/lmaple/core/Solver.cc:1199-1362 | Conflict analysis as a whole: the first-UIP clause less exactly what the two minimisations drop, an entailed asserting clause with the highest remaining level next; flags cleared, clauses only rearranged. |
| `Steps.LearntIsUnit` | core/sat/native/mini/lmaple/lmaple/core/Solver.cc:1888-1910 | After backtracking anywhere between the two levels, literal 0 is unassigned and every other literal still false. |
| `Steps.BacktrackExact` | core/sat/native/mini/lmaple/lmaple/core/Solver.cc:1900-1910 | Backtracking is chronological, to one below the highest level of the conflict, exactly if the option allows it (-1 never does), enough conflicts have passed and the jump is long enough; else it goes to the level of the clause. |
| `Steps.CancelReady` | core/sat/native/mini/lmaple/lmaple/core/Solver.cc:1056-1105 | Backtracking from any state with an intact database leaves a state ready for propagation. |
| `Steps.LearnReady` | core/sat/native/mini/lmaple/lmaple/core/Solver.cc:1928-1940 | Attaching an entailed unit clause and enqueueing its literal keeps the whole invariant. |
| `Steps.UnitReady` | core/sat/native/mini/lmaple/lmaple/core/Solver.cc:1921-1922 | Enqueueing a learnt unit at level 0, whatever the current level, keeps the whole invariant. |
| `Steps.DecideReady` | core/sat/native/mini/lmaple/lmaple/core/Solver.cc:2062-2064 | A decision keeps the whole invariant. |
| `Steps.FullModel` | core/sat/native/mini/lmaple/lmaple/core/Solver.cc:2052-2060 | When propagation is complete and every variable is assigned, the trail is a model of the formula. |
| `Steps.RootRefuted` | core/sat/native/mini/lmaple/lmaple/core/Solver.cc:1888-1893 | A conflict whose highest level is 0 refutes the formula. |
| `Solving.Solver.Attach` | core/sat/native/mini/lmaple/lmaple/core/Solver.cc:988-997 | The clause is stored and listed under its first two literals; nothing else changes. |
| `Solving.Solver.AddLearnt` | core/sat/native/mini/lmaple/lmaple/core/Solver.cc:1919-1940 | Enqueues the first literal: of a unit at level 0, of a longer clause at the level it asserts at, with the clause, now stored and listed, as reason; the invariant survives. |
| `Solving.Solver.UseLearnt` | core/sat/native/mini/lmaple/lmaple/core/Solver.cc:1900-1940 | Afterwards the state is that of backtracking, followed by the learnt literal at its level with its reason: a longer clause is stored and listed among the learnt ones, a unit holds at level 0. |
| `Solving.Solver.LearntHolds` | core/sat/native/mini/lmaple/lmaple/core/Solver.cc:1919-1940 | After learning, the first literal of the clause is true, at level 0 or at the level to backtrack to, with the stored clause as its reason. |
| `Steps.LearntTrue` | core/sat/native/mini/lmaple/lmaple/core/Solver.cc:1919-1940 | On the trail that learning leaves the first literal of the clause is true at its level. |
| `Solving.Solver.BacktrackLearnt` | core/sat/native/mini/lmaple/lmaple/core/Solver.cc:1900-1910 | Backtracking goes one level down or to the level of the clause as the options say, and leaves the learnt clause unit and the solver ready to propagate. |
| `Solving.Solver.LeaveLevel` | core/sat/native/mini/lmaple/lmaple/core/Solver.cc:1890-1894 | With a single literal of the highest level, the solver goes back to one level below without learning, and the invariant holds. |
| `Solving.Solver.HandleConflict` | core/sat/native/mini/lmaple/lmaple/core/Solver.cc:1875-1944 | A conflict refutes the formula exactly if its highest level is 0. With one literal of its highest level the solver goes back below it and learns nothing; with more, it learns what analysis finds, which is stored and asserted. All invariants hold at a lower level; variables unassigned are back in the heap. |
| `FinalConflict.FinalEntailed` | core/sat/native/mini/lmaple/lmaple/core/Solver.cc:1442-1468 | The clause collected from the falsified assumption is entailed by the formula. |
| `FinalConflict.FinalShapeExact` | core/sat/native/mini/lmaple/lmaple/core/Solver.cc:1442-1468 | The collected clause consists of negated assumptions only if and only if the falsified assumption is not a late unit of level 0, or its negation is an assumption too. |
| `Shortcomings.LateUnitExample` | core/sat/native/mini/lmaple/lmaple/core/Solver.cc:1442-1468 | The run, on states of the solver: two clauses, assumptions b and a, the conflict, the unit learnt, the chronological backtrack with the options it needs, and the late unit; from there every trace of the analysis, and the one given, collects the falsified assumption itself. |
| `FinalConflict.BlamedUnsat` | core/sat/native/mini/lmaple/lmaple/core/Solver.cc:2042-2044 | A final conflict shows that the formula and the assumptions have no common model. |
| `FinalConflict.DummyLevel` | core/sat/native/mini/lmaple/lmaple/core/Solver.cc:2039-2041 | A dummy level for an assumption that is already true keeps the whole invariant. |
| `FinalConflict.DecideAll` | core/sat/native/mini/lmaple/lmaple/core/Solver.cc:2062-2064 | Deciding on the next assumption, or freely after all of them, keeps the invariant about assumptions. |
| `FinalConflict.CancelAssuming` | core/sat/native/mini/lmaple/lmaple/core/Solver.cc:1056-1105 | Backtracking keeps: each level opened for an assumption has it true, and decisions of those levels are assumptions. |
| `Solving.Solver.FlagReason` | core/sat/native/mini/lmaple/lmaple/core/Solver.cc:1457-1463 | Flags the variables of level above 0 of a reason, but for the implied one. |
| `Solving.Solver.AnalyzeFinal` | core/sat/native/mini/lmaple/lmaple/core/Solver.cc:1442-1468 | The falsified assumption negated, and the negations of exactly the literals without a reason from level 1 on on which it rests: an entailed clause, of negated assumptions but for the late-unit case; flags are cleared. |
| `Blaming.BlameExact` | core/sat/native/mini/lmaple/lmaple/core/Solver.cc:1442-1468 | Such a literal is collected if and only if a chain of reasons leads to it from the falsified assumption. |
| `Blaming.CollectsOnly` | core/sat/native/mini/lmaple/lmaple/core/Solver.cc:1442-1468 | Nothing is collected but the negations of literals without a reason. |
| `Solving.Solver.NextAssumption` | core/sat/native/mini/lmaple/lmaple/core/Solver.cc:2035-2049 | Gives the assumptions their turn: those that are true get a level each, with no literal; stops at the first undefined one, or at a false one with the explanation of that one. |
| `Solving.Solver.PickBranchLit` | core/sat/native/mini/lmaple/lmaple/core/Solver.cc:1110-1145 | Takes variables off the heap in use down to one that may be decided; nothing is left exactly if the heap holds no unassigned decision variable, and then the assignment is complete if and only if the heap lacked no such variable before. |
| `Solving.Solver.InsertVarOrder` | core/sat/native/mini/lmaple/lmaple/core/Solver.h:537-540 | A decision variable goes into the heap in use; the other heap is not told. |
| `Ordering.StockCancel` | core/sat/native/mini/lmaple/lmaple/core/Solver.cc:1085-1094 | Backtracking keeps: the heap in use lacks assigned variables only, the other one only those of level 0. |
| `Ordering.StockDecide` | core/sat/native/mini/lmaple/lmaple/core/Solver.cc:2054-2064 | So does deciding on the variable taken off the heap. |
| `Ordering.StockExtends` | core/sat/native/mini/lmaple/lmaple/core/Solver.cc:1504-1618 | So does propagation. |
| `Ordering.EmptyHeapFull` | core/sat/native/mini/lmaple/lmaple/core/Solver.cc:2155-2222 | If a heap is empty, both lack assigned variables only exactly when every decision variable is assigned. |
| `Ordering.HeapLost` | core/sat/native/mini/lmaple/lmaple/core/Solver.cc:2155-2222 | A heap emptied by the answer l_True stays empty if the mode changes before the final backtrack, and is empty when the mode changes back. |
| `Shortcomings.LostVariables` | core/sat/native/mini/lmaple/lmaple/core/Solver.cc:2117-2232 | Four clauses, solved with ~a and then with a, from any state with nothing learnt or assigned, whatever the order of literals and watches: in the second call the assumption is decided, propagation implies nothing and finds no conflict, the heap in use is empty, so the answer is l_True, although the clauses and a have no model. |
| `Shortcomings.SquareQuiet` | core/sat/native/mini/lmaple/lmaple/core/Solver.cc:1504-1618 | Whatever propagation does to a state over these clauses once a is decided, the trail stays as it is and no clause becomes false. |
| `Shortcomings.SquareAtRest` | core/sat/native/mini/lmaple/lmaple/core/Solver.cc:935-986 | Adding the four clauses to a new solver gives such a state. |
| `Solving.Solver.Branch` | core/sat/native/mini/lmaple/lmaple/core/Solver.cc:2049-2064 | l_True exactly if no assumption is due and the heap holds no unassigned decision variable; the assignment is then complete if and only if the heap lacked none. Undecided, a level has been opened with the assumption in turn, or else a decision variable off the heap, as its only literal. |
| `Ordering.NothingExact` | core/sat/native/mini/lmaple/lmaple/core/Solver.cc:1122-1125 | When the heap in use offers nothing, every decision variable is assigned if and only if the heap lacked assigned variables only. |
| `Solving.Solver.RemoveMin` | core/sat/native/mini/lmaple/lmaple/core/Solver.cc:1141 | Takes exactly one variable off the heap in use. |
| `Forgetting.ReasonFreed` | core/sat/native/mini/lmaple/lmaple/core/Solver.cc:1038-1042 | Clearing the reason of a literal of level 0 keeps the invariant. |
| `Forgetting.RemovedReady` | core/sat/native/mini/lmaple/lmaple/core/Solver.cc:1020-1045 | Forgetting a clause that is no reason, with its lists marked dirty, keeps the invariant. |
| `Forgetting.LockedExact` | core/sat/native/mini/lmaple/lmaple/core/Solver.h:575-578 | A clause is locked if and only if it is the reason of some literal of the trail. |
| `Solving.Solver.RemoveClause` | core/sat/native/mini/lmaple/lmaple/core/Solver.cc:1020-1045 | Removes one clause and keeps the invariant with the rest. |
| `Solving.Solver.Satisfied` | core/sat/native/mini/lmaple/lmaple/core/Solver.cc:1047-1052 | Whether some literal is true. |
| `Solving.Solver.RemoveSatisfied` | core/sat/native/mini/lmaple/lmaple/core/Solver.cc:1674-1684 | At level 0, dropping satisfied problem clauses loses nothing of the formula. |
| `Solving.Solver.ReduceDB` | core/sat/native/mini/lmaple/lmaple/core/Solver.cc:1633-1655 | Drops only learnt clauses that are not locked, any of them; the trail is as before and the invariant survives. |
| `Solving.Solver.RemoveSatisfiedLearnts` | core/sat/native/mini/lmaple/lmaple/core/Solver.cc:1674-1697 | At level 0 exactly the satisfied learnt clauses go, those that are reasons too. |
| `Solving.Solver.ForgetSatisfied` | core/sat/native/mini/lmaple/lmaple/core/Solver.cc:1726-1731 | Afterwards no learnt clause is satisfied; whatever has gone was. |
| `Solving.Solver.Simplify` | core/sat/native/mini/lmaple/lmaple/core/Solver.cc:1717-1738 | Level-0 simplification reports false only if the formula is refuted; it rebuilds the order heaps or leaves them alone, and leaves them alone if nothing new is assigned. |
| `Solving.Solver.Housekeep` | core/sat/native/mini/lmaple/lmaple/core/Solver.cc:1726-1736 | After the removal of satisfied clauses both heaps are full again. |
| `Solving.Solver.RebuildOrderHeap` | core/sat/native/mini/lmaple/lmaple/core/Solver.cc:1699-1707 | Both heaps hold exactly the unassigned decision variables. |
| `Solving.Solver.Extend` | core/sat/native/mini/lmaple/lmaple/core/Solver.cc:1990-2064 | A step without conflict: l_True with everything propagated, every assumption true and the heap empty, and with every decision variable assigned if the heap was full; l_False only with a refutation or a final conflict; otherwise a decision has been made, higher up than before. |
| `Solving.Solver.SearchStep` | core/sat/native/mini/lmaple/lmaple/core/Solver.cc:1860-2068 | One turn of the loop either decides the search, restarts it at level 0, counts one more conflict, or makes a decision on a higher level. |
| `Solving.Solver.Restart` | core/sat/native/mini/lmaple/lmaple/core/Solver.cc:2014-2019 | Back to level 0 with all invariants. |
| `Solving.Solver.Search` | core/sat/native/mini/lmaple/lmaple/core/Solver.cc:1825-2070 | Over a whole run: if at its start the heap in use lacks assigned variables only, so it does at its end, and l_True comes with every decision variable assigned; l_False only if the formula is refuted or a final conflict blames assumptions; undecided it is back at level 0 by a restart or has made all its turns; everything stored stays entailed throughout, with clauses of other solvers imported at level 0, and what is exported may be imported by any other solver. |
| `Solving.Solver.Solve` | core/sat/native/mini/lmaple/lmaple/core/Solver.cc:2117-2232 | l_True: the assumptions hold in the model returned, and it satisfies the formula if it is complete, which it is if both heaps were full before the call and all variables may be decided on; l_False: formula and assumptions have no common model; undecided: all restarts of both phases have been used, or a search was interrupted, no sooner than after the given number of turns. Whether the heaps are full again afterwards is stated by the mode of the last search. |
| `Solving.Solver.Finish` | core/sat/native/mini/lmaple/lmaple/core/Solver.cc:2208-2222 | Records the verdict, returns to level 0, and says what the heaps hold then. |
| `Solving.Solver.SwitchMode` | core/sat/native/mini/lmaple/lmaple/core/Solver.cc:2159-2178 | Between undecided searches, at level 0, the mode may change and both heaps stay full; after a verdict the change leaves the popped variables out of the heap of that search. |
| `Solving.Solver.BlamesUnsat` | core/sat/native/mini/lmaple/lmaple/core/Solver.cc:2042-2044 | A final conflict found by the search means formula and assumptions are unsatisfiable together. |
| `Solving.Solver.TrailIsModel` | core/sat/native/mini/lmaple/lmaple/core/Solver.cc:2052-2060 | When the search answers l_True every assumption holds, and if every variable is assigned the trail is a model of the formula. |
| `Adding.LitLessIsStrictWeak` | core/sat/native/mini/mtl/Sort.h:59-89 | The literal order used for sorting is a strict weak order. |
| `Adding.ReducedEquivalent` | core/sat/native/mini/lmaple/lmaple/core/Solver.cc:935-975 | The normalised clause has the same models as the input, given the literals of level 0. |
| `Adding.RedundantAdds` | core/sat/native/mini/lmaple/lmaple/core/Solver.cc:944-952 | A clause already satisfied, or with complementary literals that are not false, may be skipped. |
| `Adding.UnitAdds` | core/sat/native/mini/lmaple/lmaple/core/Solver.cc:972-976 | A clause normalised to a unit is fully represented by the enqueued literal. |
| `Adding.StoreReady` | core/sat/native/mini/lmaple/lmaple/core/Solver.cc:977-983 | A clause normalised to two or more literals is fully represented by the stored clause. |
| `Adding.EmptyRefutes` | core/sat/native/mini/lmaple/lmaple/core/Solver.cc:968-971 | A clause normalised to nothing refutes the formula. |
| `Solving.Solver.NormaliseClause` | core/sat/native/mini/lmaple/lmaple/core/Solver.cc:935-966 | Returns early exactly when the input is satisfied or contains a complementary pair that is not false; otherwise leaves a duplicate-free equivalent. |
| `Solving.Solver.CompactLits` | core/sat/native/mini/lmaple/lmaple/core/Solver.cc:941-960 | The single in-place pass over sorted literals. |
| `Solving.Solver.AddClause` | core/sat/native/mini/lmaple/lmaple/core/Solver.cc:935-986 | Adds exactly the given clause to the formula; false exactly when the solver now knows the formula refuted; the order heaps are left alone. |
| `Vivification.SearchedEntails` | core/sat/native/mini/lmaple/lmaple/core/Solver.cc:415-458 | What the analysis collects is entailed by the database. |
| `Vivification.SearchedFinds` | core/sat/native/mini/lmaple/lmaple/core/Solver.cc:415-458 | A conflict above level 0 always leads down to an assumed literal, so the result is not empty. |
| `Vivification.NothingLeft` | core/sat/native/mini/lmaple/lmaple/core/Solver.cc:447-452 | When the walk stops, unresolved flags belong to level 0. |
| `Vivification.KeptEntailed` | core/sat/native/mini/lmaple/lmaple/core/Solver.cc:475-500 | Dropping literals that the negations of the others falsify is sound. |
| `Vivification.AnalysedVivifies` | core/sat/native/mini/lmaple/lmaple/core/Solver.cc:505-515 | The analysed clause is a non-empty part, without repetition, of the clause assumed so far and is entailed. |
| `Vivification.ProbeCancel` | core/sat/native/mini/lmaple/lmaple/core/Solver.cc:398-405 | Leaving all assumed literals restores the trail and the assignment. |
| `Vivification.VivifiedSameModels` | core/sat/native/mini/lmaple/lmaple/core/Solver.cc:460-523 | Replacing the clause by its vivified form keeps the same models. |
| `Vivification.VivifiedFollows` | core/sat/native/mini/lmaple/lmaple/core/Solver.cc:460-523 | The vivified form of an entailed clause is entailed. |
| `Solving.Solver.SimplePropagate` | core/sat/native/mini/lmaple/lmaple/core/Solver.cc:265-389 | Propagation without levels keeps the invariant under virtual levels, or returns a false clause; clauses are only rearranged. |
| `Solving.Solver.SimpleAnalyze` | core/sat/native/mini/lmaple/lmaple/core/Solver.cc:415-458 | Collects exactly the negations of the assumed literals on which the conflict rests, in the order of the walk; flags left behind are of level 0. |
| `Blaming.CollectedRests` | core/sat/native/mini/lmaple/lmaple/core/Solver.cc:415-458 | Of the literals without a reason, exactly those are collected on which a literal the walk started from rests. |
| `Solving.Solver.CancelUntilTrailRecord` | core/sat/native/mini/lmaple/lmaple/core/Solver.cc:398-405 | Trail, assignment and queue head are cut back to the record. |
| `Solving.Solver.Probe` | core/sat/native/mini/lmaple/lmaple/core/Solver.cc:475-496 | Assumes the negations in turn, leaving out literals already false, up to exactly the first literal already true or the first conflict of propagation, else to the end. |
| `Solving.Solver.PickConfirmed` | core/sat/native/mini/lmaple/lmaple/core/Solver.cc:500-515 | After a conflict or a true literal, what it rests on, with the true literal in front, if that is shorter than the clause in hand; otherwise what was kept. Either vivifies the clause. |
| `Solving.Solver.SimplifyLearnt` | core/sat/native/mini/lmaple/lmaple/core/Solver.cc:460-523 | At level 0: the outcome of the trial of its literals in order, a non-empty part of the clause that the database with the clause entails; trail, assignment and queue head are restored, clauses only rearranged. |
| `Simplifying.DetachLists` | core/sat/native/mini/lmaple/lmaple/core/Solver.cc:1000-1008 | Taking a clause out of its two lists leaves every other clause listed exactly under its watches. |
| `Simplifying.NoReason` | core/sat/native/mini/lmaple/lmaple/core/Solver.cc:671-674 | A clause without true literals is the reason of nothing, so it may be detached. |
| `Simplifying.DetachReady` | core/sat/native/mini/lmaple/lmaple/core/Solver.cc:674 | Detaching such a learnt clause keeps the whole invariant. |
| `Simplifying.FalseDropped` | core/sat/native/mini/lmaple/lmaple/core/Solver.cc:676-686 | At level 0 the literals of an unsatisfied clause that are not false are at least two, unassigned, and still a consequence of the formula. |
| `Simplifying.AttachReady` | core/sat/native/mini/lmaple/lmaple/core/Solver.cc:729 | Attaching a consequence of the formula whose literals are unassigned keeps the whole invariant. |
| `Solving.Solver.DetachClause` | core/sat/native/mini/lmaple/lmaple/core/Solver.cc:1000-1008 | The clause is out of use and out of exactly its two lists. |
| `Solving.Solver.DropFalse` | core/sat/native/mini/lmaple/lmaple/core/Solver.cc:676-683 | Exactly the literals that are not false, without repetition. |
| `Solving.Solver.Shorten` | core/sat/native/mini/lmaple/lmaple/core/Solver.cc:686-689 | Between two steps of the search, a detached clause becomes the outcome of its trial, a non-empty part of itself that still follows from the formula; trail and assignment are as before. |
| `Solving.Solver.StoreLearnt` | core/sat/native/mini/lmaple/lmaple/core/Solver.cc:729-730 | A consequence of the formula with unassigned literals becomes a learnt clause, in the place of the one it shortens or last, and the invariant of the search holds. |
| `Solving.Solver.Conclude` | core/sat/native/mini/lmaple/lmaple/core/Solver.cc:710-719 | A unit that is left becomes a fact of level 0 and is propagated; a conflict refutes the formula. |
| `Solving.Solver.SimplifyAt` | core/sat/native/mini/lmaple/lmaple/core/Solver.cc:645-741 | A learnt clause that level 0 satisfies goes. Of another one, the literals that are not false are tried; the outcome takes its place, or, as a unit, becomes a fact, or the formula is refuted; nothing assigned is lost. |
| `Solving.Solver.SimplifyPass` | core/sat/native/mini/lmaple/lmaple/core/Solver.cc:631-748 | A pass over the learnt clauses keeps the invariant of the search, whichever of them are due. |
| `Solving.Solver.SimplifyAll` | core/sat/native/mini/lmaple/lmaple/core/Solver.cc:874-905 | Vivifying the learnt clauses in the course of the search keeps all its invariants, or refutes the formula; flags left behind do no harm. |
| `Simplifying.FalseLeft` | core/sat/native/mini/lmaple/lmaple/core/Solver.cc:128-136 | At level 0 what is not false in a consequence of the formula is itself a consequence. |
| `Importing.LearntImportable` | core/sat/native/mini/lmaple/lmaple/core/Solver.cc:1897-1899 | A learnt clause, exported before backtracking, is a duplicate-free consequence of the formula alone, whatever the assumptions it was learnt under. |
| `Importing.ReceivedSound` | core/sat/native/painless/painless-src/solvers/LMapleSolver.cpp:177-183 | Sorted into the two queues of the receiver, exported clauses are what a solver of the formula may import. |
| `Importing.FalseImported` | core/sat/native/mini/lmaple/lmaple/core/Solver.cc:143-144 | An imported clause that is false at level 0 refutes the formula. |
| `Solving.Solver.LearnFrom` | core/sat/native/mini/lmaple/lmaple/core/Solver.cc:1896-1944 | A conflict with two or more literals of its highest level: the first-UIP clause less what minimisation drops is learnt, stored and asserted after the backtrack; it may be imported by any solver of the formula, and all invariants hold at a lower level. |
| `Solving.Solver.DropAssigned` | core/sat/native/mini/lmaple/lmaple/core/Solver.cc:126-136 | Tells whether a literal is true, else leaves exactly the literals without value. |
| `Solving.Solver.ImportUnit` | core/sat/native/mini/lmaple/lmaple/core/Solver.cc:107-113 | The literal is true afterwards; false is returned exactly if it was false, and then the formula is refuted. |
| `Solving.Solver.ImportClause` | core/sat/native/mini/lmaple/lmaple/core/Solver.cc:125-164 | A satisfied clause changes nothing; of another one, the literals without value become a learnt clause or a fact of level 0; false is returned exactly if all literals were false, and then the formula is refuted. |
| `Solving.Solver.Import` | core/sat/native/mini/lmaple/lmaple/core/Solver.cc:1868-1873 | Importing any consequences of the formula, in any number, at the point where the search does it, keeps the invariant of the search and the order heaps, or refutes the formula. |
| `Portfolios.Gather` | core/sat/native/painless/painless-src/sharing/HordeSatSharing.cpp:31-86 | Whatever part of the exported clauses is handed on may be imported. |
| `Portfolios.Work` | core/sat/native/painless/painless-src/working/SequentialWorker.cpp:43-48 | A worker under new assumptions, with imported clauses: a right answer, and again only clauses exported that others may import. |
| `Portfolios.WorkOff` | core/sat/native/painless/painless-src/working/SequentialWorker.cpp:25-53 | Several solvers of one formula, exchanging learnt clauses, work off any tasks in any order: every answer is right for the assumptions of its task. |
| `Subsuming.SignatureCovered` | core/sat/native/mini/lmaple/lmaple/core/SolverTypes.h:107-113 | If all variables of one clause occur in another, its signature is covered by the other one. |
| `Subsuming.FilterSound` | core/sat/native/mini/lmaple/lmaple/core/SolverTypes.h:360-368 | Size and signature checks reject only pairs that the loops reject. |
| `Subsuming.FitsOnce` | core/sat/native/mini/lmaple/lmaple/core/SolverTypes.h:360-388 | At most one verdict fits a pair of clauses. |
| `Subsuming.SubsumedEntails` | core/sat/native/mini/lmaple/lmaple/core/SolverTypes.h:348-352 | lit_Undef: this clause entails the other. |
| `Subsuming.StrengthenedEntails` | core/sat/native/mini/lmaple/lmaple/core/SolverTypes.h:348-352 | p: the two clauses entail the other one without the negation of p. |
| `Subsuming.StoredClause.CalcAbstraction` | core/sat/native/mini/lmaple/lmaple/core/SolverTypes.h:107-113 | The stored signature is that of the literals. |
| `Subsuming.StoredClause.Shrink` | core/sat/native/mini/lmaple/lmaple/core/SolverTypes.h:116-121 | Drops the last literals; the signature field moves along unchanged. |
| `Subsuming.StoredClause.FindMatch` | core/sat/native/mini/lmaple/lmaple/core/SolverTypes.h:374-381 | Finds the literal, or its negation if none has been used, exactly when there is one. |
| `Subsuming.StoredClause.Compare` | core/sat/native/mini/lmaple/lmaple/core/SolverTypes.h:370-388 | The nested loops return the verdict that fits. |
| `Subsuming.StoredClause.Subsumes` | core/sat/native/mini/lmaple/lmaple/core/SolverTypes.h:360-388 | With the filter in front the verdict is still the one that fits. |
| `Subsuming.StoredClause.Remove` | core/sat/native/mini/mtl/Alg.h:35-44 | The clause without the first occurrence of the literal, in order. |
| `Subsuming.StoredClause.Strengthen` | core/sat/native/mini/lmaple/lmaple/core/SolverTypes.h:390-393 | Removes the literal and brings the signature up to date. |
| `Sorting.SelectionSort` | core/sat/native/mini/mtl/Sort.h:38-53 | Sorts a short range in place and permutes only it. |
| `Sorting.ScanUp` | core/sat/native/mini/mtl/Sort.h:75-80 | The unguarded upward scan stops inside the range. |
| `Sorting.ScanDown` | core/sat/native/mini/mtl/Sort.h:75-80 | The unguarded downward scan stops inside the range. |
| `Sorting.Partition` | core/sat/native/mini/mtl/Sort.h:67-85 | Splits the range into two strictly smaller parts, one at most and one at least the pivot. |
| `Sorting.Sort` | core/sat/native/mini/mtl/Sort.h:59-89 | For any strict weak order: sorted, a permutation of the range, nothing else touched. |
| `Heaps.RootLeast` | core/sat/native/mini/mtl/Heap.h:32-37 | In heap order the root is a least key. |
| `Heaps.UpStep` | core/sat/native/mini/mtl/Heap.h:49-61 | Moving a key above a greater parent leaves at most its new position wrong. |
| `Heaps.DownStep` | core/sat/native/mini/mtl/Heap.h:63-75 | Moving a key below its lesser child leaves at most its new position wrong. |
| `Heaps.MoveHole` | core/sat/native/mini/mtl/Heap.h:49-75 | The index map stays the inverse of the heap but for the key in hand. |
| `Heaps.Rekeyed` | core/sat/native/mini/mtl/Heap.h:94-101 | After one key changed, heap order is lost at most around it: below if it grew, above if it shrank. |
| `Heaps.IndexedHeap.PercolateUp` | core/sat/native/mini/mtl/Heap.h:49-61 | The key rises to where it is not less than its parent; same keys, exact index map. |
| `Heaps.IndexedHeap.PercolateDown` | core/sat/native/mini/mtl/Heap.h:63-75 | The key sinks to where no child is less; same keys, exact index map. |
| `Heaps.IndexedHeap.Decrease` | core/sat/native/mini/mtl/Heap.h:94-97 | Restores heap order after a key became less. |
| `Heaps.IndexedHeap.Increase` | core/sat/native/mini/mtl/Heap.h:98-101 | Restores heap order after a key became greater. |
| `Heaps.IndexedHeap.Update` | core/sat/native/mini/mtl/Heap.h:109-116 | Restores heap order after any change of a key, inserting it if absent. |
| `Heaps.IndexedHeap.Insert` | core/sat/native/mini/mtl/Heap.h:118-125 | Adds exactly the key, in heap order. |
| `Heaps.IndexedHeap.Remove` | core/sat/native/mini/mtl/Heap.h:127-140 | Removes exactly the key; the heap stays ordered if and only if the key that takes its place is not less than its new parent. |
| `Heaps.RemoveExample` | core/sat/native/mini/mtl/Heap.h:127-140 | A heap on which removing a key loses heap order. |
| `Heaps.IndexedHeap.RemoveMin` | core/sat/native/mini/mtl/Heap.h:142-151 | Returns a least key and removes exactly it. |
| `Heaps.IndexedHeap.Build` | core/sat/native/mini/mtl/Heap.h:154-168 | Holds exactly the given keys, in heap order, whatever it held before. |
| `Sharing.ClauseDatabase.AddClause` | core/sat/native/painless/painless-src/clauses/ClauseDatabase.cpp:35-48 | Adds the clause unless its bucket would reach 1000 literals; buckets stay uniform in size. |
| `Sharing.ClauseDatabase.GiveSelection` | core/sat/native/painless/painless-src/clauses/ClauseDatabase.cpp:50-81 | Within the budget, selected and remaining clauses are the old contents, and no other selection within the budget has more clauses. |
| `Sharing.GreedyOptimal` | core/sat/native/painless/painless-src/clauses/ClauseDatabase.cpp:50-81 | Taking all clauses below a size and none above, until less than that size is left, is optimal. |
| `Sharing.StopsOptimal` | core/sat/native/painless/painless-src/clauses/ClauseDatabase.cpp:58-60 | Wherever the loop stops, what it has taken is optimal. |
| `Sharing.ClauseDatabase.PopSome` | core/sat/native/painless/painless-src/clauses/ClauseDatabase.cpp:74-78 | Moves exactly n clauses from the end of a bucket to the selection. |
| `Buffering.StepKeepsInv` | core/sat/native/painless/painless-src/clauses/ClauseBuffer.cpp:46-102 | Whichever thread takes its next atomic step, the invariant survives. |
| `Buffering.LastNode` | core/sat/native/painless/painless-src/clauses/ClauseBuffer.cpp:51-57 | A tail without successor is the last node and buffer.tail has not moved past it, even if it was read long ago. |
| `Buffering.LinkKeeps` | core/sat/native/painless/painless-src/clauses/ClauseBuffer.cpp:56-58 | The successful link appends exactly one clause to the queue. |
| `Buffering.TakeKeeps` | core/sat/native/painless/painless-src/clauses/ClauseBuffer.cpp:91-95 | The successful take removes exactly the first clause, and head does not pass tail. |
| `Buffering.CasTailKeeps` | core/sat/native/painless/painless-src/clauses/ClauseBuffer.cpp:62-66 | Helping tail forward changes nothing in the queue. |
| `Buffering.NextRead` | core/sat/native/painless/painless-src/clauses/ClauseBuffer.cpp:79-88 | If next is null the head read equals the tail read, and if it is still buffer.head the queue is empty. |
| `Buffering.StepRefines` | core/sat/native/painless/painless-src/clauses/ClauseBuffer.cpp:46-102 | Each step is a step of a plain queue or changes nothing there. A call returns exactly with its last step: a consumer the clause it has taken, a producer the clause it has linked, and failure comes only from the check that has seen the queue empty. |
| `Buffering.EveryInterleaving` | core/sat/native/painless/painless-src/clauses/ClauseBuffer.cpp:46-102 | In every interleaving: first in first out, head never passes tail, tail lags by at most one, the counter is the length but for pending updates, and whoever was told of an empty queue had seen one. |
| `Buffering.NoNullDereference` | core/sat/native/painless/painless-src/clauses/ClauseBuffer.cpp:89-91 | The unguarded next->clause never meets a null pointer. |
| `Buffering.Quiescent` | core/sat/native/painless/painless-src/clauses/ClauseBuffer.cpp:66-100 | Once all calls have returned the counter is exact and tail is the last node. |
| `Calling.EveryCall` | core/sat/native/painless/painless-src/clauses/ClauseBuffer.cpp:46-102 | In every interleaving, for every clause: calls of addClause are those returned and those under way; what entered the queue is what addClause returned from and what threads have linked; what left it is what getClause returned and what threads have taken; no getClause failed but on an empty queue. |
| `Calling.AllReturned` | core/sat/native/painless/painless-src/clauses/ClauseBuffer.cpp:46-102 | Once all calls have returned, every clause has been got or is still there, as often as it was added. |
| `Calling.SoloAdd` | core/sat/native/painless/painless-src/clauses/ClauseBuffer.cpp:46-66 | addClause, running alone from any point, even one it was left in by others, returns with its clause appended exactly once. |
| `Calling.SoloGet` | core/sat/native/painless/painless-src/clauses/ClauseBuffer.cpp:73-102 | getClause, running alone from any point of its loop with a fresh read, returns the first clause and takes it off, or fails on an empty queue. |
| `Calling.NoneWaits` | core/sat/native/painless/painless-src/clauses/ClauseBuffer.cpp:46-102 | In any reachable state, any call that runs alone returns within fifteen steps: no thread that stops in the middle of a call holds up another. |
| `Numbers.IncrementAdds` | core/search/FullSearch.cpp:5-15 | Clearing leading ones and setting the next zero adds one. |
| `Numbers.NextDigitsAdds` | core/search/CartesianSearch.cpp:54-65 | Counting up the mixed-radix digits adds one. |
| `Numbers.DigitsValue` | core/search/CartesianSearch.cpp:27-35 | Digits in range are the digits of their value, which is below the product. |
| `Numbers.ValueDigits` | core/search/CartesianSearch.cpp:27-35 | Every number below the product is the value of its digits; with the former, numbers and digits correspond one to one. |
| `Enumeration.PartsCover` | core/search/Search.cpp:6-19 | The parts follow one another without gap or overlap, end at the total, and none is empty if there are no more parts than assignments. |
| `Enumeration.GetStartAndTodo` | core/search/Search.cpp:6-19 | Start and size of a part; the start is inside exactly if the part is not empty. |
| `Enumeration.Search.FullSearch` | core/search/FullSearch.cpp:23 | A whole search standing at the first sign pattern. |
| `Enumeration.Search.CartesianSearch` | core/search/CartesianSearch.cpp:7-17 | A whole search standing at the first choice of blocks. |
| `Enumeration.Search.NextAssignment` | core/search/FullSearch.cpp:5-15 | The next sign pattern, in place. |
| `Enumeration.Search.SetAssignment` | core/search/Search.cpp:59-63 | The sign pattern with the given number. |
| `Enumeration.Search.SetCur` | core/search/CartesianSearch.cpp:37-52 | Rewriting only the blocks from one set on makes the assignment the concatenation of all chosen blocks. |
| `Enumeration.Search.ResetCartesian` | core/search/CartesianSearch.cpp:27-35 | The indices are the mixed-radix digits of the first index, the assignment the blocks they choose. |
| `Enumeration.Search.IncrementDigits` | core/search/CartesianSearch.cpp:54-63 | The next digits, in place, unchanged before the returned position. |
| `Enumeration.Search.AdvanceCartesian` | core/search/CartesianSearch.cpp:54-65 | From index k to index k + 1, rewriting only the suffix. |
| `Enumeration.Search.Next` | core/search/Search.cpp:49-57 | Steps to the next assignment, or returns false at the last. |
| `Enumeration.Search.Clone` | core/search/FullSearch.cpp:27 | A valid copy of the search: a full search stands where the other does, a product search at its start. |
| `Enumeration.Search.SplitSearch` | core/search/Search.cpp:69-83 | The part of an unsplit search that starts and ends where the partition says; a part without assignments stands where the copy does. |
| `Counting.SequentialPropagate` | core/sat/prop/Prop.cpp:10-52 | Propagates each remaining assignment once, in order, until the callback refuses; counts the conflicts; an empty search is still propagated once. |
| `Counting.PropSearch` | core/sat/prop/ParProp.h:61-81 | The calls are those of the search, or of its parts in order, each until the callback has enough; if it always asks for more, they are those of the sequential run, each assignment once, for any number of workers. |
| `Counting.PropPart` | core/sat/prop/ParProp.h:75-79 | One worker makes the calls of its part, until the callback has enough. |
| `Counting.PropParts` | core/sat/prop/ParProp.h:72-81 | Any number of workers: the calls of all parts, and the sum of their counts is the number of conflicts among them. |
| `Counting.SplitCallsAll` | core/sat/prop/ParProp.h:61-81 | With no more parts than assignments and a callback that always asks for more, the parts make exactly the calls of the whole search. |
| `Counting.SplitCountExact` | core/search/Search.cpp:69-83 | What the workers count adds up to the sequential count if and only if there are no more parts than assignments, or the assignment where the search stands is not in conflict. |
| `Counting.OverSplitExample` | core/search/Search.cpp:69-83 | Two workers for a single assignment in conflict count two conflicts. |
| `Counting.FullSearchCounts` | core/sat/prop/Prop.cpp:10-29 | A full search counts exactly the conflicting sign patterns. |
| `Counting.PatternIndex` | core/search/Search.cpp:59-63 | Each sign pattern has exactly one index. |
| `Counting.FixedSumIsTree` | core/sat/prop/ParProp.cpp:63-86 | Fixing some variables in all ways and counting below each misses nothing and counts nothing twice. |
| `Counting.FixHead` | core/sat/prop/ParProp.cpp:77-82 | Gives the next variables the signs of the bits of the worker number. |
| `Counting.PropTree` | core/sat/prop/ParProp.cpp:63-86 | Split over sign prefixes, the counts sum to that of the whole subtree. |
| `Counting.SumFutures` | core/sat/prop/ParProp.cpp:90-96 | The sum of what the workers counted. |
| `Counting.Ilog2` | core/sat/prop/ParProp.cpp:11-18 | The number of binary digits. |
| `Backdoors.FullCovers` | core/solve/rbs/CartesianRBSearch.cpp:75-92 | Every model extends one of the sign patterns. |
| `Backdoors.FilteredCovers` | core/solve/reduce/ReduceSolve.cpp:14-43 | Dropping assignments that sound propagation refutes loses no model. |
| `Backdoors.ProductCovers` | core/solve/rbs/CartesianRBSearch.cpp:122-154 | A product of covering sets covers. |
| `Backdoors.CollectNonConflict` | core/solve/rbs/CartesianRBSearch.cpp:78-87 | Keeps exactly the assignments without conflict, in order. |
| `Backdoors.FilterPatterns` | core/solve/rbs/CartesianRBSearch.cpp:75-88 | The non-refuted patterns of one variable set: none lost, all of one length. |
| `Backdoors.PreSolve` | core/solve/rbs/CartesianRBSearch.cpp:35-120 | Exactly if some set is a strong backdoor or leaves no assignment, the base assumption is refuted; else each algorithm yields exactly the assignments propagation does not refute, a covering set. |
| `Backdoors.MinElement` | core/solve/rbs/CartesianRBSearch.cpp:128-129 | The first smallest set. |
| `Backdoors.TakeSets` | core/solve/rbs/CartesianRBSearch.cpp:135-150 | Takes, in order, exactly the sets that are not too large while the product stays within bounds, and what is left out would exceed them. |
| `Backdoors.PrepareCartesian` | core/solve/rbs/CartesianRBSearch.cpp:122-154 | The product is over the sets picked in order, or over the first smallest one if all are too large; every model extends one of its assignments, and with several sets it is within bounds. |
| `Backdoors.FindRb` | core/solve/rbs/CartesianRBSearch.cpp:16-25 | The search over the product selected from what the backdoors leave, which covers all models; or, exactly if one of them is strong or leaves nothing, a refuted base assumption. |
| `Reducing.Popped` | core/solve/reduce/RecurringReduceSolve.cpp:21-24 | Every model extends a cube still on the stack or the one in progress. |
| `Reducing.Pushed` | core/solve/reduce/RecurringReduceSolve.cpp:60-64 | Slow cubes in place of their base: no model is lost. |
| `Reducing.Lighter` | core/solve/reduce/RecurringReduceSolve.cpp:14-70 | Splitting a cube into deeper ones makes the stack lighter. |
| `Reducing.ReduceSolve.FilterConflict` | core/solve/reduce/ReduceSolve.cpp:14-43 | The assignments not refuted still cover all models. |
| `Reducing.ReduceSolve.SolveFinal` | core/solve/reduce/ReduceSolve.cpp:45-87 | Every cube is given to the service once, without a limit: SAT exactly if it answers with a model, UNSAT only if every cube is refuted, and always an answer. |
| `Reducing.ReduceSolve.FilterFast` | core/solve/reduce/RecurringReduceSolve.cpp:75-132 | Every cube is given to the service once; SAT exactly if one is answered with a model, else exactly the cubes given up are returned as slow, in order, and the others are refuted. |
| `Reducing.SlowExact` | core/solve/reduce/RecurringReduceSolve.cpp:100-131 | A cube is among the slow ones if and only if the service has given it up. |
| `Reducing.ReduceSolve.Round` | core/solve/reduce/RecurringReduceSolve.cpp:36-58 | One cube: decided by its backdoors, or split into what propagation leaves of the product they span, with each part given to the service, under a limit exactly if the depth is below the greatest; a right verdict, a refutation of the cube, or slow cubes that account for it. |
| `Reducing.OneMoreVisit` | core/solve/reduce/RecurringReduceSolve.cpp:21-64 | Taking the top cube and pushing its slow parts, one deeper, keeps the history of visits in stack order. |
| `Reducing.ReduceSolve.SolveOnce` | core/solve/reduce/SingleReduceSolve.cpp:14-27 | One reduction and a final solve of exactly its parts: SAT exactly if one of them is answered with a model, UNSAT only without one, always an answer. |
| `Reducing.ReduceSolve.SolveRecurring` | core/solve/reduce/RecurringReduceSolve.cpp:14-73 | The loop over the stack of cubes ends, with SAT only given a model and UNSAT only without one. Every cube visited was on top of the stack and found what its backdoors or the service say, and UNSAT means that none is left or the backdoors of the empty cube decide. |

## Left out

- Solving.Solver.SimplifyAll: which clauses count as core or second tier, and which have been vivified before, is left open.
- Solving.Solver.Solve: that the heaps are full before a call is sufficient, not necessary, for a right answer l_True; propagation may reach the missing variables.
- Solving.Solver.constructor: variables are all created at once, and `setDecisionVar` is not called later.
- Enumeration.Search.CartesianSearch: sizes and lengths do not wrap at 32 bits.
- Solving.Solver.Search: the termination of the search within its budget is not modelled.
- Portfolios.WorkOff: calls follow one another; what one worker exports during a call of another is not imported in that call. Workers that strengthen clauses, and clauses added between calls, are left out.
- Counting.PropSearch: interrupted runs, here and in the rest of the cube layer, are excluded; so are callbacks that depend on what other workers do.
- Counting.SequentialPropagate: exceptions thrown by callbacks, which the source ignores, and shared flags they read.
- Enumeration.Search.SplitSearch: splitting a search that is itself a part; the source numbers its parts from 0.
- Reducing.ReduceSolve.FilterFast: slow cubes are collected in the order of the tasks, not of their completion.
- Buffering.EveryInterleaving: reuse of freed nodes, and `getClauses`, which can take one clause beyond its count.
- Activity scores, LBD tiers, restart and phase heuristics, `progressEstimate`, proof output and printing: they steer the search without affecting what is proved.
- Local search, rephasing and `build_soln_with_UP`.
- Raw memory: allocation, header bit fields, garbage collection and relocation of clauses.
- The native Minisat and MapleCOMSPS simplifying solvers and the evolutionary search: oracles with contracts.
- `Mini::Map`, the reducer, sharer and portfolio threads, timers, events and signals.
- Command line, configuration, logging, files and the database layer.
