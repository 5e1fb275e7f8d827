# A verified model of the AAF execution engine

The Agentic Application Framework (AAF) compiles an intent into a graph of nodes, executes the graph under policy
and budget control, records a trace, and undoes completed writes when a node fails. This project models that engine
and the stateful structures it leans on, and proves what holds of them over every graph, every run and every history
of calls. All of it is Dafny 4.11; `dafny verify dfyconfig.toml` checks it.

| module | models |
|---|---|
| `Ordering`, `SortedMap`, `Numerals`, `Digraph`, `Contracts`, `Capabilities`, `RuntimeTypes` | byte order on ids, sorting, sorted maps, decimal numerals, paths and topological orders, shared value types |
| `GraphValidation`, `Scheduler` | Kahn's algorithm with a sorted ready list, the graph builder, the parallel levels |
| `Budget`, `Trace`, `Compensation` | the budget tracker, trace documents and their recorder, the compensation stack |
| `Executor`, `GraphExecutor` | the executor as a state machine over its steps, and the object that updates tracker, recorder and chain in place and refines it |
| `ExecutorTheorems`, `ExecutorUndo`, `ExecutorBooks`, `ExecutorPolicy`, `ExecutorResults` | what holds of every run: progress and outputs, rollback, trace and budget, policy hooks and completion, and the result of every run |
| `ExecutorLimits` | documented laws that fail, with the exact graphs on which every run keeps them |
| `Planner`, `Composition`, `PlanCache` | the dependency sort, composition safety, the plan cache |
| `Saga` | recovery rules and the saga executor |
| `CircuitBreaker`, `BreakerRegistry` | one breaker and the keyed registry |
| `LongTermMemory`, `Scope` | the entity index of long-term memory, the scope algebra |
| `CostAttribution`, `FastPathMiner` | splitting a trace's cost, mining observations into proposals |

**How a run is made universal.** Everything a run cannot control (node results, policy decisions, compensator results,
elapsed times, whether the trace store accepts a document) is a field of `Executor.World`. Each node executes at most
once and each hook is asked at most once per step, so a `World` value can describe any behaviour. The theorems
quantify over all worlds. The `EveryRun...` lemmas compare a run with functions defined on positions of the order
alone (`Answer`, `Expected`, `Visits`, `ExpectedCharges`, `Undoable`, `WritesBefore`, `GoesThrough`), which know nothing of the
loop.
`GraphExecutor.GraphExecutor.Run` is proved equal to the state machine, so the theorems are about the object.

**Numbers.** Money is `real`. Token and time counters saturate at 2^64 - 1 as in the source. Clock values are integers
passed in. The iteration order of the node map, which decides what a cycle error names, is a parameter.

## Where the code and its documentation differ

The model follows the code.

- `graph.rs:115` says an unvisited node is part of a cycle. Exactly the nodes on or downstream of a cycle stay unvisited
  (`Search`), and the first of them in map order is named (`ValidateWithCompensators`). The named node lies on a cycle
  in every map order exactly when no edge leads from a node on a cycle to a node on none (`ReportOnCycleExactly`);
  `CycleReportMayBeDownstream` validates a graph where it does not.
- `executor.rs:62` says `compensated` is in reverse order. It is in execution order (`RolledBackRun`). The two agree on
  every run exactly when no two undoable steps precede an executed node (`ReportsReversedExactly`).
- `executor.rs:204-206` says the chain is drained on any failure path. Only node failures run compensators
  (`EveryRunUndo`); every failing run leaves an empty chain exactly when the graph has no write-class node with a
  compensator (`DrainsExactly`, with a denied run that keeps its queued writes in `DeniedKeepsWrites`).
- `executor.rs:283-285` returns a failed compensation before closing, and `executor.rs:378-393` returns a refused record
  before closing. A trace that was opened is left running exactly in these two cases (`LeftRunningExactly`). Over a store
  that accepts everything, every run closes its trace exactly when no undoable step precedes an executed node
  (`ClosesExactly`).
- `executor.rs:395-409` queues compensators for writes that shadow mode only simulated. A shadow run may therefore
  compensate a step that never executed. It never does so exactly when no write-class node with a compensator precedes
  a node that shadow mode executes (`ShadowSafeExactly`).
- In the four lemmas named `...Exactly` of `ExecutorLimits` just cited, "every run" ranges over all worlds for a budget
  tracker that is not exhausted at the start and an executor without a revocation registry.
- `compensation.rs:39-43` says a compensator can read the original step's output. In every run it is shown exactly the
  outputs of the compensators that ran before it, and nothing under its own step (`EveryRunShown`).
- `planner.rs:178-181` says the sort is stable and emits cycles in input order. The input order is kept exactly when
  every in-set dependency is already listed before its dependent or is the capability itself, and what an earlier
  input needs precedes whatever later inputs bring in (`TopoSort`). So two capabilities first asked for by different
  inputs come out in the order of those inputs, whatever their depths (`PairOrderExactly`); under one root they come
  out as the search discovers them (`DiscoveredUnderRoot`). `CyclesAreReordered` and `SameDepthIsReordered` sort two
  inputs that do not come back as promised.
- `docs/saga.md:111` says partial compensation undoes the listed steps. The listed steps are the ones kept
  (`PreservedExactly`); the documented reading holds exactly when nothing was completed (`UndoesListedExactly`,
  with a saga that keeps its listed step in `ListedStepIsKept`).
- `scope.rs:120-124` says `compute_effective_scopes` already handles the ceilings. It agrees with `effective_scopes`
  exactly at levels 1 and 5 (`VersionsAgreeExactly`). `scope.rs:82` calls level 4 "everything except payment"; it decides
  a scope that way exactly when the scope ends in one of five listed suffixes or in `:payment` (`LevelFourExactly`).
- `circuit_breaker.rs:15` says the breaker trips when the count exceeds the threshold. It trips on reaching it, so the
  two agree exactly when the count is not the threshold (`ExceedsExactly`); for every positive window and threshold
  some history brings it there (`TripsWithoutExceeding`). `circuit_breaker.rs:17` speaks of one probe request. Half-open lets every request through until a result arrives (`HalfOpenAllowsEveryProbe`), and every
  configuration has a history that gets there (`ManyProbesPass`). A window of zero or less and a threshold of zero break
  the counting laws (`WindowExactly`, `ThresholdExactly`).
- `learn.rs:50` calls rule ids unique. Two mined rules share an id exactly when their evidence and session counts
  agree (`RuleIdsCollideExactly`), and for every configuration some stream makes that happen (`IdsNeverUnique`).
- `fast_path_miner.rs:90-95` relies on the node kind in the reasoning text. A node of any kind whose id contains
  `Agent` is mined as well (`RuntimeMinedExactly`).
- Two thresholds of zero leave a pattern that is mature with no evidence (`PendingImmatureExactly`). A token cap of
  2^64 - 1 bounds nothing (`TokenCapExactly`). A negative charge can revive an exhausted tracker (`RevivalExactly`).
  A closed trace is reopened exactly by an accepted open or by a close with the status `Running` (`ReopensExactly`).
- `composition.rs` speaks of two capabilities writing one entity; one capability that lists an entity twice is rejected
  as well (`OneCapabilityDoubleWrite`), and that is the only difference (`SingleWritersExactly`).

## Model

| member | source | states |
|---|---|---|
| `Ordering.LessExactly` | core/crates/aaf-runtime/src/graph.rs:95-108 | ids are compared at their first difference, a proper prefix coming first |
| `GraphValidation.ValidateWithCompensators` | core/crates/aaf-runtime/src/graph.rs:60-130 | empty graphs, unresolved references and cycles are each reported exactly in their case, a cycle by the first key in map order that is on or downstream of one; otherwise the order is the lexicographically greatest topological order |
| `GraphValidation.Validate` | core/crates/aaf-runtime/src/graph.rs:51-56 | the same answer, errors included, without compensators |
| `GraphValidation.CheckReferences` | core/crates/aaf-runtime/src/graph.rs:68-82 | finds nothing exactly when all references resolve; otherwise names the first bad endpoint or a bad compensator key |
| `GraphValidation.BuildDegrees` | core/crates/aaf-runtime/src/graph.rs:84-89 | in-degrees and adjacency lists count every edge, repeats included |
| `GraphValidation.InitialReady` | core/crates/aaf-runtime/src/graph.rs:90-96 | the sorted ready list holds exactly the nodes without predecessors, whatever the hash-map order |
| `GraphValidation.Release` | core/crates/aaf-runtime/src/graph.rs:102-112 | decrements each child once per edge, never below zero, and pushes exactly those that reach zero |
| `GraphValidation.Search` | core/crates/aaf-runtime/src/graph.rs:97-113 | the search always takes the greatest ready node, and what it misses is exactly the nodes on or downstream of a cycle |
| `GraphValidation.SamePaths` | core/crates/aaf-runtime/src/graph.rs:86-89 | repeats and list order of the edges do not change acyclicity |
| `GraphValidation.ReportOnCycleExactly` | core/crates/aaf-runtime/src/graph.rs:114-123 | the node named lies on a cycle, whatever the map order, exactly when no edge leads from a node on a cycle to a node on none |
| `GraphValidation.CycleReportMayBeDownstream` | core/crates/aaf-runtime/src/graph.rs:114-123 | validating a concrete graph reports a node that lies on no cycle |
| `GraphValidation.GraphBuilder.AddNode` | core/crates/aaf-runtime/src/graph.rs:148-151 | files the node under its own id, replacing an earlier one |
| `GraphValidation.GraphBuilder.AddEdge` | core/crates/aaf-runtime/src/graph.rs:154-157 | appends the edge |
| `GraphValidation.GraphBuilder.AddCompensator` | core/crates/aaf-runtime/src/graph.rs:162-165 | files the compensator under the step it undoes |
| `GraphValidation.GraphBuilder.Build` | core/crates/aaf-runtime/src/graph.rs:168-170 | the same answer, errors included, for what was added; every node of the order sits under its own id |
| `Digraph.StuckMeansCycle` | core/crates/aaf-runtime/src/graph.rs:114-123 | when no unvisited node is ready, every unvisited node is on or downstream of a cycle |
| `Digraph.UnvisitedExactly` | core/crates/aaf-runtime/src/graph.rs:99-123 | a stuck search has missed exactly the nodes on or downstream of a cycle |
| `Digraph.TopologicalAcyclic` | core/crates/aaf-runtime/src/graph.rs:99-130 | a complete order exists only for acyclic edges |
| `Digraph.GreedyLexGreatest` | core/crates/aaf-runtime/src/graph.rs:96-113 | taking the greatest ready node at every pop gives a topological order that beats every other at the first difference |
| `Digraph.LexGreatestUnique` | core/crates/aaf-runtime/src/graph.rs:86-113 | that order depends only on the edge relation, not on list order or repeats |
| `Scheduler.ParallelLevels` | core/crates/aaf-runtime/src/scheduler.rs:13-34 | each node sits at the length of the longest path ending at it; the levels cover all nodes, none is empty, each is duplicate-free and ascending |
| `Scheduler.AssignLevels` | core/crates/aaf-runtime/src/scheduler.rs:14-24 | the level map holds longest-path lengths for all nodes |
| `Scheduler.LevelIsLongest` | core/crates/aaf-runtime/src/scheduler.rs:16-22 | one more than the greatest predecessor level is a longest-path length |
| `Scheduler.LevelsIndependent` | core/crates/aaf-runtime/src/scheduler.rs:11-12 | no path joins two nodes of a level, and no node is in two levels |
| `Scheduler.LevelsTopological` | core/crates/aaf-runtime/src/scheduler.rs:25-33 | running level after level is itself a topological order |
| `Scheduler.LevelsUnique` | core/crates/aaf-runtime/src/scheduler.rs:25-33 | the levels are determined by the graph, not by map iteration order |
| `Budget.BudgetTracker.ChargeBudget` | core/crates/aaf-runtime/src/budget.rs:60-86 | adds with saturation, even when it refuses, and reports the first exhausted dimension |
| `Budget.VerdictExactly` | core/crates/aaf-runtime/src/budget.rs:70-85 | a charge is accepted exactly when all three counters are within their caps; otherwise the first exhausted dimension is named, tokens before cost before time |
| `Budget.BudgetTracker.Snapshot` | core/crates/aaf-runtime/src/budget.rs:89-96 | the truncated differences |
| `Budget.Remaining` | core/crates/aaf-runtime/src/budget.rs:89-96 | while nothing is exhausted, remaining plus used is the initial budget |
| `Budget.RemainingExactly` | core/crates/aaf-runtime/src/budget.rs:91-95 | each dimension tops the use up to the initial budget, and is zero beyond it |
| `Budget.UsedIsRunningSum` | core/crates/aaf-runtime/src/budget.rs:67-69 | the counters are the running sums clipped at the counter width |
| `Budget.RefusalIsPermanent` | core/crates/aaf-runtime/src/budget.rs:60-86 | after one refusal every later non-negative charge is refused |
| `Budget.RevivalExactly` | core/crates/aaf-runtime/src/budget.rs:60-86 | a charge can never revive an exhausted tracker exactly when its cost is not negative |
| `Budget.AcceptedWithinRemaining` | core/crates/aaf-runtime/src/budget.rs:60-96 | an accepted history costs no more than remained at its start |
| `Budget.TokenCapExactly` | core/crates/aaf-runtime/src/budget.rs:67-74 | the token cap bounds real spending exactly when it is below the saturation value |
| `Compensation.CompensationChain.Push` | core/crates/aaf-runtime/src/compensation.rs:25-27 | pushes on top |
| `Compensation.CompensationChain.Rollback` | core/crates/aaf-runtime/src/compensation.rs:47-68 | refines the recursive unwinding: who ran, what stays on the stack, and the result |
| `Compensation.UnwindReverses` | core/crates/aaf-runtime/src/compensation.rs:47-68 | strict reverse push order, each at most once; a failure leaves everything pushed before the failing entry on the stack |
| `Compensation.UnwindGiven` | core/crates/aaf-runtime/src/compensation.rs:51-57 | each compensator is shown the outputs of those before it, layered in the order they ran, and answers to that |
| `Compensation.UnwindAnswers` | core/crates/aaf-runtime/src/compensation.rs:52-64 | an output, or the failure that ends the unwinding, is that compensator's own answer to what it is shown |
| `Compensation.ShownByUnwinding` | core/crates/aaf-runtime/src/compensation.rs:51-57 | with distinct steps that is one output per step undone before, and none under its own step |
| `Trace.Recorder.OpenTraceFor` | core/crates/aaf-trace/src/recorder.rs:141-146 | store first, open map second; a refused document changes nothing |
| `Trace.Recorder.RecordStep` | core/crates/aaf-trace/src/recorder.rs:148-167 | unknown and closed traces are refused unchanged; otherwise the step is appended, then stored |
| `Trace.Recorder.CloseTrace` | core/crates/aaf-trace/src/recorder.rs:169-180 | sets the final status, then stores |
| `Trace.Recorder.Get` | core/crates/aaf-trace/src/recorder.rs:182-188 | the open document, else the stored one |
| `Trace.ErrorsExactly` | core/crates/aaf-trace/src/recorder.rs:141-180 | which error each call answers: an unknown trace first, then a closed one, then the store |
| `Trace.HeaderExactly` | core/crates/aaf-contracts/src/trace.rs:78-100 | after every history an open document carries the intent and time of its last accepted open and the status and time of the last close since |
| `Trace.HistorySound` | core/crates/aaf-contracts/src/trace.rs:91-94 | after any history of calls, totals are the sums of the step costs, documents sit under their own id and the store never runs ahead of the open document |
| `Trace.StoreAgrees` | core/crates/aaf-trace/src/recorder.rs:141-180 | while the store accepts everything, store and open map are equal |
| `Trace.ClosedStaysClosed` | core/crates/aaf-trace/src/recorder.rs:159-161 | after a terminal close no call but a reopening one changes steps or total |
| `Trace.ReopensExactly` | core/crates/aaf-trace/src/recorder.rs:141-180 | a closed trace runs again exactly after an accepted open or a close with the status running |
| `Trace.CloseRunningReopens` | core/crates/aaf-contracts/src/trace.rs:97-100 | closing with the status running lets steps in again |
| `GraphExecutor.GraphExecutor.Run` | core/crates/aaf-runtime/src/executor.rs:138-454 | result, tracker, recorder and execution log equal those of the state machine |
| `GraphExecutor.GraphExecutor.RollBack` | core/crates/aaf-runtime/src/executor.rs:278-298 | unwinds the chain, closes the trace and reports as the state machine does |
| `Executor.IterationStops` | core/crates/aaf-runtime/src/executor.rs:212-412 | an iteration that ends the run does so at one of five places, each with its own result and trace status |
| `ExecutorTheorems.EveryRunProgress` | core/crates/aaf-runtime/src/executor.rs:201-454 | every run: the outputs are those of a prefix of the order whose length the outcome fixes; each node executes at most once, with the outputs of all its predecessors present; in shadow mode no write-class node executes |
| `ExecutorTheorems.VisitFed` | core/crates/aaf-runtime/src/executor.rs:278-279 | an execution sees the outputs of all its graph predecessors |
| `ExecutorUndo.EveryRunUndo` | core/crates/aaf-runtime/src/executor.rs:278-298 | every run: compensators run only when a node failed, and then they are those queued by the earlier write-class nodes, unwound from the last; no other exit runs any |
| `ExecutorUndo.RolledBackRun` | core/crates/aaf-runtime/src/executor.rs:395-409 | a rolled-back run compensated exactly the earlier write-class nodes with a compensator, each once, in strict reverse order, and reports them in execution order |
| `ExecutorUndo.UndoneWereExecuted` | core/crates/aaf-runtime/src/executor.rs:395-409 | with shadow mode off only executed steps are compensated |
| `ExecutorUndo.ShadowUndoneNeverExecuted` | core/crates/aaf-runtime/src/executor.rs:267-276 | in shadow mode a compensated step has never executed |
| `ExecutorUndo.EveryRunShown` | core/crates/aaf-runtime/src/compensation.rs:51-57 | every run: a compensator is shown exactly the outputs of the compensators that ran before it, so never an output of the step it undoes |
| `ExecutorLimits.ShadowSafeExactly` | core/crates/aaf-runtime/src/executor.rs:395-409 | every shadow run compensates only what it executed exactly when no undoable write precedes a node that shadow mode executes |
| `ExecutorLimits.ClosesExactly` | core/crates/aaf-runtime/src/executor.rs:283-287 | every run over an accepting store closes its trace exactly when no undoable write precedes an executed node |
| `ExecutorLimits.ReportsReversedExactly` | core/crates/aaf-runtime/src/executor.rs:288-294 | the report follows the order of undoing in every run exactly when no two undoable writes precede an executed node |
| `ExecutorLimits.DrainsExactly` | core/crates/aaf-runtime/src/executor.rs:204-207 | every failing run leaves an empty chain exactly when no node is an undoable write |
| `ExecutorLimits.DeniedKeepsWrites` | core/crates/aaf-runtime/src/executor.rs:430-434 | a run denied at the artifact hook undoes none of its queued writes |
| `ExecutorBooks.EveryRunBooks` | core/crates/aaf-runtime/src/executor.rs:178-467 | every run, whatever the store accepts: one open call, the records of a prefix of the order with the answers' numbers, costs and models, at most one close, last; only the last document can have been refused, and then the run reports that, the open document has the change and the store keeps the one before; a failed compensator leaves the trace running; otherwise it was closed with the status of the outcome |
| `ExecutorBooks.LeftRunningExactly` | core/crates/aaf-runtime/src/executor.rs:283-393 | a trace that was opened is left running exactly when a compensator failed or a record was refused |
| `ExecutorBooks.EveryRunTrace` | core/crates/aaf-runtime/src/executor.rs:178-467 | every run whose documents were accepted: store and open document agree on the answers of a prefix of the order and their total; closed once, last, with the status of the outcome, exactly unless a compensator failed |
| `ExecutorBooks.CompletedRunCost` | core/crates/aaf-runtime/src/executor.rs:378-393 | the total of a completed run's trace is what its outputs cost and what its budget was charged |
| `ExecutorBooks.FailedRunReport` | core/crates/aaf-runtime/src/executor.rs:471-482 | after a node failure the report is exactly the failing compensator, or the cause when nothing was queued, or the rolled-back steps |
| `ExecutorBooks.RevokedLeavesNoTrace` | core/crates/aaf-runtime/src/executor.rs:143-160 | no recorder call is made exactly when the requester is revoked, and then no node executes |
| `ExecutorBooks.EveryRunWithinBudget` | core/crates/aaf-runtime/src/executor.rs:301-313 | every run: the outputs returned total no more tokens and no more money than remained at its start |
| `ExecutorPolicy.EveryRunPermitted` | core/crates/aaf-runtime/src/executor.rs:162-447 | every run: nodes execute only past the plan hook, past both step hooks of all earlier nodes and past their own pre-step hook; each hook sees the budget left and the writes so far; completion passes all four hooks |
| `ExecutorPolicy.ExecutedWasPermitted` | core/crates/aaf-runtime/src/executor.rs:219-251 | the same for one executed node |
| `ExecutorPolicy.CompletesExactly` | core/crates/aaf-runtime/src/executor.rs:138-454 | a run completes exactly when the requester is not revoked, the store accepts every document, all hooks permit, every node answers and the budget stays solvent at every step |
| `ExecutorResults.EveryRunResult` | core/crates/aaf-runtime/src/executor.rs:138-454 | the result of every run, up to a refused close: revoked, refused opening, the plan hook's own answer, or what the first obstacle gives (a hook's denial with its violations or its approval gate with the outputs so far, the rollback report, the exhausted dimension, the refused record), or completion |
| `ExecutorResults.MarkerExactly` | core/crates/aaf-runtime/src/executor.rs:267-276 | a simulated write costs no tokens, money or time and names the node and its effect |
| `ExecutorResults.EntryExactly` | core/crates/aaf-runtime/src/executor.rs:364-391 | how an answer reaches its recorded step: number, node, the two halves of its tokens, cost, duration, model and the observation's text |
| `Planner.TopoSort` | core/crates/aaf-planner/src/planner.rs:182-215 | terminates on every input, emits each id once, places an in-set dependency first unless it leads back to its dependent, puts what earlier inputs need before what later inputs bring in, follows the depth-first order of discovery, and keeps the input order exactly when the input already lists dependencies first |
| `Planner.Visit` | core/crates/aaf-planner/src/planner.rs:185-203 | a visit emits the capability last, leaves the recursion stack as it was and places every in-set dependency of what it emits |
| `Planner.AcyclicDependenciesFirst` | core/crates/aaf-planner/src/planner.rs:192-202 | on acyclic sets every in-set dependency comes strictly first |
| `Planner.CyclesAreReordered` | core/crates/aaf-planner/src/planner.rs:177-181 | two capabilities that depend on each other come back in the opposite order |
| `Planner.SameDepthIsReordered` | core/crates/aaf-planner/src/planner.rs:177-181 | two capabilities without dependencies change places when one listed earlier needs the second |
| `Planner.PairOrderExactly` | core/crates/aaf-planner/src/planner.rs:205-215 | of two capabilities first asked for by different inputs, the one asked for by the earlier input comes first, and only that |
| `Planner.DiscoveredUnderRoot` | core/crates/aaf-planner/src/planner.rs:192-202 | under one root: what the first dependencies bring in, then what the others add, then the root |
| `Planner.WalkAppend` | core/crates/aaf-planner/src/planner.rs:192-202 | the order of discovery over a work list splits at any point of the list |
| `Saga.SagaExecutor.Run` | core/crates/aaf-saga/src/executor.rs:86-175 | outcome, final state, step runs and compensation calls equal the loop-free description |
| `Saga.SagaExecutor.Recover` | core/crates/aaf-saga/src/executor.rs:92-170 | a failed step continues, pauses, fails or compensates as its verdict says |
| `Saga.SagaExecutor.Compensate` | core/crates/aaf-saga/src/executor.rs:118-139 | the reported lists are the completed steps selected by fate, last completed first; the first mandatory failure stops it |
| `Saga.DecideFirstMatch` | core/crates/aaf-saga/src/recovery.rs:16-25 | exactly the first rule with the failure's tag applies; without one, full compensation |
| `Saga.ParsePrinted` | core/crates/aaf-saga/src/executor.rs:101-108 | reading a preserved step number undoes printing it, within 32 bits and with an optional plus sign |
| `Saga.CompletedKnown` | core/crates/aaf-saga/src/executor.rs:125-126 | looking up a completed step always succeeds |
| `Saga.DecidesExactly` | core/crates/aaf-saga/src/recovery.rs:16-25 | one action with its preserved steps is selected: those of the first rule with the tag, or full compensation of everything |
| `Saga.VerdictExactly` | core/crates/aaf-saga/src/executor.rs:90-168 | over the step closure and the selected action alone: completed at once or on the retry, skipped, paused, a failed retry, or undone with the rule's preserved steps |
| `Saga.CompletesExactly` | core/crates/aaf-saga/src/executor.rs:90-91 | the completed numbers are those of the steps that succeed, in order; a skipped step is not among them |
| `Saga.StopsExactly` | core/crates/aaf-saga/src/executor.rs:90-168 | the saga stops at the first step that neither succeeds nor is skipped |
| `Saga.OutcomeExactly` | core/crates/aaf-saga/src/executor.rs:86-175 | outcome and final state for each way of stopping and for not stopping |
| `Saga.FateExactly` | core/crates/aaf-saga/src/executor.rs:118-139 | preserved, compensated, breaking or best-effort, decided by the rule, the closure's answer and the step's compensation type |
| `Saga.CallsExactly` | core/crates/aaf-saga/src/executor.rs:125-128 | the closure is called exactly on completed steps that are not preserved and have a compensation |
| `Saga.RunsAtMostTwice` | core/crates/aaf-saga/src/executor.rs:90-166 | a step before the stopping position runs once, or twice when retried; the others never |
| `Saga.FailedSaga` | core/crates/aaf-saga/src/executor.rs:112-147 | with distinct step numbers the completed steps split disjointly and exhaustively into compensated, preserved and best-effort failures; no preserved step reaches the compensator |
| `Saga.Partition` | core/crates/aaf-saga/src/executor.rs:118-139 | every completion is counted in exactly one of the three lists |
| `Saga.SelectReversed` | core/crates/aaf-saga/src/executor.rs:118-139 | compensated and preserved are in reverse completion order |
| `Saga.PreservedExactly` | core/crates/aaf-saga/src/executor.rs:118-124 | preserved are the completed steps named by the rule, and none under full compensation |
| `Saga.UndoesListedExactly` | core/crates/aaf-saga/src/executor.rs:118-124 | the listed steps are the ones undone exactly when nothing was completed |
| `Saga.ListedStepIsKept` | core/crates/aaf-saga/src/executor.rs:86-147 | a two-step saga whose rule lists the first step keeps it and undoes nothing |
| `Saga.BrokenSaga` | core/crates/aaf-saga/src/executor.rs:127-135 | a mandatory failure is reported and nothing completed before that step is touched |
| `Saga.TerminalExactly` | core/crates/aaf-saga/src/executor.rs:86-175 | the final state is terminal exactly when the saga completed or reported a failure |
| `CircuitBreaker.BreakerInner.Prune` | core/crates/aaf-registry/src/circuit_breaker.rs:104-107 | keeps exactly the failures strictly after the cutoff, in order |
| `CircuitBreaker.AfterCounts` | core/crates/aaf-registry/src/circuit_breaker.rs:104-107 | the window keeps every time strictly after the cutoff, as often as it occurs, and no other |
| `CircuitBreaker.BreakerInner.RecordFailure` | core/crates/aaf-registry/src/circuit_breaker.rs:110-128 | follows the machine; true exactly when the breaker just opened |
| `CircuitBreaker.BreakerInner.RecordSuccess` | core/crates/aaf-registry/src/circuit_breaker.rs:131-139 | follows the machine: prunes, and resets when half-open |
| `CircuitBreaker.BreakerInner.EffectiveState` | core/crates/aaf-registry/src/circuit_breaker.rs:144-154 | opens half after the cooldown and answers the new state |
| `CircuitBreaker.BreakerInner.Force` | core/crates/aaf-registry/src/circuit_breaker.rs:263-281 | an operator's trip or reset |
| `CircuitBreaker.ListMatchesHistory` | core/crates/aaf-registry/src/circuit_breaker.rs:104-139 | under a clock that does not run backwards the pruned list is the full history since the last reset restricted to the latest window |
| `CircuitBreaker.WindowExactly` | core/crates/aaf-registry/src/circuit_breaker.rs:104-112 | that law holds on all histories exactly for a positive window |
| `CircuitBreaker.TripsExactly` | core/crates/aaf-registry/src/circuit_breaker.rs:119-126 | a closed breaker trips exactly when the count over complete history reaches the threshold |
| `CircuitBreaker.ExceedsExactly` | core/crates/aaf-registry/src/circuit_breaker.rs:119-126 | tripping above the threshold decides alike exactly when the count is not the threshold |
| `CircuitBreaker.TripsWithoutExceeding` | core/crates/aaf-registry/src/circuit_breaker.rs:110-128 | for every positive window and threshold a history after which the breaker trips at the threshold |
| `CircuitBreaker.ThresholdExactly` | core/crates/aaf-registry/src/circuit_breaker.rs:119-126 | closed means fewer listed failures than the threshold, exactly for thresholds of at least one |
| `CircuitBreaker.OpenedAtExactly` | core/crates/aaf-registry/src/circuit_breaker.rs:110-154 | the opening time is set exactly while the breaker is not closed |
| `CircuitBreaker.RefusedDuringCooldown` | core/crates/aaf-registry/src/circuit_breaker.rs:144-154 | once open, every request before the cooldown has passed is refused unless an operator resets |
| `CircuitBreaker.ClosesThroughHalfOpen` | core/crates/aaf-registry/src/circuit_breaker.rs:131-139 | without an operator a breaker closes only by a success while half-open |
| `CircuitBreaker.HalfOpensAfterCooldown` | core/crates/aaf-registry/src/circuit_breaker.rs:144-154 | half-open is reached only by a request after the cooldown |
| `CircuitBreaker.HalfOpenLeaves` | core/crates/aaf-registry/src/circuit_breaker.rs:110-139 | from half-open a failure reopens with its own time and reason, a success or an operator's close resets, an operator's trip reopens, a request changes nothing |
| `CircuitBreaker.HalfOpenFailureRefuses` | core/crates/aaf-registry/src/circuit_breaker.rs:113-118 | after a failure while half-open every request before the cooldown has passed is refused |
| `CircuitBreaker.OpenLeaves` | core/crates/aaf-registry/src/circuit_breaker.rs:144-154 | from open only an operator or a request after the cooldown moves the state; results keep time and reason |
| `CircuitBreaker.ClosedLeaves` | core/crates/aaf-registry/src/circuit_breaker.rs:119-126 | from closed only a failure that brings the count to the threshold, with its own time and reason, or an operator |
| `CircuitBreaker.HalfOpenAllowsEveryProbe` | core/crates/aaf-registry/src/circuit_breaker.rs:217-225 | half-open lets any number of requests through until a result arrives |
| `CircuitBreaker.ManyProbesPass` | core/crates/aaf-registry/src/circuit_breaker.rs:217-225 | every configuration has a history, on a clock that does not run backwards, after which that happens |
| `BreakerRegistry.CircuitBreakerRegistry.RegisterBreaker` | core/crates/aaf-registry/src/circuit_breaker.rs:185-191 | adds a closed breaker, or nothing when the key exists |
| `BreakerRegistry.CircuitBreakerRegistry.RecordFailure` | core/crates/aaf-registry/src/circuit_breaker.rs:195-203 | only the named breaker moves; an unknown key does nothing |
| `BreakerRegistry.CircuitBreakerRegistry.Allows` | core/crates/aaf-registry/src/circuit_breaker.rs:217-225 | an unknown key is let through; otherwise the breaker decides and may become half-open |
| `BreakerRegistry.RegistryProjects` | core/crates/aaf-registry/src/circuit_breaker.rs:174-281 | after any registry history each key holds the single breaker run on that key's own operations since its first registration |
| `PlanCache.PlanCache.PutPlan` | core/crates/aaf-planner/src/cache.rs:67-87 | map and queue refine a FIFO association list: an update replaces in place, an insertion first drops the oldest |
| `PlanCache.PlanCache.Get` | core/crates/aaf-planner/src/cache.rs:62-64 | answers like the association list |
| `PlanCache.HoldsNewestInsertions` | core/crates/aaf-planner/src/cache.rs:67-87 | after any puts the keys are exactly the last max(capacity, 1) insertions, in order, without repeats |
| `PlanCache.GetsLatestPut` | core/crates/aaf-planner/src/cache.rs:62-76 | a surviving key answers with the latest plan put under it |
| `PlanCache.EvictedAnswersNothing` | core/crates/aaf-planner/src/cache.rs:77-84 | an evicted key answers nothing |
| `LongTermMemory.InMemoryLongTermStore.Insert` | core/crates/aaf-storage/src/memory.rs:227-248 | appends the record and keeps the index equal to the positions a scan would visit |
| `LongTermMemory.InMemoryLongTermStore.SearchByEntity` | core/crates/aaf-storage/src/memory.rs:273-292 | the first `limit` entries of the linear scan that lists each same-tenant record once per matching reference |
| `LongTermMemory.SearchAfter` | core/crates/aaf-storage/src/memory.rs:227-292 | the same after every history of insertions |
| `LongTermMemory.FetchIsScan` | core/crates/aaf-storage/src/memory.rs:284-290 | indexed positions never dangle and yield the scan |
| `LongTermMemory.ScanCounts` | core/crates/aaf-storage/src/memory.rs:232-245 | a record of the tenant is returned as often as its references name the entity |
| `LongTermMemory.ScanKeepsTenant` | core/crates/aaf-storage/src/memory.rs:287 | no other tenant's record is returned |
| `LongTermMemory.ScanComplete` | core/crates/aaf-storage/src/memory.rs:232-245 | every matching record of the tenant is found |
| `LongTermMemory.MentionsSome` | core/crates/aaf-storage/src/memory.rs:232-242 | a record matches exactly when some reference names the entity without a foreign tenant |
| `Scope.ScopeMatchesExactly` | core/crates/aaf-policy/src/scope.rs:62-71 | coverage is equality, the global wildcard, or a wildcard on a prefix, and nothing else |
| `Scope.WildcardCovers` | core/crates/aaf-policy/src/scope.rs:62-71 | `p:*` covers exactly the scopes that start with `p:` |
| `Scope.ScopeTransitive` | core/crates/aaf-policy/src/scope.rs:62-71 | coverage is transitive over all strings |
| `Scope.EffectiveExactly` | core/crates/aaf-policy/src/scope.rs:127-143 | the effective scopes are the intent scopes that a user scope covers and the level permits, sorted, each once |
| `Scope.OwnScopesKept` | core/crates/aaf-policy/src/scope.rs:127-143 | asking for exactly what the user may do yields what the level permits of it |
| `Scope.EffectiveMonotone` | core/crates/aaf-policy/src/scope.rs:127-143 | more autonomy, more intent scopes and wider user scopes never lose a scope, and nothing outside the intent appears |
| `Scope.ComputeWithinEffective` | core/crates/aaf-policy/src/scope.rs:36-54 | the first version returns nothing the production version does not |
| `Scope.VersionsAgreeExactly` | core/crates/aaf-policy/src/scope.rs:36-143 | the two versions agree on all inputs exactly at levels 1 and 5 |
| `Scope.LevelFourExactly` | core/crates/aaf-policy/src/scope.rs:82-100 | level 4 decides a scope as everything except payment exactly when the scope ends in a listed action or in payment |
| `Scope.LevelFourRefusesApproval` | core/crates/aaf-policy/src/scope.rs:82-100 | every approval scope is refused although it is no payment |
| `Composition.Check` | core/crates/aaf-planner/src/composition.rs:231-262 | accepts exactly when the write-class count is within the cap, no entity is named by two write entries and no read outranks its class, by the names of data and class; each rejection carries the reason of the first detector in order |
| `Composition.DetectDoubleWrite` | core/crates/aaf-planner/src/composition.rs:265-285 | reports the least entity with two write entries and all its writers in order |
| `Composition.RanksExactly` | core/crates/aaf-planner/src/composition.rs:118-138 | by name, which data outranks which class |
| `Composition.DetectClassificationLeak` | core/crates/aaf-planner/src/composition.rs:287-307 | reports the first leaking read in capability and read order |
| `Composition.DetectCrossTenantFanOut` | core/crates/aaf-planner/src/composition.rs:309-334 | fires exactly when an entity is written under two tenants, with all tenants written under |
| `Composition.FanOutIsDoubleWrite` | core/crates/aaf-planner/src/composition.rs:309-334 | fan-out implies a double write, so that detector never changes the verdict |
| `Composition.AcceptedDownward` | core/crates/aaf-planner/src/composition.rs:231-262 | any sub-collection of an accepted set, in any order, is accepted |
| `Composition.VerdictOrderFree` | core/crates/aaf-planner/src/composition.rs:231-262 | the verdict is invariant under permutation |
| `Composition.SingleWritersExactly` | core/crates/aaf-planner/src/composition.rs:268-283 | the rule on entries is: no entity written by two capabilities, and no capability lists one twice |
| `Composition.OneCapabilityDoubleWrite` | core/crates/aaf-planner/src/composition.rs:268-283 | one capability listing an entity twice is rejected |
| `CostAttribution.CostAttributor.AddRule` | core/crates/aaf-trace/src/cost_attribution.rs:66-68 | appends the rule |
| `CostAttribution.CostAttributor.Attribute` | core/crates/aaf-trace/src/cost_attribution.rs:71-103 | one bucket per charged department, in department order, holding the sum over the steps whose first matching rule names it and the reason of the first such step; the buckets add up to the cost of the steps, hence to the total of a recorded trace |
| `CostAttribution.FirstMatch` | core/crates/aaf-trace/src/cost_attribution.rs:75-78 | the first rule whose glob is a star or the model, or none |
| `CostAttribution.ChargedExactly` | core/crates/aaf-trace/src/cost_attribution.rs:73-87 | department and reason of a step: those of the first rule whose glob is a star or its model, else the default with its text |
| `CostAttribution.StarRuleEndsSearch` | core/crates/aaf-trace/src/cost_attribution.rs:75-78 | no rule after a star rule, and no default, is ever reached |
| `CostAttribution.BucketsSplitTotal` | core/crates/aaf-trace/src/cost_attribution.rs:88-103 | nothing is lost and nothing charged twice |
| `CostAttribution.AppendedRuleMovesDefaults` | core/crates/aaf-trace/src/cost_attribution.rs:66-87 | an appended rule moves exactly the cost no earlier rule claimed, from the default department to its own |
| `CostAttribution.SplitUnique` | core/crates/aaf-trace/src/cost_attribution.rs:71-103 | the bucket list is determined by rules, default and steps |
| `FastPathMiner.FastPathMiner.OnObservation` | core/crates/aaf-learn/src/fast_path_miner.rs:84-141 | refines the miner without session sets: the session set is always the set of pending ids |
| `FastPathMiner.FastPathMiner.Observe` | core/crates/aaf-learn/src/fast_path_miner.rs:84-141 | the same over a whole stream |
| `FastPathMiner.IgnoredExactly` | core/crates/aaf-learn/src/fast_path_miner.rs:85-95 | an observation changes nothing exactly unless it succeeded and its text names an agent |
| `FastPathMiner.PatternExactly` | core/crates/aaf-learn/src/fast_path_miner.rs:104-108 | two observations belong to one pattern exactly when agent and node agree |
| `FastPathMiner.PatternConserved` | core/crates/aaf-learn/src/fast_path_miner.rs:110-140 | per pattern, what was mined is the evidence of its proposals followed by what is pending, in order |
| `FastPathMiner.AllConserved` | core/crates/aaf-learn/src/fast_path_miner.rs:110-140 | the multiset of mined trace ids is all proposals' evidence plus all pending evidence |
| `FastPathMiner.PatternsIndependent` | core/crates/aaf-learn/src/fast_path_miner.rs:104-119 | what is pending for a pattern depends on that pattern's observations alone |
| `FastPathMiner.ThresholdsHold` | core/crates/aaf-learn/src/fast_path_miner.rs:121-140 | every proposal meets both thresholds, and did so for the first time with its last item; its id spells the two counts and its scope is its first item |
| `FastPathMiner.PendingImmatureExactly` | core/crates/aaf-learn/src/fast_path_miner.rs:121-140 | no pending pattern still meets both thresholds, exactly unless both are zero and the stream holds an observation that is mined |
| `FastPathMiner.FewSessionsProposeNothing` | core/crates/aaf-learn/src/fast_path_miner.rs:8-11 | a pattern seen in too few sessions is never proposed |
| `FastPathMiner.RuleIdsCollideExactly` | core/crates/aaf-learn/src/fast_path_miner.rs:125-135 | two proposals share an id exactly when their two counts agree |
| `FastPathMiner.IdsCollide` | core/crates/aaf-learn/src/fast_path_miner.rs:125-135 | for every configuration, two nodes observed in the same traces yield two rules with one id |
| `FastPathMiner.IdsNeverUnique` | core/crates/aaf-contracts/src/learn.rs:50-51 | no configuration keeps rule ids unique on all streams |
| `FastPathMiner.RuntimeMinedExactly` | core/crates/aaf-runtime/src/executor.rs:370 | an executor observation is mined exactly when the node is an agent or its id contains `Agent` |

## Left out

- Concurrency: async scheduling, locks and subscriber fan-out; every operation is one atomic step.
- Node internals, policy rules, model providers, tool calls and HTTP: arbitrary oracles in `Executor.World`.
- Floating-point rounding, and narrowing of counts to 32 bits; money is `real` and counts are unbounded.
- JSON payloads: node data is opaque text, with the shadow marker as a separate constructor.
- Planner.TopoSort: the rest of `plan` (discovery, step building, bounds) is not modelled; capability ids repeat only in the general clauses, since the registry is keyed by id.
- PlanCache.PlanCache.Get: hashing of the cache key is not modelled; keys are arbitrary strings.
- LongTermMemory.InMemoryLongTermStore.SearchByEntity: keyword search is a filter over records and is not modelled.
- CircuitBreaker.BreakerInner.EffectiveState: the level tag and the snapshot record are not modelled; a snapshot acts like a request on the state.
- BreakerRegistry.RegistryProjects: `all_snapshots`, which asks every key once, is a sequence of requests and has no operation of its own.
- GraphValidation.ValidateWithCompensators: which of several unresolved compensator keys is named depends on hash-map order in the source and is any of them here.
- FastPathMiner.FastPathMiner.OnObservation: source, approval state and timestamps of a proposed rule are constants and are not modelled.
- Composition.Check: the default cap of three writes is a parameter.
- Easy closed machines beside the core (degradation levels, proposal approval, task transitions, health flags), the CLI, importers, exporters, hashing, identity and manifests.
