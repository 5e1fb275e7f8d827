/** Where the documented behaviour of the executor and its code part ways: for each documented law, the exact graphs on
    which every run keeps it. The runs that break it are built from worlds in which almost everything goes well. */
module ExecutorLimits {
  import opened Budget
  import opened Compensation
  import opened Contracts
  import opened Digraph
  import opened Executor
  import opened ExecutorBooks
  import opened ExecutorTheorems
  import opened ExecutorUndo
  import opened GraphValidation
  import opened Ordering
  import opened RuntimeTypes
  import opened Trace

  // ---- worlds in which almost everything goes well

  const FREE: NodeOutput := NodeOutput(Json(""), 0, 0.0, 0, None)

  /** Nothing is refused or charged and only the node `bad`, if any, fails; the artifact hook and the compensators
      are left open. */
  ghost predicate Easy(w: World, bad: Option<NodeId>) {
    && (forall h, k, x :: h != PreArtifact ==> w.policy(h, k, x) == Allow)
    && (forall id, o :: w.run(id, o) == if bad == Some(id) then Err(NodeFailure("failed")) else Ok(FREE))
    && (forall id :: w.elapsed(id) == 0)
    && Reliable(w)
  }

  /** The store accepts every document. */
  ghost predicate Reliable(w: World) {
    w.openStored && w.closeStored && forall id :: w.recordStored(id)
  }

  ghost predicate UndoAnswers(w: World, r: Result<NodeOutput, RuntimeError>) {
    forall k, t, o :: w.undo(k, t, o) == r
  }

  ghost predicate ArtifactAnswers(w: World, d: PolicyDecision) {
    forall k, x :: w.policy(PreArtifact, k, x) == d
  }

  lemma EasyWorld(bad: Option<NodeId>, r: Result<NodeOutput, RuntimeError>, d: PolicyDecision) returns (w: World)
    ensures Easy(w, bad) && UndoAnswers(w, r) && ArtifactAnswers(w, d)
  {
    w := World((h, k, x) => if h == PreArtifact then d else Allow,
               (id, o) => if bad == Some(id) then Err(NodeFailure("failed")) else Ok(FREE),
               (k, t, o) => r,
               id => 0, e => "", e => "", true, id => true, true, 0, 0);
  }

  ghost predicate Smooth(c: Config, st: State) {
    && Verdict(st.budget).None?
    && c.intent.traceId in st.recorder.open && st.recorder.open[c.intent.traceId].status == Running
  }

  lemma FreeCharge(b: BudgetState)
    ensures After(b, Charge(0, 0.0, 0)) == b
  {
  }

  lemma SmoothSettle(c: Config, a: State, id: NodeId, node: Node, o: NodeOutput, bad: Option<NodeId>)
    requires Easy(c.w, bad) && Smooth(c, a) && a.step >= 1
    requires o.tokens == 0 && o.costUsd == 0.0
    ensures Settle(c, a, id, node, o).Go? && Smooth(c, Settle(c, a, id, node, o).st)
  {
    FreeCharge(a.budget);
    var charge := Charge(o.tokens, o.costUsd, c.w.elapsed(id));
    assert charge == Charge(0, 0.0, 0);
    var paid := a.(charges := a.charges + [charge]);
    assert c.w.policy(PostStep, paid.step, Context(paid, Some(node.sideEffect), Some(o.data))) == Allow;
    SmoothCommit(c, paid, id, node, o, bad);
  }

  lemma SmoothCommit(c: Config, p: State, id: NodeId, node: Node, o: NodeOutput, bad: Option<NodeId>)
    requires Easy(c.w, bad) && Smooth(c, p)
    ensures Commit(c, p, id, node, o).Go? && Smooth(c, Commit(c, p, id, node, o).st)
  {
    assert c.w.recordStored(id);
  }

  lemma SmoothAttempt(c: Config, st: State, bad: Option<NodeId>)
    requires Easy(c.w, bad) && st.step < |c.g.order| && Smooth(c, st)
    requires c.g.order[st.step] in c.g.nodes && bad != Some(c.g.order[st.step])
    ensures var (produced, a) := Attempted(c, st);
            && produced.Ok? && produced.value.tokens == 0 && produced.value.costUsd == 0.0
            && Smooth(c, a) && a.step == st.step + 1
  {
  }

  lemma SmoothStep(c: Config, st: State, bad: Option<NodeId>)
    requires Easy(c.w, bad) && st.step < |c.g.order| && Smooth(c, st)
    requires c.g.order[st.step] in c.g.nodes && bad != Some(c.g.order[st.step])
    ensures RunNode(c, st).Go? && Smooth(c, RunNode(c, st).st)
  {
    SmoothAttempt(c, st, bad);
    SmoothSettle(c, Attempted(c, st).1, c.g.order[st.step], c.g.nodes[c.g.order[st.step]],
                 Attempted(c, st).0.value, bad);
    assert PreDecision(c, st) == Allow;
    RunNodeSettles(c, st);
  }

  lemma FailingStep(c: Config, st: State)
    requires st.step < |c.g.order| && c.g.order[st.step] in c.g.nodes
    requires Easy(c.w, Some(c.g.order[st.step]))
    requires c.shadow ==> !c.g.nodes[c.g.order[st.step]].sideEffect.WriteClass()
    ensures RunNode(c, st).Halt? && RunNode(c, st).end.st.step == st.step + 1
    ensures RunNode(c, st).end.st.ran == st.ran + [Visit(c.g.order[st.step], st.outputs)]
  {
    var id := c.g.order[st.step];
    var s := st.(step := st.step + 1);
    assert c.w.policy(PreStep, s.step, Context(s, Some(c.g.nodes[id].sideEffect), None)) == Allow;
  }

  lemma SmoothNext(c: Config, st: State, bad: Option<NodeId>) returns (s: State)
    requires Known(c.g) && Progress(c, st) && Queued(c, st) && Smooth(c, st)
    requires Easy(c.w, bad) && st.step < |c.g.order| && bad != Some(c.g.order[st.step])
    ensures Progress(c, s) && Queued(c, s) && Smooth(c, s)
    ensures s.step == st.step + 1 && RunFrom(c, st) == RunFrom(c, s)
  {
    SmoothStep(c, st, bad);
    s := RunNode(c, st).st;
    StepCounts(c, st);
    IterationGoes(c, st);
    ProgressGo(c, st, s);
    QueuedGo(c, st, s);
  }

  /** The run reaches the bad node and stops there. */
  lemma {:induction false} SmoothRun(c: Config, st: State, j: nat)
    requires Known(c.g) && Distinct(c.g.order) && j < |c.g.order| && Easy(c.w, Some(c.g.order[j])) && Real(c, j)
    requires Progress(c, st) && Queued(c, st) && Smooth(c, st) && st.step <= j
    ensures NodeFailed(c, RunFrom(c, st).st) && RunFrom(c, st).st.step == j + 1
    decreases j - st.step
  {
    if st.step < j {
      var s := SmoothNext(c, st, Some(c.g.order[j]));
      SmoothRun(c, s, j);
    } else {
      FailingStep(c, st);
      assert Answer(c, j).Err?;
    }
  }

  /** Without a bad node the run reaches the artifact hook. */
  lemma {:induction false} SmoothToEnd(c: Config, st: State) returns (s: State)
    requires Known(c.g) && Easy(c.w, None) && Progress(c, st) && Queued(c, st) && Smooth(c, st)
    ensures s.step == |c.g.order| && Queued(c, s) && Smooth(c, s) && RunFrom(c, st) == Finish(c, s)
    decreases |c.g.order| - st.step
  {
    if st.step < |c.g.order| {
      var next := SmoothNext(c, st, None);
      s := SmoothToEnd(c, next);
    } else {
      s := st;
    }
  }

  lemma EasyStart(c: Config, budget: BudgetState, recorder: RecorderState, bad: Option<NodeId>)
    requires Verdict(budget).None? && Known(c.g) && Easy(c.w, bad) && c.revocation.None?
    ensures var o := Opened(c, budget, recorder);
            && Progress(c, o) && Queued(c, o) && Smooth(c, o) && o.step == 0
            && Run(c, budget, recorder) == RunFrom(c, o)
  {
    assert c.w.policy(PrePlan, 0, Context(Start(budget, recorder), None, None)) == Allow;
    assert c.g.order[..0] == [] && StepIds([]) == [];
  }

  lemma FailingRun(c: Config, budget: BudgetState, recorder: RecorderState, j: nat)
    requires Verdict(budget).None? && c.g.Valid() && Known(c.g) && c.revocation.None?
    requires j < |c.g.order| && Easy(c.w, Some(c.g.order[j])) && Real(c, j)
    ensures NodeFailed(c, Run(c, budget, recorder).st) && Run(c, budget, recorder).st.step == j + 1
  {
    EasyStart(c, budget, recorder, Some(c.g.order[j]));
    SmoothRun(c, Opened(c, budget, recorder), j);
  }

  // ---- graphs on which nothing is ever rolled back

  /** The node at a position is executed in the given mode. */
  ghost predicate Executes(g: Graph, shadow: bool, j: nat)
    requires j < |g.order|
  {
    g.order[j] in g.nodes && !(shadow && g.nodes[g.order[j]].sideEffect.WriteClass())
  }

  /** No write-class node with a compensator comes before a node that is executed. */
  ghost predicate RollbackFree(g: Graph, shadow: bool) {
    forall i, j :: 0 <= i < j < |g.order| && Compensable(g, g.order[i]) ==> !Executes(g, shadow, j)
  }

  lemma NothingQueued(c: Config, k: nat)
    requires Known(c.g) && k < |c.g.order| && Real(c, k) && RollbackFree(c.g, c.shadow)
    ensures Undoable(c.g, c.g.order[..k]) == []
  {
    var ids := StepIds(Undoable(c.g, c.g.order[..k]));
    if ids != [] {
      assert ids[0] in ids;
      UndoableMembers(c.g, c.g.order[..k], ids[0]);
      var i :| 0 <= i < k && c.g.order[..k][i] == ids[0];
      assert c.g.order[i] == ids[0] && Executes(c.g, c.shadow, k);
    }
  }

  lemma SomethingQueued(g: Graph, i: nat, j: nat)
    requires i < j < |g.order| && Compensable(g, g.order[i])
    ensures g.order[i] in StepIds(Undoable(g, g.order[..j])) && Undoable(g, g.order[..j]) != []
  {
    assert g.order[..j][i] == g.order[i];
    UndoableMembers(g, g.order[..j], g.order[i]);
  }

  // ---- compensating only what was executed, in shadow mode

  lemma RollbackFreeUndoesNothing(c: Config, budget: BudgetState, recorder: RecorderState)
    requires c.g.Valid() && RollbackFree(c.g, c.shadow)
    ensures Run(c, budget, recorder).st.undone == []
  {
    EveryRunUndo(c, budget, recorder);
    var st := Run(c, budget, recorder).st;
    if NodeFailed(c, st) { NothingQueued(c, st.step - 1); }
  }

  /** In shadow mode the executor compensates only what it executed, in every world, exactly on these graphs. */
  lemma ShadowSafeExactly(g: Graph, intent: Intent, budget: BudgetState, recorder: RecorderState)
    requires g.Valid() && Verdict(budget).None?
    ensures (forall w :: OnlyExecutedUndone(Run(Config(g, w, intent, true, None), budget, recorder).st))
            <==> RollbackFree(g, true)
  {
    if RollbackFree(g, true) {
      forall w
        ensures OnlyExecutedUndone(Run(Config(g, w, intent, true, None), budget, recorder).st)
      {
        RollbackFreeUndoesNothing(Config(g, w, intent, true, None), budget, recorder);
      }
    } else {
      var i, j :| 0 <= i < j < |g.order| && Compensable(g, g.order[i]) && Executes(g, true, j);
      var w := EasyWorld(Some(g.order[j]), Ok(FREE), Allow);
      var c := Config(g, w, intent, true, None);
      UndoneBefore(c, budget, recorder, i, j);
      ShadowUndoneNeverExecuted(c, budget, recorder, g.order[i]);
    }
  }

  lemma UndoneBefore(c: Config, budget: BudgetState, recorder: RecorderState, i: nat, j: nat)
    requires Verdict(budget).None? && c.g.Valid() && c.revocation.None? && i < j < |c.g.order|
    requires Easy(c.w, Some(c.g.order[j])) && UndoAnswers(c.w, Ok(FREE))
    requires Compensable(c.g, c.g.order[i]) && Executes(c.g, c.shadow, j)
    ensures c.g.order[i] in Run(c, budget, recorder).st.undone
  {
    ValidKnown(c.g);
    FailingRun(c, budget, recorder, j);
    UndoneAll(c, budget, recorder, j);
    SomethingQueued(c.g, i, j);
    ReverseMembers(StepIds(Undoable(c.g, c.g.order[..j])), c.g.order[i]);
  }

  lemma UndoneAll(c: Config, budget: BudgetState, recorder: RecorderState, j: nat)
    requires c.g.Valid() && Known(c.g) && UndoAnswers(c.w, Ok(FREE)) && j < |c.g.order|
    requires NodeFailed(c, Run(c, budget, recorder).st) && Run(c, budget, recorder).st.step == j + 1
    ensures Run(c, budget, recorder).st.undone == Reverse(StepIds(Undoable(c.g, c.g.order[..j])))
  {
    EveryRunUndo(c, budget, recorder);
    AllUndone(c, Undoable(c.g, c.g.order[..j]), map[]);
  }

  lemma {:induction false} AllUndone(c: Config, stack: seq<Entry>, prior: Outputs)
    requires UndoAnswers(c.w, Ok(FREE))
    ensures Unwind(stack, prior, c.w.undo).ran == Reverse(StepIds(stack)) && Unwind(stack, prior, c.w.undo).failure.None?
    decreases |stack|
  {
    if stack != [] {
      var k := |stack| - 1;
      AllUndone(c, stack[..k], prior[stack[k].step := c.w.undo(k, stack[k], prior).value]);
      assert Reverse(StepIds(stack)) == [stack[k].step] + Reverse(StepIds(stack[..k]));
    }
  }

  lemma ReverseMembers<T>(s: seq<T>, x: T)
    requires x in s
    ensures x in Reverse(s)
  {
    var i :| 0 <= i < |s| && s[i] == x;
    assert Reverse(s)[|s| - 1 - i] == x;
  }

  // ---- closing the trace

  ghost predicate Closes(c: Config, e: End) {
    c.intent.traceId in e.st.recorder.open && e.st.recorder.open[c.intent.traceId].status != Running
  }

  /** A reliable store accepts every call of a run, so the trace is left running exactly by a failed rollback. */
  lemma ReliableCloses(c: Config, budget: BudgetState, r0: RecorderState)
    requires c.g.Valid() && Known(c.g) && Reliable(c.w) && !IsRevoked(c)
    ensures Closes(c, Run(c, budget, r0)) <==> !CompensatorFailed(c, Run(c, budget, r0).st)
  {
    var m := EveryRunBooks(c, budget, r0);
    LastStored(c, Run(c, budget, r0).st.calls, m);
    BooksDecide(c, r0, Run(c, budget, r0), m);
  }

  lemma BooksDecide(c: Config, r0: RecorderState, e: End, m: nat)
    requires Known(c.g) && BooksFit(c, r0, e, m) && e.st.calls[|e.st.calls| - 1].stored
    ensures Closes(c, e) <==> !CompensatorFailed(c, e.st)
  {
  }

  lemma LastStored(c: Config, calls: seq<Action>, m: nat)
    requires Known(c.g) && Reliable(c.w) && Recorded(c, calls, m)
    requires |calls| == m + 1 || (|calls| == m + 2 && exists status :: calls[m + 1] == CloseCall(c, status))
    ensures calls[|calls| - 1].stored
  {
    if |calls| == m + 1 && m > 0 { assert IsRecordOf(c, calls[m], m - 1); }
  }

  /** Every run over a reliable store closes its trace exactly on these graphs. */
  lemma ClosesExactly(g: Graph, intent: Intent, shadow: bool, budget: BudgetState, r0: RecorderState)
    requires g.Valid() && Verdict(budget).None?
    ensures (forall w :: Reliable(w) ==>
                           Closes(Config(g, w, intent, shadow, None), Run(Config(g, w, intent, shadow, None), budget, r0)))
            <==> RollbackFree(g, shadow)
  {
    ValidKnown(g);
    if RollbackFree(g, shadow) {
      forall w | Reliable(w)
        ensures Closes(Config(g, w, intent, shadow, None), Run(Config(g, w, intent, shadow, None), budget, r0))
      {
        RollbackFreeCloses(Config(g, w, intent, shadow, None), budget, r0);
      }
    } else {
      var i, j :| 0 <= i < j < |g.order| && Compensable(g, g.order[i]) && Executes(g, shadow, j);
      var w := EasyWorld(Some(g.order[j]), Err(NodeFailure("stuck")), Allow);
      StuckStaysOpen(Config(g, w, intent, shadow, None), budget, r0, i, j);
    }
  }

  lemma RollbackFreeCloses(c: Config, budget: BudgetState, r0: RecorderState)
    requires c.g.Valid() && Known(c.g) && Reliable(c.w) && c.revocation.None? && RollbackFree(c.g, c.shadow)
    ensures Closes(c, Run(c, budget, r0))
  {
    ReliableCloses(c, budget, r0);
    var st := Run(c, budget, r0).st;
    if NodeFailed(c, st) { NothingQueued(c, st.step - 1); }
  }

  lemma StuckStaysOpen(c: Config, budget: BudgetState, r0: RecorderState, i: nat, j: nat)
    requires Verdict(budget).None? && c.g.Valid() && Known(c.g) && c.revocation.None? && i < j < |c.g.order|
    requires Easy(c.w, Some(c.g.order[j])) && UndoAnswers(c.w, Err(NodeFailure("stuck")))
    requires Compensable(c.g, c.g.order[i]) && Executes(c.g, c.shadow, j)
    ensures !Closes(c, Run(c, budget, r0))
  {
    FailingRun(c, budget, r0, j);
    SomethingQueued(c.g, i, j);
    Stuck(Undoable(c.g, c.g.order[..j]), c.w.undo);
    ReliableCloses(c, budget, r0);
  }

  lemma Stuck(stack: seq<Entry>, undo: Undo)
    requires stack != [] && forall k, t, o :: undo(k, t, o).Err?
    ensures Unwind(stack, map[], undo).failure.Some?
  {
  }

  // ---- the order of the report

  /** Two write-class nodes with a compensator come before a node that is executed. */
  ghost predicate TwoUndoable(g: Graph, shadow: bool) {
    exists h, i, j ::
      0 <= h < i < j < |g.order| && Compensable(g, g.order[h]) && Compensable(g, g.order[i]) && Executes(g, shadow, j)
  }

  /** The report lists the steps in the order their compensators ran. */
  ghost predicate ReportsReversed(e: End) {
    e.result.Ok? && e.result.value.RolledBack? ==> e.result.value.compensated == e.st.undone
  }

  lemma ShortReport(c: Config, budget: BudgetState, recorder: RecorderState)
    requires c.g.Valid() && !TwoUndoable(c.g, c.shadow)
    ensures ReportsReversed(Run(c, budget, recorder))
  {
    var e := Run(c, budget, recorder);
    if e.result.Ok? && e.result.value.RolledBack? {
      RolledBackRun(c, budget, recorder);
      RolledBackExecutes(c, budget, recorder);
      ShortDone(c.g, c.shadow, e.result.value.failedAt - 1, e.result.value.compensated);
    }
  }

  lemma ShortDone(g: Graph, shadow: bool, k: nat, done: seq<NodeId>)
    requires k < |g.order| && Executes(g, shadow, k) && !TwoUndoable(g, shadow)
    requires forall id :: id in done ==> Compensable(g, id)
    requires forall i, j :: 0 <= i < j < |done| ==> InOrder(g.order[..k], done[i], done[j])
    ensures Reverse(done) == done
  {
    if |done| >= 2 { TwoDone(g, shadow, k, done[0], done[1]); }
  }

  lemma RolledBackExecutes(c: Config, budget: BudgetState, recorder: RecorderState)
    requires c.g.Valid() && Run(c, budget, recorder).result.Ok? && Run(c, budget, recorder).result.value.RolledBack?
    ensures var k := Run(c, budget, recorder).result.value.failedAt;
            1 <= k <= |c.g.order| && Executes(c.g, c.shadow, k - 1)
  {
    EveryRunUndo(c, budget, recorder);
  }

  lemma TwoDone(g: Graph, shadow: bool, k: nat, a: NodeId, b: NodeId)
    requires k < |g.order| && Executes(g, shadow, k) && InOrder(g.order[..k], a, b)
    requires Compensable(g, a) && Compensable(g, b)
    ensures TwoUndoable(g, shadow)
  {
    var p, q :| 0 <= p < q < |g.order[..k]| && g.order[..k][p] == a && g.order[..k][q] == b;
    assert g.order[p] == a && g.order[q] == b;
  }

  lemma LongReport(c: Config, budget: BudgetState, recorder: RecorderState, h: nat, i: nat, j: nat)
    requires Verdict(budget).None? && c.g.Valid() && c.revocation.None? && h < i < j < |c.g.order|
    requires Easy(c.w, Some(c.g.order[j])) && UndoAnswers(c.w, Ok(FREE))
    requires Compensable(c.g, c.g.order[h]) && Compensable(c.g, c.g.order[i]) && Executes(c.g, c.shadow, j)
    ensures !ReportsReversed(Run(c, budget, recorder))
  {
    SomethingQueued(c.g, h, j);
    SomethingQueued(c.g, i, j);
    SmoothReport(c, budget, recorder, j);
    UndoableIds(c.g, j);
    NotItsReverse(StepIds(Undoable(c.g, c.g.order[..j])), c.g.order[h], c.g.order[i]);
  }

  lemma SmoothReport(c: Config, budget: BudgetState, recorder: RecorderState, j: nat)
    requires Verdict(budget).None? && c.g.Valid() && c.revocation.None? && j < |c.g.order|
    requires Easy(c.w, Some(c.g.order[j])) && UndoAnswers(c.w, Ok(FREE))
    requires Executes(c.g, c.shadow, j) && Undoable(c.g, c.g.order[..j]) != []
    ensures var e := Run(c, budget, recorder);
            var ids := StepIds(Undoable(c.g, c.g.order[..j]));
            && e.result.Ok? && e.result.value.RolledBack? && e.result.value.compensated == ids
            && e.st.undone == Reverse(ids)
  {
    ValidKnown(c.g);
    FailingRun(c, budget, recorder, j);
    UndoneAll(c, budget, recorder, j);
    AllUndone(c, Undoable(c.g, c.g.order[..j]), map[]);
    ReliableReport(c, budget, recorder);
  }

  lemma NotItsReverse<T>(s: seq<T>, a: T, b: T)
    requires Distinct(s) && a in s && b in s && a != b
    ensures Reverse(s) != s
  {
    var p :| 0 <= p < |s| && s[p] == a;
    var q :| 0 <= q < |s| && s[q] == b;
    var last := |s| - 1;
    assert 0 < last && s[0] != s[last];
    EndsSwap(s);
  }

  lemma EndsSwap<T>(s: seq<T>)
    requires s != []
    ensures Reverse(s)[0] == s[|s| - 1]
  {
  }

  /** Over a reliable store a rollback that goes through is reported as such. */
  lemma ReliableReport(c: Config, budget: BudgetState, recorder: RecorderState)
    requires c.g.Valid() && Known(c.g) && Reliable(c.w) && !IsRevoked(c) && NodeFailed(c, Run(c, budget, recorder).st)
    requires var k := Run(c, budget, recorder).st.step;
             Undoable(c.g, c.g.order[..k - 1]) != [] && Unwinding(c, k - 1).failure.None?
    ensures var e := Run(c, budget, recorder);
            && e.result.Ok? && e.result.value.RolledBack?
            && e.result.value.compensated == StepIds(Undoable(c.g, c.g.order[..e.st.step - 1]))
            && e.st.undone == Unwinding(c, e.st.step - 1).ran
  {
    EveryRunUndo(c, budget, recorder);
    ReliableCloses(c, budget, recorder);
  }

  /** Every run reports the compensated steps in the order they were undone, exactly when no two undoable steps come
      before a node that is executed. */
  lemma ReportsReversedExactly(g: Graph, intent: Intent, shadow: bool, budget: BudgetState, recorder: RecorderState)
    requires g.Valid() && Verdict(budget).None?
    ensures (forall w :: ReportsReversed(Run(Config(g, w, intent, shadow, None), budget, recorder)))
            <==> !TwoUndoable(g, shadow)
  {
    if TwoUndoable(g, shadow) {
      var h, i, j :| 0 <= h < i < j < |g.order| && Compensable(g, g.order[h]) && Compensable(g, g.order[i])
                     && Executes(g, shadow, j);
      var w := EasyWorld(Some(g.order[j]), Ok(FREE), Allow);
      LongReport(Config(g, w, intent, shadow, None), budget, recorder, h, i, j);
    } else {
      forall w
        ensures ReportsReversed(Run(Config(g, w, intent, shadow, None), budget, recorder))
      {
        ShortReport(Config(g, w, intent, shadow, None), budget, recorder);
      }
    }
  }

  // ---- draining the chain

  ghost predicate Drains(e: End) {
    e.result.Err? ==> e.st.chain == []
  }

  ghost predicate NoneCompensable(g: Graph) {
    forall i :: 0 <= i < |g.order| ==> !Compensable(g, g.order[i])
  }

  lemma {:induction false} ChainStaysEmpty(c: Config, st: State)
    requires Known(c.g) && NoneCompensable(c.g) && st.chain == [] && st.step <= |c.g.order|
    ensures RunFrom(c, st).st.chain == []
    decreases |c.g.order| - st.step
  {
    if st.step < |c.g.order| {
      match RunNode(c, st)
      case Go(s) =>
        IterationGoes(c, st);
        assert !Compensable(c.g, c.g.order[st.step]);
        ChainStaysEmpty(c, s);
      case Halt(e) =>
        var x := IterationStops(c, st);
        ChainAtExit(c, st, x);
    }
  }

  lemma ChainAtExit(c: Config, st: State, x: Exit)
    requires st.step < |c.g.order| && c.g.order[st.step] in c.g.nodes && StopsAt(c, st, x) && st.chain == []
    ensures x.Leave(c).st.chain == []
  {
  }

  /** A denied run undoes none of the writes it has queued. */
  lemma DeniedKeepsWrites(c: Config, budget: BudgetState, recorder: RecorderState)
    requires Verdict(budget).None? && c.g.Valid() && c.revocation.None?
    requires Easy(c.w, None) && ArtifactAnswers(c.w, Deny([]))
    ensures var e := Run(c, budget, recorder);
            e.result == Err(PolicyDenied([])) && e.st.undone == [] && e.st.chain == Undoable(c.g, c.g.order)
  {
    ValidKnown(c.g);
    EasyStart(c, budget, recorder, None);
    var s := SmoothToEnd(c, Opened(c, budget, recorder));
    assert c.g.order[..|c.g.order|] == c.g.order;
    DeniedFinish(c, s);
  }

  lemma DeniedFinish(c: Config, s: State)
    requires Smooth(c, s) && c.w.closeStored && ArtifactAnswers(c.w, Deny([]))
    ensures var e := Finish(c, s);
            e.result == Err(PolicyDenied([])) && e.st.undone == s.undone && e.st.chain == s.chain
  {
    assert c.w.policy(PreArtifact, s.step, Context(s, None, None)) == Deny([]);
  }

  /** Every failing run leaves an empty chain exactly when no node of the graph is a write with a compensator. */
  lemma DrainsExactly(g: Graph, intent: Intent, shadow: bool, budget: BudgetState, recorder: RecorderState)
    requires g.Valid() && Verdict(budget).None?
    ensures (forall w :: Drains(Run(Config(g, w, intent, shadow, None), budget, recorder))) <==> NoneCompensable(g)
  {
    ValidKnown(g);
    if NoneCompensable(g) {
      forall w
        ensures Drains(Run(Config(g, w, intent, shadow, None), budget, recorder))
      {
        var c := Config(g, w, intent, shadow, None);
        ChainStaysEmpty(c, Opened(c, budget, recorder));
      }
    } else {
      var i :| 0 <= i < |g.order| && Compensable(g, g.order[i]);
      var w := EasyWorld(None, Ok(FREE), Deny([]));
      DeniedKeepsWrites(Config(g, w, intent, shadow, None), budget, recorder);
      UndoableMembers(g, g.order, g.order[i]);
    }
  }
}
