/** Rollback over whole runs: which compensators run, in which order, and when none does. */
module ExecutorUndo {
  import opened Budget
  import opened Compensation
  import opened Contracts
  import opened Digraph
  import opened Executor
  import opened ExecutorTheorems
  import opened GraphValidation
  import opened Ordering
  import opened RuntimeTypes
  import opened Trace

  ghost predicate Compensable(g: Graph, id: NodeId) {
    id in g.nodes && id in g.compensators && g.nodes[id].sideEffect.WriteClass()
  }

  /** The compensators registered for the write-class nodes among `ids`, in the order of `ids`. */
  ghost function Undoable(g: Graph, ids: seq<NodeId>): seq<Entry> {
    if ids == [] then []
    else
      var id := ids[|ids| - 1];
      Undoable(g, ids[..|ids| - 1]) + if Compensable(g, id) then [Entry(id, g.compensators[id])] else []
  }

  lemma {:induction false} UndoableMembers(g: Graph, ids: seq<NodeId>, id: NodeId)
    ensures id in StepIds(Undoable(g, ids)) <==> id in ids && Compensable(g, id)
    decreases |ids|
  {
    if ids != [] {
      var init, last := ids[..|ids| - 1], ids[|ids| - 1];
      UndoableMembers(g, init, id);
      assert ids == init + [last];
      assert StepIds(Undoable(g, ids)) == StepIds(Undoable(g, init)) + if Compensable(g, last) then [last] else [];
    }
  }

  ghost predicate InOrder(ids: seq<NodeId>, a: NodeId, b: NodeId) {
    exists p, q :: 0 <= p < q < |ids| && ids[p] == a && ids[q] == b
  }

  /** The queue keeps execution order, and holds each step once when the ids are distinct. */
  lemma {:induction false} UndoableOrdered(g: Graph, ids: seq<NodeId>, i: nat, j: nat)
    requires i < j < |Undoable(g, ids)|
    ensures InOrder(ids, Undoable(g, ids)[i].step, Undoable(g, ids)[j].step)
    decreases |ids|
  {
    var init, last := ids[..|ids| - 1], ids[|ids| - 1];
    var u := Undoable(g, init);
    if j < |u| {
      UndoableOrdered(g, init, i, j);
      var p, q :| 0 <= p < q < |init| && init[p] == u[i].step && init[q] == u[j].step;
      assert ids[p] == init[p] && ids[q] == init[q];
    } else {
      assert StepIds(u)[i] in StepIds(u);
      UndoableMembers(g, init, u[i].step);
      var p :| 0 <= p < |init| && init[p] == u[i].step;
      assert ids[p] == u[i].step && ids[|ids| - 1] == last;
    }
  }

  ghost predicate Queued(c: Config, st: State) {
    && st.step <= |c.g.order|
    && st.chain == Undoable(c.g, c.g.order[..st.step])
    && st.targets == StepIds(st.chain)
    && st.undone == [] && st.shown == []
  }

  lemma QueuedGo(c: Config, st: State, s: State)
    requires Queued(c, st) && st.step < |c.g.order| && Advanced(c, st, s)
    ensures Queued(c, s)
  {
    var k := st.step;
    assert c.g.order[..k + 1][..k] == c.g.order[..k] && c.g.order[..k + 1][k] == c.g.order[k];
    assert s.targets == StepIds(s.chain);
  }

  /** The run ended because the node it was executing failed. */
  ghost predicate NodeFailed(c: Config, st: State)
    requires Known(c.g)
  {
    && 1 <= st.step <= |c.g.order|
    && Real(c, st.step - 1) && AllAnswered(c, st.step - 1)
    && Answer(c, st.step - 1).Err?
    && st.ran == Visits(c, st.step)
  }

  /** The compensators to unwind when position `k` fails, and how the unwinding goes. */
  ghost function Unwinding(c: Config, k: nat): Unwound
    requires k <= |c.g.order|
  {
    Unwind(Undoable(c.g, c.g.order[..k]), map[], c.w.undo)
  }

  /** The result, unless closing the trace failed. */
  ghost predicate ResultIs(c: Config, e: End, intended: RunResult) {
    || e.result == intended
    || (e.result.Err? && e.result.error.NodeFailure?
        && !(c.w.closeStored && c.intent.traceId in e.st.recorder.open))
  }

  /** The node at step k failed: the queue of the steps before it is unwound, and the report says how that went. */
  ghost predicate FailureReported(c: Config, e: End, k: nat, cause: RuntimeError)
    requires 1 <= k <= |c.g.order|
  {
    var stack := Undoable(c.g, c.g.order[..k - 1]);
    var u := Unwinding(c, k - 1);
    && e.st.undone == u.ran && e.st.shown == u.given
    && (u.failure.Some? ==>
          u.ran != [] && e.result == Err(CompensationFailed(u.ran[|u.ran| - 1], c.w.describe(u.failure.value))))
    && (u.failure.None? ==>
          ResultIs(c, e, if stack == [] then Err(cause) else Ok(RolledBack(k, c.w.describe(cause), StepIds(stack)))))
  }

  ghost predicate UndoFit(c: Config, e: End)
    requires Known(c.g)
  {
    if NodeFailed(c, e.st) then
      FailureReported(c, e, e.st.step, Answer(c, e.st.step - 1).error)
    else
      e.st.undone == [] && e.st.shown == [] && !(e.result.Ok? && e.result.value.RolledBack?)
  }

  lemma VisitsGrow(c: Config, k: nat)
    requires Known(c.g) && k < |c.g.order| && Real(c, k)
    ensures Visits(c, k) != Visits(c, k + 1)
  {
    assert |Visits(c, k + 1)| == |Visits(c, k)| + 1;
  }

  lemma LeaveKeeps(c: Config, x: Exit)
    ensures var e := x.Leave(c);
            && e.st.undone == x.base.undone && e.st.shown == x.base.shown && e.st.targets == x.base.targets
            && e.st.ran == x.base.ran && e.st.step == x.base.step
            && e.st.charges == x.base.charges && e.st.outputs == x.base.outputs
            && (x.Closing? ==> ResultIs(c, e, x.intended))
  {
  }

  lemma UndoExit(c: Config, st: State, x: Exit)
    requires Known(c.g) && Progress(c, st) && Queued(c, st) && st.step < |c.g.order| && StopsAt(c, st, x)
    ensures UndoFit(c, x.Leave(c))
  {
    AttemptAnswers(c, st);
    LeaveKeeps(c, x);
    var k := st.step;
    if x.place == NodeError {
      assert Real(c, k);
      UndoFailure(c, st, x);
    } else {
      NotNodeFailed(c, st, x);
    }
  }

  /** Leaving anywhere else than at a node error is not a node failure. */
  lemma NotNodeFailed(c: Config, st: State, x: Exit)
    requires Known(c.g) && Progress(c, st) && st.step < |c.g.order| && c.g.order[st.step] in c.g.nodes
    requires StopsAt(c, st, x) && x.place != NodeError
    ensures !NodeFailed(c, x.Leave(c).st)
  {
    AttemptAnswers(c, st);
    LeaveKeeps(c, x);
    if x.place == PreGate && Real(c, st.step) { VisitsGrow(c, st.step); }
  }

  /** The exit of a failing node, in terms of unwinding the queue. */
  lemma FailureUnwinds(c: Config, a: State, cause: RuntimeError, x: Exit)
    requires FailureResult(c, a, cause, x) && a.targets == StepIds(a.chain) && a.undone == [] && a.shown == []
    ensures var u := Unwind(a.chain, map[], c.w.undo);
            && x.base.undone == u.ran && x.base.shown == u.given && x.base.step == a.step && x.base.ran == a.ran
            && (u.failure.Some? ==>
                  u.ran != [] &&
                  x == Abandoning(NodeError, x.base,
                                  CompensationFailed(u.ran[|u.ran| - 1], c.w.describe(u.failure.value))))
            && (u.failure.None? ==>
                  && x.Closing? && x.status == Failed
                  && x.intended == if a.chain == [] then Err(cause)
                                   else Ok(RolledBack(a.step, c.w.describe(cause), StepIds(a.chain))))
  {
    var u := Unwind(a.chain, map[], c.w.undo);
    UnwindReverses(a.chain, map[], c.w.undo);
    assert [] + u.ran == u.ran && [] + u.given == u.given;
    assert a.chain != [] ==> |StepIds(a.chain)| > 0;
  }

  lemma FailureLeaves(c: Config, a: State, cause: RuntimeError, x: Exit)
    requires FailureResult(c, a, cause, x) && a.targets == StepIds(a.chain) && a.undone == [] && a.shown == []
    requires 1 <= a.step <= |c.g.order| && a.chain == Undoable(c.g, c.g.order[..a.step - 1])
    ensures FailureReported(c, x.Leave(c), a.step, cause)
    ensures x.Leave(c).st.step == a.step && x.Leave(c).st.ran == a.ran
  {
    FailureUnwinds(c, a, cause, x);
    LeaveKeeps(c, x);
  }

  lemma UndoFailure(c: Config, st: State, x: Exit)
    requires Known(c.g) && Progress(c, st) && Queued(c, st) && st.step < |c.g.order| && StopsAt(c, st, x)
    requires x.place == NodeError
    ensures NodeFailed(c, x.Leave(c).st) && UndoFit(c, x.Leave(c))
  {
    AttemptAnswers(c, st);
    FailedAttempt(c, st);
    var (produced, a) := Attempted(c, st);
    FailureLeaves(c, a, produced.error, x);
    FailedAt(c, st, x.Leave(c).st);
  }

  /** What the attempt of a failing iteration leaves for the rollback. */
  lemma FailedAttempt(c: Config, st: State)
    requires Known(c.g) && Queued(c, st) && st.step < |c.g.order| && c.g.order[st.step] in c.g.nodes
    ensures var a := Attempted(c, st).1;
            && a.step == st.step + 1 && a.chain == Undoable(c.g, c.g.order[..a.step - 1])
            && a.targets == StepIds(a.chain) && a.undone == [] && a.shown == []
  {
  }

  lemma FailedAt(c: Config, st: State, end: State)
    requires Known(c.g) && Progress(c, st) && st.step < |c.g.order| && Answer(c, st.step).Err?
    requires end.step == st.step + 1 && end.ran == Visits(c, st.step + 1)
    ensures NodeFailed(c, end) && Answer(c, end.step - 1) == Answer(c, st.step)
  {
  }

  lemma {:induction false} UndoRun(c: Config, st: State)
    requires Known(c.g) && Progress(c, st) && Queued(c, st)
    ensures UndoFit(c, RunFrom(c, st))
    decreases |c.g.order| - st.step
  {
    if st.step < |c.g.order| {
      StepCounts(c, st);
      match RunNode(c, st)
      case Go(s) =>
        IterationGoes(c, st);
        ProgressGo(c, st, s);
        QueuedGo(c, st, s);
        UndoRun(c, s);
      case Halt(e) =>
        var x := IterationStops(c, st);
        UndoExit(c, st, x);
    } else {
      FinishUndo(c, st);
    }
  }

  lemma FinishUndo(c: Config, st: State)
    requires Known(c.g) && Progress(c, st) && Queued(c, st) && st.step == |c.g.order|
    ensures UndoFit(c, Finish(c, st))
  {
    var e := Finish(c, st);
    assert e.st.step == st.step && e.st.undone == [] && e.st.shown == [];
    assert AllAnswered(c, st.step);
    assert !NodeFailed(c, e.st);
  }

  /** Every run: compensators run exactly when a node failed, and then they are the ones queued by the
      write-class nodes before it, unwound from the last; no other way out runs any. */
  lemma EveryRunUndo(c: Config, budget: BudgetState, recorder: RecorderState)
    requires c.g.Valid()
    ensures Known(c.g)
    ensures UndoFit(c, Run(c, budget, recorder))
  {
    ValidKnown(c.g);
    var o := Opened(c, budget, recorder);
    assert Progress(c, o);
    assert c.g.order[..0] == [] && StepIds([]) == [];
    assert Queued(c, o);
    UndoRun(c, o);
  }

  /** A rolled-back run, spelled out: the compensators ran in strict reverse execution order, each once; the
      reported ids are the same steps in execution order; and they are exactly the write-class nodes with a
      compensator that precede the failing node. */
  lemma RolledBackRun(c: Config, budget: BudgetState, recorder: RecorderState)
    requires c.g.Valid() && Run(c, budget, recorder).result.Ok? && Run(c, budget, recorder).result.value.RolledBack?
    ensures var e := Run(c, budget, recorder);
            var RolledBack(k, _, done) := e.result.value;
            && 1 <= k <= |c.g.order|
            && e.st.undone == Reverse(done) && done != []
            && Distinct(done)
            && (forall id :: id in done <==> id in c.g.order[..k - 1] && Compensable(c.g, id))
            && (forall i, j :: 0 <= i < j < |done| ==> InOrder(c.g.order[..k - 1], done[i], done[j]))
  {
    EveryRunUndo(c, budget, recorder);
    var e := Run(c, budget, recorder);
    var RolledBack(k, _, done) := e.result.value;
    assert NodeFailed(c, e.st) && k == e.st.step && done == StepIds(Undoable(c.g, c.g.order[..k - 1]));
    CompleteUnwinding(Undoable(c.g, c.g.order[..k - 1]), c.w.undo);
    UndoableIds(c.g, k - 1);
  }

  lemma CompleteUnwinding(stack: seq<Entry>, undo: Undo)
    requires Unwind(stack, map[], undo).failure.None?
    ensures Unwind(stack, map[], undo).ran == Reverse(StepIds(stack))
  {
    UnwindReverses(stack, map[], undo);
    var back := Reverse(StepIds(stack));
    assert back[..|stack|] == back;
  }

  lemma UndoableIds(g: Graph, k: nat)
    requires Distinct(g.order) && k <= |g.order|
    ensures var ids := StepIds(Undoable(g, g.order[..k]));
            && Distinct(ids)
            && (forall id :: id in ids <==> id in g.order[..k] && Compensable(g, id))
            && (forall i, j :: 0 <= i < j < |ids| ==> InOrder(g.order[..k], ids[i], ids[j]))
  {
    var ids := StepIds(Undoable(g, g.order[..k]));
    forall i, j | 0 <= i < j < |ids|
      ensures InOrder(g.order[..k], ids[i], ids[j]) && ids[i] != ids[j]
    {
      UndoableOrdered(g, g.order[..k], i, j);
      DistinctNotInOrder(g.order, k, ids[i], ids[j]);
    }
    forall id
      ensures id in ids <==> id in g.order[..k] && Compensable(g, id)
    {
      UndoableMembers(g, g.order[..k], id);
    }
  }

  lemma DistinctNotInOrder(order: seq<NodeId>, k: nat, a: NodeId, b: NodeId)
    requires Distinct(order) && k <= |order| && InOrder(order[..k], a, b)
    ensures a != b
  {
    var p, q :| 0 <= p < q < |order[..k]| && order[..k][p] == a && order[..k][q] == b;
    assert order[p] == a && order[q] == b;
  }

  // ---- compensators of nodes that never executed

  ghost predicate OnlyExecutedUndone(st: State) {
    forall id :: id in st.undone ==> id in VisitIds(st.ran)
  }

  lemma {:induction false} VisitsWithoutShadow(c: Config, k: nat)
    requires Known(c.g) && k <= |c.g.order| && !c.shadow
    ensures VisitIds(Visits(c, k)) == c.g.order[..k]
    decreases k
  {
    if k > 0 {
      VisitsWithoutShadow(c, k - 1);
      assert c.g.order[..k] == c.g.order[..k - 1] + [c.g.order[k - 1]];
    }
  }

  lemma UnwoundMembers(stack: seq<Entry>, undo: Undo, id: NodeId)
    requires id in Unwind(stack, map[], undo).ran
    ensures id in StepIds(stack)
  {
    UnwindReverses(stack, map[], undo);
    var ran := Unwind(stack, map[], undo).ran;
    var i :| 0 <= i < |ran| && ran[i] == id;
    assert Reverse(StepIds(stack))[i] == StepIds(stack)[|stack| - 1 - i];
  }

  lemma UndoneAreQueued(c: Config, budget: BudgetState, recorder: RecorderState, id: NodeId)
    requires c.g.Valid() && id in Run(c, budget, recorder).st.undone
    ensures Known(c.g) && NodeFailed(c, Run(c, budget, recorder).st)
    ensures id in c.g.order[..Run(c, budget, recorder).st.step - 1] && Compensable(c.g, id)
  {
    EveryRunUndo(c, budget, recorder);
    var e := Run(c, budget, recorder);
    var stack := Undoable(c.g, c.g.order[..e.st.step - 1]);
    UnwoundMembers(stack, c.w.undo, id);
    UndoableMembers(c.g, c.g.order[..e.st.step - 1], id);
  }

  /** With shadow mode off, only steps that really executed are compensated. */
  lemma UndoneWereExecuted(c: Config, budget: BudgetState, recorder: RecorderState)
    requires c.g.Valid() && !c.shadow
    ensures OnlyExecutedUndone(Run(c, budget, recorder).st)
  {
    forall id | id in Run(c, budget, recorder).st.undone
      ensures id in VisitIds(Run(c, budget, recorder).st.ran)
    {
      UndoneAreQueued(c, budget, recorder, id);
      VisitedBefore(c, Run(c, budget, recorder).st.step, id);
    }
  }

  lemma VisitedBefore(c: Config, k: nat, id: NodeId)
    requires Known(c.g) && 1 <= k <= |c.g.order| && !c.shadow && id in c.g.order[..k - 1]
    ensures id in VisitIds(Visits(c, k))
  {
    VisitsWithoutShadow(c, k);
    var i :| 0 <= i < k - 1 && c.g.order[..k - 1][i] == id;
    assert c.g.order[..k][i] == id;
  }

  /** In shadow mode no compensated step has executed. */
  lemma ShadowUndoneNeverExecuted(c: Config, budget: BudgetState, recorder: RecorderState, id: NodeId)
    requires c.g.Valid() && c.shadow && id in Run(c, budget, recorder).st.undone
    ensures id !in VisitIds(Run(c, budget, recorder).st.ran)
  {
    UndoneAreQueued(c, budget, recorder, id);
    EveryRunProgress(c, budget, recorder);
  }

  // ---- what the compensators are shown

  /** Every run: the compensator of the j-th step undone is shown exactly the outputs of the compensators that ran
      before it, under the steps they undid, so never an output of the step it undoes itself. */
  lemma EveryRunShown(c: Config, budget: BudgetState, recorder: RecorderState, j: nat)
    requires c.g.Valid() && j < |Run(c, budget, recorder).st.undone|
    ensures Known(c.g) && NodeFailed(c, Run(c, budget, recorder).st)
    ensures var st := Run(c, budget, recorder).st;
            var outs := Unwinding(c, st.step - 1).outs;
            && |st.shown| == |st.undone| && j <= |outs|
            && st.shown[j].Keys == Elems(st.undone[..j])
            && (forall i :: 0 <= i < j ==> st.undone[i] in st.shown[j] && st.shown[j][st.undone[i]] == outs[i])
            && st.undone[j] !in st.shown[j]
  {
    EveryRunUndo(c, budget, recorder);
    var k := Run(c, budget, recorder).st.step - 1;
    UndoableIds(c.g, k);
    ShownByUnwinding(Undoable(c.g, c.g.order[..k]), c.w.undo, j);
  }
}
