/** The result of every run, position by position: what the first obstacle is and what the run then answers. */
module ExecutorResults {
  import opened Budget
  import opened Compensation
  import opened Contracts
  import opened Digraph
  import opened Executor
  import opened ExecutorBooks
  import opened ExecutorPolicy
  import opened ExecutorTheorems
  import opened ExecutorUndo
  import opened GraphValidation
  import opened Ordering
  import opened RuntimeTypes
  import opened Trace

  // ---- the expected result, without the state machine

  /** A denial is answered with its own violations, an approval gate with the outputs so far and its own decision. */
  ghost function HookResult(d: PolicyDecision, outputs: Outputs, step: nat): RunResult
    requires !Permits(d)
  {
    match d
    case Deny(v) => Err(PolicyDenied(v))
    case RequireApproval(_) => Ok(PendingApproval(outputs, step, d))
  }

  /** A node failure: the failing compensator, or the cause when nothing was queued, or the rolled-back steps. */
  ghost function FailedResult(c: Config, stack: seq<Entry>, step: nat, cause: RuntimeError): RunResult {
    var u := Unwind(stack, map[], c.w.undo);
    if u.failure.Some? then
      Err(CompensationFailed(if u.ran == [] then "" else u.ran[|u.ran| - 1], c.w.describe(u.failure.value)))
    else if stack == [] then Err(cause)
    else Ok(RolledBack(step, c.w.describe(cause), StepIds(stack)))
  }

  /** The answer when position k is the first that does not go through. */
  ghost function StopResult(c: Config, b0: BudgetState, k: nat): RunResult
    requires Known(c.g) && k < |c.g.order| && !GoesThrough(c, b0, k)
  {
    if !PreAllowed(c, b0, k) then HookResult(PreAnswer(c, b0, k), Expected(c, k), k + 1)
    else if Answer(c, k).Err? then FailedResult(c, Undoable(c.g, c.g.order[..k]), k + 1, Answer(c, k).error)
    else if !Solvent(c, b0, k + 1) then
      Ok(BudgetPartial(Expected(c, k), k, Verdict(ChargeAll(b0, ExpectedCharges(c, k + 1))).value))
    else if !PostAllowed(c, b0, k) then HookResult(PostAnswer(c, b0, k), Expected(c, k + 1), k + 1)
    else StoreRefused(c)
  }

  /** The answer when every position goes through. */
  ghost function EndResult(c: Config, b0: BudgetState): RunResult
    requires Known(c.g)
  {
    var n := |c.g.order|;
    if ArtifactAllowed(c, b0) then Ok(Finished(Expected(c, n), n))
    else HookResult(ArtifactAnswer(c, b0), Expected(c, n), n)
  }

  /** The run answers this, unless the store refuses the close and the run answers that instead. */
  ghost predicate Answers(c: Config, e: End, r: RunResult) {
    e.result == r || (!c.w.closeStored && e.result == StoreRefused(c))
  }

  // ---- one stop at a time

  ghost predicate Tracked(c: Config, st: State) {
    c.intent.traceId in st.recorder.open
  }

  lemma CloseAnswers(c: Config, st: State, status: TraceStatus, r: RunResult)
    requires Tracked(c, st)
    ensures Answers(c, CloseWith(c, st, status, r), r)
  {
  }

  lemma GateAnswers(c: Config, st: State, d: PolicyDecision)
    requires Tracked(c, st) && !Permits(d)
    ensures Gate(c, st, d).Some? && Answers(c, Gate(c, st, d).value, HookResult(d, st.outputs, st.step))
  {
    match d
    case Deny(v) => CloseAnswers(c, st, Failed, Err(PolicyDenied(v)));
    case RequireApproval(_) => CloseAnswers(c, st, Partial, Ok(PendingApproval(st.outputs, st.step, d)));
  }

  lemma FailAnswers(c: Config, a: State, cause: RuntimeError)
    requires Tracked(c, a) && a.targets == StepIds(a.chain)
    ensures Answers(c, Fail(c, a, cause), FailedResult(c, a.chain, a.step, cause))
  {
    if a.chain == [] {
      CloseAnswers(c, a, Failed, Err(cause));
    } else {
      var u := Unwind(a.chain, map[], c.w.undo);
      var s := a.(chain := u.left, undone := a.undone + u.ran, shown := a.shown + u.given);
      assert |a.targets| == |a.chain|;
      CloseAnswers(c, s, Failed, Ok(RolledBack(a.step, c.w.describe(cause), a.targets)));
    }
  }

  lemma PreStops(c: Config, b0: BudgetState, st: State)
    requires Known(c.g) && Passing(c, b0, st) && Tracked(c, st) && st.step < |c.g.order|
    requires !PreAllowed(c, b0, st.step)
    ensures RunNode(c, st).Halt?
    ensures Answers(c, RunNode(c, st).end, HookResult(PreAnswer(c, b0, st.step), Expected(c, st.step), st.step + 1))
  {
    PreAsked(c, b0, st);
    RunNodeHalts(c, st);
    GateAnswers(c, st.(step := st.step + 1), PreAnswer(c, b0, st.step));
  }

  lemma NodeStops(c: Config, b0: BudgetState, st: State)
    requires Known(c.g) && Passing(c, b0, st) && Queued(c, st) && Tracked(c, st) && st.step < |c.g.order|
    requires PreAllowed(c, b0, st.step) && Answer(c, st.step).Err?
    ensures RunNode(c, st).Halt?
    ensures Answers(c, RunNode(c, st).end,
                    FailedResult(c, Undoable(c.g, c.g.order[..st.step]), st.step + 1, Answer(c, st.step).error))
  {
    PreAsked(c, b0, st);
    RunNodeHalts(c, st);
    AttemptAnswers(c, st);
    FailedAttempt(c, st);
    FailAnswers(c, Attempted(c, st).1, Answer(c, st.step).error);
  }

  /** The state in which the budget of position k has been charged. */
  lemma SettleStopsAt(c: Config, a: State, id: NodeId, node: Node, o: NodeOutput)
    requires a.step >= 1 && Tracked(c, a)
    ensures var p := Paid(c, a, id, o);
            var d := c.w.policy(PostStep, p.step, Context(p, Some(node.sideEffect), Some(o.data)));
            && (Verdict(p.budget).Some? ==>
                  && Settle(c, a, id, node, o).Halt?
                  && Answers(c, Settle(c, a, id, node, o).end,
                             Ok(BudgetPartial(a.outputs, a.step - 1, Verdict(p.budget).value))))
            && (Verdict(p.budget).None? && !Permits(d) ==>
                  && Settle(c, a, id, node, o).Halt?
                  && Answers(c, Settle(c, a, id, node, o).end, HookResult(d, a.outputs[id := o], a.step)))
            && (Verdict(p.budget).None? && Permits(d) ==> Settle(c, a, id, node, o) == Commit(c, p, id, node, o))
  {
    var p := Paid(c, a, id, o);
    var d := c.w.policy(PostStep, p.step, Context(p, Some(node.sideEffect), Some(o.data)));
    if Verdict(p.budget).Some? {
      CloseAnswers(c, p.(charges := a.charges), Partial, Ok(BudgetPartial(a.outputs, a.step - 1, Verdict(p.budget).value)));
    } else if !Permits(d) {
      GateAnswers(c, if d.RequireApproval? then p.(outputs := p.outputs[id := o]) else p, d);
    }
  }

  /** The iteration settles what the attempt produced, with the budget of this position charged and the post-step hook
      asked about the predicted context. */
  lemma SettleReached(c: Config, b0: BudgetState, st: State)
    requires Known(c.g) && Passing(c, b0, st) && st.step < |c.g.order|
    requires PreAllowed(c, b0, st.step) && Answer(c, st.step).Ok?
    ensures c.g.order[st.step] in c.g.nodes
    ensures var id, o, a := c.g.order[st.step], Answer(c, st.step).value, Attempted(c, st).1;
            var p := Paid(c, a, id, o);
            && a.step == st.step + 1 && RunNode(c, st) == Settle(c, a, id, c.g.nodes[id], o)
            && a.outputs == Expected(c, st.step) && a.recorder == st.recorder
            && p.budget == ChargeAll(b0, ExpectedCharges(c, st.step + 1))
            && c.w.policy(PostStep, p.step, Context(p, Some(c.g.nodes[id].sideEffect), Some(o.data)))
               == PostAnswer(c, b0, st.step)
  {
    var o := Answer(c, st.step).value;
    WillStart(c, b0, st);
    PostAsked(c, b0, st, o);
    ChargeAllExtend(b0, st.charges, ChargeFor(c, c.g.order[st.step], o));
  }

  lemma BudgetStops(c: Config, b0: BudgetState, st: State)
    requires Known(c.g) && Passing(c, b0, st) && Tracked(c, st) && st.step < |c.g.order|
    requires PreAllowed(c, b0, st.step) && Answer(c, st.step).Ok? && !Solvent(c, b0, st.step + 1)
    ensures RunNode(c, st).Halt?
    ensures Answers(c, RunNode(c, st).end,
                    Ok(BudgetPartial(Expected(c, st.step), st.step,
                                     Verdict(ChargeAll(b0, ExpectedCharges(c, st.step + 1))).value)))
  {
    var id, o := c.g.order[st.step], Answer(c, st.step).value;
    SettleReached(c, b0, st);
    SettleStopsAt(c, Attempted(c, st).1, id, c.g.nodes[id], o);
  }

  lemma PostStops(c: Config, b0: BudgetState, st: State)
    requires Known(c.g) && Passing(c, b0, st) && Tracked(c, st) && st.step < |c.g.order|
    requires PreAllowed(c, b0, st.step) && Answer(c, st.step).Ok? && Solvent(c, b0, st.step + 1)
    requires !PostAllowed(c, b0, st.step)
    ensures RunNode(c, st).Halt?
    ensures Answers(c, RunNode(c, st).end, HookResult(PostAnswer(c, b0, st.step), Expected(c, st.step + 1), st.step + 1))
  {
    var id, o := c.g.order[st.step], Answer(c, st.step).value;
    SettleReached(c, b0, st);
    SettleStopsAt(c, Attempted(c, st).1, id, c.g.nodes[id], o);
  }

  lemma RecordStops(c: Config, b0: BudgetState, r0: RecorderState, st: State)
    requires Known(c.g) && Passing(c, b0, st) && Keeping(c, r0, st) && st.step < |c.g.order|
    requires PreAllowed(c, b0, st.step) && Answer(c, st.step).Ok? && Solvent(c, b0, st.step + 1)
    requires PostAllowed(c, b0, st.step) && !c.w.recordStored(c.g.order[st.step])
    ensures RunNode(c, st).Halt? && RunNode(c, st).end.result == StoreRefused(c)
  {
    var id, o, a := c.g.order[st.step], Answer(c, st.step).value, Attempted(c, st).1;
    SettleReached(c, b0, st);
    SettleStopsAt(c, a, id, c.g.nodes[id], o);
    RecordRefused(c, r0, st);
    CommitStops(c, Paid(c, a, id, o), id, c.g.nodes[id], o);
  }

  lemma RecordRefused(c: Config, r0: RecorderState, st: State)
    requires Known(c.g) && Progress(c, st) && Keeping(c, r0, st) && st.step < |c.g.order|
    requires Answer(c, st.step).Ok? && !c.w.recordStored(c.g.order[st.step])
    ensures c.g.order[st.step] in c.g.nodes
    ensures var id, o := c.g.order[st.step], Answer(c, st.step).value;
            var p := Paid(c, Attempted(c, st).1, id, o);
            Step(p.recorder, RecordCall(c, p, id, o)).1 == Some(Storage)
  {
    RecordCallExpected(c, st);
    RecordHolds(c, st.recorder, st.step, false);
  }

  lemma CommitStops(c: Config, p: State, id: NodeId, node: Node, o: NodeOutput)
    requires Step(p.recorder, Record(TraceEntry(c, p.step, id, node, o), c.w.recordStored(id))).1 == Some(Storage)
    ensures Commit(c, p, id, node, o).Halt? && Commit(c, p, id, node, o).end.result == StoreRefused(c)
  {
  }

  /** The invariants of a run, together. */
  ghost predicate OnCourse(c: Config, b0: BudgetState, r0: RecorderState, st: State)
    requires Known(c.g)
  {
    Passing(c, b0, st) && Queued(c, st) && Keeping(c, r0, st)
  }

  lemma StopsAtPre(c: Config, b0: BudgetState, st: State)
    requires Known(c.g) && Passing(c, b0, st) && Tracked(c, st) && st.step < |c.g.order|
    requires !PreAllowed(c, b0, st.step)
    ensures !GoesThrough(c, b0, st.step) && Answers(c, RunFrom(c, st), StopResult(c, b0, st.step))
  {
    PreStops(c, b0, st);
  }

  lemma StopsAtNode(c: Config, b0: BudgetState, st: State)
    requires Known(c.g) && Passing(c, b0, st) && Queued(c, st) && Tracked(c, st) && st.step < |c.g.order|
    requires PreAllowed(c, b0, st.step) && Answer(c, st.step).Err?
    ensures !GoesThrough(c, b0, st.step) && Answers(c, RunFrom(c, st), StopResult(c, b0, st.step))
  {
    NodeStops(c, b0, st);
  }

  lemma StopsAtBudget(c: Config, b0: BudgetState, st: State)
    requires Known(c.g) && Passing(c, b0, st) && Tracked(c, st) && st.step < |c.g.order|
    requires PreAllowed(c, b0, st.step) && Answer(c, st.step).Ok? && !Solvent(c, b0, st.step + 1)
    ensures !GoesThrough(c, b0, st.step) && Answers(c, RunFrom(c, st), StopResult(c, b0, st.step))
  {
    BudgetStops(c, b0, st);
  }

  lemma StopsAtPost(c: Config, b0: BudgetState, st: State)
    requires Known(c.g) && Passing(c, b0, st) && Tracked(c, st) && st.step < |c.g.order|
    requires PreAllowed(c, b0, st.step) && Answer(c, st.step).Ok? && Solvent(c, b0, st.step + 1)
             && !PostAllowed(c, b0, st.step)
    ensures !GoesThrough(c, b0, st.step) && Answers(c, RunFrom(c, st), StopResult(c, b0, st.step))
  {
    PostStops(c, b0, st);
  }

  lemma StopsAtRecord(c: Config, b0: BudgetState, r0: RecorderState, st: State)
    requires Known(c.g) && OnCourse(c, b0, r0, st) && st.step < |c.g.order|
    requires PreAllowed(c, b0, st.step) && Answer(c, st.step).Ok? && Solvent(c, b0, st.step + 1)
             && PostAllowed(c, b0, st.step) && !c.w.recordStored(c.g.order[st.step])
    ensures !GoesThrough(c, b0, st.step) && Answers(c, RunFrom(c, st), StopResult(c, b0, st.step))
  {
    RecordStops(c, b0, r0, st);
  }

  lemma CourseTracked(c: Config, b0: BudgetState, r0: RecorderState, st: State)
    requires Known(c.g) && OnCourse(c, b0, r0, st)
    ensures Passing(c, b0, st) && Queued(c, st) && Tracked(c, st)
  {
  }

  lemma FirstStop(c: Config, b0: BudgetState, r0: RecorderState, st: State)
    requires Known(c.g) && OnCourse(c, b0, r0, st) && st.step < |c.g.order| && !GoesThrough(c, b0, st.step)
    ensures Answers(c, RunFrom(c, st), StopResult(c, b0, st.step))
  {
    CourseTracked(c, b0, r0, st);
    if !PreAllowed(c, b0, st.step) {
      StopsAtPre(c, b0, st);
    } else if Answer(c, st.step).Err? {
      StopsAtNode(c, b0, st);
    } else if !Solvent(c, b0, st.step + 1) {
      StopsAtBudget(c, b0, st);
    } else if !PostAllowed(c, b0, st.step) {
      StopsAtPost(c, b0, st);
    } else {
      StopsAtRecord(c, b0, r0, st);
    }
  }

  lemma EndAnswers(c: Config, b0: BudgetState, st: State)
    requires Known(c.g) && Passing(c, b0, st) && Tracked(c, st) && st.step == |c.g.order|
    ensures Answers(c, RunFrom(c, st), EndResult(c, b0))
  {
    var n := |c.g.order|;
    assert Context(st, None, None) == PolicyContext(None, None, RemainingAfter(c, b0, n), WritesBefore(c, n));
    if ArtifactAllowed(c, b0) {
      CloseAnswers(c, st, Completed, Ok(Finished(st.outputs, st.step)));
    } else {
      GateAnswers(c, st, ArtifactAnswer(c, b0));
    }
  }

  // ---- whole runs

  /** The first position, from `from` on, that does not go through; the number of positions when all do. */
  ghost function FirstObstacle(c: Config, b0: BudgetState, from: nat): (k: nat)
    requires Known(c.g) && from <= |c.g.order|
    ensures from <= k <= |c.g.order|
    ensures forall i :: from <= i < k ==> GoesThrough(c, b0, i)
    ensures k < |c.g.order| ==> !GoesThrough(c, b0, k)
    decreases |c.g.order| - from
  {
    if from < |c.g.order| && GoesThrough(c, b0, from) then FirstObstacle(c, b0, from + 1) else from
  }

  ghost function ResultFrom(c: Config, b0: BudgetState, from: nat): RunResult
    requires Known(c.g) && from <= |c.g.order|
  {
    var k := FirstObstacle(c, b0, from);
    if k < |c.g.order| then StopResult(c, b0, k) else EndResult(c, b0)
  }

  /** While positions go through, the run is on course. */
  lemma {:induction false} CourseTo(c: Config, b0: BudgetState, r0: RecorderState, st: State, k: nat) returns (s: State)
    requires Known(c.g) && OnCourse(c, b0, r0, st) && st.step <= k <= |c.g.order|
    requires forall i :: st.step <= i < k ==> GoesThrough(c, b0, i)
    ensures s.step == k && OnCourse(c, b0, r0, s) && RunFrom(c, st) == RunFrom(c, s)
    decreases k - st.step
  {
    if st.step == k {
      s := st;
    } else {
      var next := ResultNext(c, b0, r0, st);
      s := CourseTo(c, b0, r0, next, k);
    }
  }

  lemma ResultRun(c: Config, b0: BudgetState, r0: RecorderState, st: State)
    requires Known(c.g) && OnCourse(c, b0, r0, st) && st.step == 0
    ensures Answers(c, RunFrom(c, st), ResultFrom(c, b0, 0))
  {
    var k := FirstObstacle(c, b0, 0);
    var s := CourseTo(c, b0, r0, st, k);
    if k < |c.g.order| { FirstStop(c, b0, r0, s); } else { EndAnswers(c, b0, s); }
  }

  lemma ResultNext(c: Config, b0: BudgetState, r0: RecorderState, st: State) returns (s: State)
    requires Known(c.g) && OnCourse(c, b0, r0, st) && st.step < |c.g.order| && GoesThrough(c, b0, st.step)
    ensures s.step == st.step + 1 && OnCourse(c, b0, r0, s) && RunFrom(c, st) == RunFrom(c, s)
  {
    WillGoThrough(c, b0, r0, st);
    s := RunNode(c, st).st;
    WentThrough(c, b0, r0, st);
    IterationGoes(c, st);
    QueuedGo(c, st, s);
  }

  /** The requester is a DID of the framework that the registry lists. */
  ghost predicate ListedAsRevoked(c: Config) {
    c.revocation.Some? && "did:aaf:" <= c.intent.userId && c.revocation.value(c.intent.userId)
  }

  /** Every run, up to a refused close: a revoked requester is refused as such; a store that refuses the opening
      document ends the run; a plan hook that stops the run has its answer returned at step zero without outputs; and
      otherwise the first obstacle decides, each with its own answer, or the run completes. */
  lemma EveryRunResult(c: Config, b0: BudgetState, r0: RecorderState)
    requires c.g.Valid()
    ensures Known(c.g)
    ensures var e := Run(c, b0, r0);
            if ListedAsRevoked(c) then e.result == Err(Revoked(c.intent.userId, "revoked in revocation registry"))
            else if !c.w.openStored then e.result == StoreRefused(c)
            else if !PlanAllowed(c, b0) then Answers(c, e, HookResult(PlanAnswer(c, b0), map[], 0))
            else Answers(c, e, ResultFrom(c, b0, 0))
  {
    ValidKnown(c.g);
    if !ListedAsRevoked(c) && c.w.openStored {
      var o := Opened(c, b0, r0);
      OpenedKeeps(c, b0, r0);
      OpenedPasses(c, b0, r0);
      assert Context(Start(b0, r0), None, None) == PolicyContext(None, None, Remaining(b0), 0);
      if PlanAllowed(c, b0) {
        assert c.g.order[..0] == [] && StepIds([]) == [];
        assert OnCourse(c, b0, r0, o);
        RunStartsExactly(c, b0, r0);
        ResultRun(c, b0, r0, o);
      } else {
        GateAnswers(c, o, PlanAnswer(c, b0));
      }
    }
  }

  // ---- what a position leaves in the trace

  /** A simulated write costs nothing and says so. */
  lemma MarkerExactly(c: Config, k: nat)
    requires Known(c.g) && k < |c.g.order| && c.shadow && c.g.nodes[c.g.order[k]].sideEffect.WriteClass()
    ensures Answer(c, k).Ok?
    ensures var o := Answer(c, k).value;
            && o.tokens == 0 && o.costUsd == 0.0 && o.durationMs == 0 && o.model == None
            && o.data == ShadowMarker(c.g.order[k], c.g.nodes[c.g.order[k]].sideEffect)
  {
  }

  /** How an answer reaches its recorded step: number, node, tokens split in two halves that add up, cost, duration,
      model, and an observation that names the node and its kind. */
  lemma EntryExactly(c: Config, k: nat)
    requires Known(c.g) && k < |c.g.order| && Answer(c, k).Ok?
    ensures var t, o := ExpectedEntry(c, k), Answer(c, k).value;
            && t.step == k + 1 && t.nodeId == c.g.order[k] && t.stepType == "node_run" && t.model == o.model
            && t.tokensIn + t.tokensOut == o.tokens && t.tokensIn <= t.tokensOut <= t.tokensIn + 1
            && t.costUsd == o.costUsd && t.durationMs == o.durationMs
            && t.observation.traceId == c.intent.traceId && t.observation.nodeId == c.g.order[k]
            && t.observation.step == k + 1 && t.observation.agent == "runtime" && t.observation.status == Some(Succeeded)
            && t.observation.reasoning ==
               "ran node " + c.g.order[k] + " of kind "
               + match c.g.nodes[c.g.order[k]].kind
                 case Deterministic => "Deterministic"
                 case Agent => "Agent"
                 case Approval => "Approval"
                 case Fork => "Fork"
                 case EventWait => "EventWait"
  {
  }

  /** What a position is charged: its answer's tokens and cost, and the measured time. */
  lemma ChargeExactly(c: Config, id: NodeId, o: NodeOutput)
    ensures ChargeFor(c, id, o).tokens == o.tokens && ChargeFor(c, id, o).costUsd == o.costUsd
    ensures ChargeFor(c, id, o).elapsedMs == c.w.elapsed(id)
  {
  }
}
