/** The executor object. Its run follows the state machine step for step while updating the shared budget
    tracker and recorder in place. */
module GraphExecutor {
  import opened Budget
  import opened Compensation
  import opened Contracts
  import opened Digraph
  import opened Executor
  import opened GraphValidation
  import opened RuntimeTypes
  import opened Trace

  class GraphExecutor {
    const budget: BudgetTracker
    const recorder: Recorder
    const shadow: bool
    const revocation: Option<string -> bool>

    constructor (budget: BudgetTracker, recorder: Recorder, shadow: bool, revocation: Option<string -> bool>)
      ensures this.budget == budget && this.recorder == recorder
      ensures this.shadow == shadow && this.revocation == revocation
    {
      this.budget, this.recorder, this.shadow, this.revocation := budget, recorder, shadow, revocation;
    }

    /** Close the trace, then hand back `result` unless the recorder failed. */
    method CloseAnd(c: Config, status: TraceStatus, result: RunResult, ghost st: State)
      returns (r: RunResult, ghost s: State)
      requires st.recorder == recorder.State()
      modifies recorder
      ensures End(r, s) == CloseWith(c, st, status, result) && recorder.State() == s.recorder
    {
      s := Call(st, Action.Close(c.intent.traceId, status, c.w.closedAt, c.w.closeStored)).0;
      var err := recorder.CloseTrace(c.intent.traceId, status, c.w.closedAt, c.w.closeStored);
      r := if err.Some? then Err(NodeFailure(c.w.describeRecorder(err.value))) else result;
    }

    /** React to a policy decision; `None` means the run goes on and nothing changed. */
    method Gated(c: Config, d: PolicyDecision, outputs: Outputs, step: nat, ghost st: State)
      returns (stop: Option<RunResult>, ghost s: State)
      requires st.recorder == recorder.State() && st.outputs == outputs && st.step == step
      modifies recorder
      ensures recorder.State() == s.recorder
      ensures stop.None? ==> s == st && Gate(c, st, d).None?
      ensures stop.Some? ==> Gate(c, st, d) == Some(End(stop.value, s))
    {
      match d
      case Deny(v) =>
        var r;
        r, s := CloseAnd(c, Failed, Err(PolicyDenied(v)), st);
        stop := Some(r);
      case RequireApproval(_) =>
        var r;
        r, s := CloseAnd(c, Partial, Ok(PendingApproval(outputs, step, d)), st);
        stop := Some(r);
      case _ =>
        stop, s := None, st;
    }

    /** Unwind the chain after a node failed, then close the trace. */
    method RollBack(c: Config, chain: CompensationChain, targets: seq<NodeId>, step: nat, e: RuntimeError, ghost st: State)
      returns (r: RunResult, ghost s: State)
      requires st.recorder == recorder.State() && st.chain == chain.stack && st.targets == targets && st.step == step
      modifies recorder, chain
      ensures End(r, s) == Fail(c, st, e) && recorder.State() == s.recorder
    {
      var empty := chain.IsEmpty();
      if empty {
        r, s := CloseAnd(c, Failed, Err(e), st);
        return;
      }
      ghost var u := Unwind(chain.stack, map[], c.w.undo);
      var outs;
      ghost var ran, given;
      outs, ran, given := chain.Rollback(c.w.undo, c.w.describe);
      s := st.(chain := u.left, undone := st.undone + ran, shown := st.shown + given);
      match outs
      case Err(x) =>
        r := Err(x);
      case Ok(_) =>
        r, s := CloseAnd(c, Failed,
                         if targets != [] then Ok(RolledBack(step, c.w.describe(e), targets)) else Err(e), s);
    }

    /** Record a successful step. */
    method RecordRun(c: Config, step: nat, id: NodeId, node: Node, o: NodeOutput, ghost st: State)
      returns (failed: Option<RuntimeError>, ghost s: State)
      requires st.recorder == recorder.State() && st.step == step
      modifies recorder
      ensures recorder.State() == s.recorder
      ensures var (t, err) := Call(st, Record(TraceEntry(c, step, id, node, o), c.w.recordStored(id)));
              s == t && failed == if err.Some? then Some(NodeFailure(c.w.describeRecorder(err.value))) else None
    {
      var tokens := o.tokens;
      var obs := Observation(c.intent.traceId, id, step, "runtime",
                             "ran node " + id + " of kind " + KindName(node.kind), Some(Succeeded));
      var entry := TraceStep(step, id, "node_run", o.model, tokens / 2, tokens - tokens / 2,
                             o.costUsd, o.durationMs, obs);
      s := Call(st, Record(entry, c.w.recordStored(id))).0;
      var err := recorder.RecordStep(entry, c.w.recordStored(id));
      failed := if err.Some? then Some(NodeFailure(c.w.describeRecorder(err.value))) else None;
    }

    /** The executor's own variables agree with the machine state. */
    ghost predicate Mirrors(st: State, chain: CompensationChain, outputs: Outputs, step: nat, writes: nat, targets: seq<NodeId>)
      reads budget, recorder, chain
    {
      && st.outputs == outputs && st.step == step && st.writes == writes
      && st.chain == chain.stack && st.targets == targets
      && st.budget == budget.State() && st.recorder == recorder.State()
    }

    /** After a node produced an output: charge, post-step hook, record, queue its compensator. */
    method SettleRun(c: Config, chain: CompensationChain, id: NodeId, node: Node, o: NodeOutput,
                     outputs0: Outputs, step: nat, writes0: nat, targets0: seq<NodeId>, ghost st: State)
      returns (stop: Option<RunResult>, outputs: Outputs, writes: nat, targets: seq<NodeId>, ghost s: State)
      requires Mirrors(st, chain, outputs0, step, writes0, targets0) && step >= 1
      modifies budget, recorder, chain
      ensures budget.State() == s.budget && recorder.State() == s.recorder
      ensures stop.Some? ==> Settle(c, st, id, node, o) == Halt(End(stop.value, s))
      ensures stop.None? ==> Settle(c, st, id, node, o) == Go(s) && Mirrors(s, chain, outputs, step, writes, targets)
    {
      outputs, writes, targets := outputs0, writes0, targets0;
      var elapsed := c.w.elapsed(id);
      ghost var charge := Charge(o.tokens, o.costUsd, elapsed);
      var refused := budget.ChargeBudget(o.tokens, o.costUsd, elapsed);
      s := st.(budget := After(st.budget, charge));
      if refused.Some? {
        var r;
        r, s := CloseAnd(c, Partial, Ok(BudgetPartial(outputs, step - 1, refused.value)), s);
        stop := Some(r);
        return;
      }
      s := s.(charges := s.charges + [charge]);
      var left := budget.Snapshot();
      var d := c.w.policy(PostStep, step, PolicyContext(Some(node.sideEffect), Some(o.data), left, writes));
      assert d == c.w.policy(PostStep, s.step, Context(s, Some(node.sideEffect), Some(o.data)));
      if d.RequireApproval? {
        outputs := outputs[id := o];
        s := s.(outputs := outputs);
      }
      stop, s := Gated(c, d, outputs, step, s);
      if stop.Some? { return; }
      ghost var paid := s;
      var failed;
      failed, s := RecordRun(c, step, id, node, o, s);
      if failed.Some? {
        stop := Some(Err(failed.value));
        assert Commit(c, paid, id, node, o) == Halt(End(stop.value, s));
        return;
      }
      if node.sideEffect.WriteClass() {
        writes := writes + 1;
        s := s.(writes := writes);
        if id in c.g.compensators {
          chain.Push(id, c.g.compensators[id]);
          targets := targets + [id];
          s := s.(chain := chain.stack, targets := targets);
        }
      }
      outputs := outputs[id := o];
      s := s.(outputs := outputs);
      stop := None;
      assert Commit(c, paid, id, node, o) == Go(s);
    }

    /** One node of the order. */
    method RunOne(c: Config, chain: CompensationChain, outputs0: Outputs, step0: nat, writes0: nat,
                  targets0: seq<NodeId>, ghost st: State)
      returns (stop: Option<RunResult>, outputs: Outputs, writes: nat, targets: seq<NodeId>, ghost s: State)
      requires Mirrors(st, chain, outputs0, step0, writes0, targets0) && step0 < |c.g.order|
      requires c.shadow == shadow
      modifies budget, recorder, chain
      ensures budget.State() == s.budget && recorder.State() == s.recorder
      ensures stop.Some? ==> RunNode(c, st) == Halt(End(stop.value, s))
      ensures stop.None? ==> RunNode(c, st) == Go(s) && Mirrors(s, chain, outputs, step0 + 1, writes, targets)
    {
      outputs, writes, targets := outputs0, writes0, targets0;
      var id := c.g.order[step0];
      var step := step0 + 1;
      s := st.(step := step);
      if id !in c.g.nodes {
        stop := Some(Err(NodeFailure("missing node " + id)));
        return;
      }
      var node := c.g.nodes[id];
      var left := budget.Snapshot();
      var d := c.w.policy(PreStep, step, PolicyContext(Some(node.sideEffect), None, left, writes));
      assert d == c.w.policy(PreStep, s.step, Context(s, Some(node.sideEffect), None));
      stop, s := Gated(c, d, outputs, step, s);
      if stop.Some? { return; }
      ghost var before := s;
      var produced;
      if shadow && node.sideEffect.WriteClass() {
        produced := Ok(NodeOutput(ShadowMarker(id, node.sideEffect), 0, 0.0, 0, None));
      } else {
        s := s.(ran := s.ran + [Visit(id, outputs)]);
        produced := c.w.run(id, outputs);
      }
      assert Attempt(c, before, id, node) == (produced, s);
      match produced
      case Err(e) =>
        var r;
        r, s := RollBack(c, chain, targets, step, e, s);
        stop := Some(r);
      case Ok(o) =>
        stop, outputs, writes, targets, s := SettleRun(c, chain, id, node, o, outputs, step, writes, targets, s);
    }

    /** Run the graph for the intent. */
    method Run(g: Graph, intent: Intent, w: World) returns (r: RunResult, ghost st: State)
      modifies budget, recorder
      ensures End(r, st) == Executor.Run(Config(g, w, intent, shadow, revocation), old(budget.State()), old(recorder.State()))
      ensures budget.State() == st.budget && recorder.State() == st.recorder
    {
      var c := Config(g, w, intent, shadow, revocation);
      st := Start(budget.State(), recorder.State());
      if revocation.Some? && "did:aaf:" <= intent.userId && revocation.value(intent.userId) {
        return Err(Revoked(intent.userId, "revoked in revocation registry")), st;
      }
      var left := budget.Snapshot();
      var d := w.policy(PrePlan, 0, PolicyContext(None, None, left, 0));
      assert d == w.policy(PrePlan, 0, Context(st, None, None));
      ghost var open := Action.Open(intent.traceId, intent.intentId, w.openedAt, w.openStored);
      var err := recorder.OpenTraceFor(intent.traceId, intent.intentId, w.openedAt, w.openStored);
      st := Call(st, open).0;
      if err.Some? {
        return Err(NodeFailure(w.describeRecorder(err.value))), st;
      }
      var stop;
      stop, st := Gated(c, d, map[], 0, st);
      if stop.Some? { return stop.value, st; }
      r, st := RunLoop(c, st);
    }

    /** The loop over the order and the closing hook. */
    method RunLoop(c: Config, ghost st0: State) returns (r: RunResult, ghost st: State)
      requires c.shadow == shadow
      requires st0 == Start(budget.State(), recorder.State()).(calls := st0.calls)
      modifies budget, recorder
      ensures End(r, st) == RunFrom(c, st0)
      ensures budget.State() == st.budget && recorder.State() == st.recorder
    {
      st := st0;
      var outputs: Outputs, step: nat, writes: nat, targets: seq<NodeId> := map[], 0, 0, [];
      var chain := new CompensationChain();
      while step < |c.g.order|
        invariant step <= |c.g.order| && fresh(chain)
        invariant Mirrors(st, chain, outputs, step, writes, targets)
        invariant RunFrom(c, st) == RunFrom(c, st0)
      {
        StepCounts(c, st);
        var stop;
        stop, outputs, writes, targets, st := RunOne(c, chain, outputs, step, writes, targets, st);
        if stop.Some? { return stop.value, st; }
        step := step + 1;
      }
      var left := budget.Snapshot();
      var d := c.w.policy(PreArtifact, step, PolicyContext(None, None, left, writes));
      assert d == c.w.policy(PreArtifact, st.step, Context(st, None, None));
      var stop;
      stop, st := Gated(c, d, outputs, step, st);
      if stop.Some? { return stop.value, st; }
      r, st := CloseAnd(c, Completed, Ok(Finished(outputs, step)), st);
    }
  }
}
