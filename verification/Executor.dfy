/** The graph executor as a state machine over the steps of a run. */
module Executor {
  import opened Budget
  import opened Compensation
  import opened Contracts
  import opened Digraph
  import opened GraphValidation
  import opened RuntimeTypes
  import opened Trace

  datatype Intent = Intent(traceId: TraceId, intentId: IntentId, userId: string)

  datatype PolicyHook = PrePlan | PreStep | PostStep | PreArtifact

  /** The parts of the policy context that change during a run. */
  datatype PolicyContext = PolicyContext(
    effect: Option<SideEffect>, output: Option<Payload>, remaining: BudgetContract, composedWrites: nat)

  /** Everything a run cannot control. Each entry is consulted at most once per hook and step, so any
      behaviour of nodes, policies, clocks and storage is one of these values. */
  datatype World = World(
    policy: (PolicyHook, nat, PolicyContext) -> PolicyDecision,
    run: (NodeId, Outputs) -> Result<NodeOutput, RuntimeError>,
    undo: Undo,
    elapsed: NodeId -> U64,
    describe: RuntimeError -> string,
    describeRecorder: RecorderError -> string,
    openStored: bool,
    recordStored: NodeId -> bool,
    closeStored: bool,
    openedAt: int,
    closedAt: int)

  datatype Config = Config(
    g: Graph, w: World, intent: Intent, shadow: bool, revocation: Option<string -> bool>)

  datatype ExecutionOutcome =
    | Finished(outputs: Outputs, steps: nat)
    | BudgetPartial(outputs: Outputs, steps: nat, exhausted: BudgetError)
    | PendingApproval(outputs: Outputs, atStep: nat, decision: PolicyDecision)
    | RolledBack(failedAt: nat, reason: string, compensated: seq<NodeId>)

  type RunResult = Result<ExecutionOutcome, RuntimeError>

  /** One node execution and the outputs it was given. */
  datatype Visit = Visit(id: NodeId, given: Outputs)

  /** The state of a run, with the node executions, the compensator executions and what each compensator was shown,
      the accepted charges and the recorder calls made so far. */
  datatype State = State(
    outputs: Outputs, step: nat, writes: nat, chain: seq<Entry>, targets: seq<NodeId>,
    budget: BudgetState, recorder: RecorderState,
    ran: seq<Visit>, undone: seq<NodeId>, shown: seq<Outputs>, charges: seq<Charge>, calls: seq<Action>)

  datatype End = End(result: RunResult, st: State)

  datatype Next = Go(st: State) | Halt(end: End)

  function KindName(k: NodeKind): string {
    match k
    case Deterministic => "Deterministic"
    case Agent => "Agent"
    case Approval => "Approval"
    case Fork => "Fork"
    case EventWait => "EventWait"
  }

  function Context(st: State, effect: Option<SideEffect>, output: Option<Payload>): PolicyContext {
    PolicyContext(effect, output, Remaining(st.budget), st.writes)
  }

  function Call(st: State, a: Action): (State, Option<RecorderError>) {
    var (r, err) := Step(st.recorder, a);
    (st.(recorder := r, calls := st.calls + [a]), err)
  }

  /** Close the trace, then return `result` unless the recorder failed. */
  function CloseWith(c: Config, st: State, status: TraceStatus, result: RunResult): End {
    var (s, err) := Call(st, Action.Close(c.intent.traceId, status, c.w.closedAt, c.w.closeStored));
    if err.Some? then End(Err(NodeFailure(c.w.describeRecorder(err.value))), s) else End(result, s)
  }

  /** The reaction to a policy decision, the same at all four hooks; `None` lets the run proceed. */
  function Gate(c: Config, st: State, d: PolicyDecision): Option<End> {
    match d
    case Deny(v) => Some(CloseWith(c, st, Failed, Err(PolicyDenied(v))))
    case RequireApproval(_) => Some(CloseWith(c, st, Partial, Ok(PendingApproval(st.outputs, st.step, d))))
    case _ => None
  }

  function Marker(node: Node, id: NodeId): NodeOutput {
    NodeOutput(ShadowMarker(id, node.sideEffect), 0, 0.0, 0, None)
  }

  /** Run the node, or in shadow mode only pretend to when it is write-class. */
  function Attempt(c: Config, st: State, id: NodeId, node: Node): (Result<NodeOutput, RuntimeError>, State) {
    if c.shadow && node.sideEffect.WriteClass() then (Ok(Marker(node, id)), st)
    else (c.w.run(id, st.outputs), st.(ran := st.ran + [Visit(id, st.outputs)]))
  }

  /** A node failed: unwind the chain, close the trace, report. */
  function Fail(c: Config, st: State, e: RuntimeError): End {
    if st.chain == [] then CloseWith(c, st, Failed, Err(e))
    else
      var u := Unwind(st.chain, map[], c.w.undo);
      var s := st.(chain := u.left, undone := st.undone + u.ran, shown := st.shown + u.given);
      match Report(u, c.w.describe)
      case Err(x) => End(Err(x), s)
      case Ok(_) =>
        CloseWith(c, s, Failed,
                  if st.targets != [] then Ok(RolledBack(st.step, c.w.describe(e), st.targets)) else Err(e))
  }

  function TraceEntry(c: Config, step: nat, id: NodeId, node: Node, o: NodeOutput): TraceStep {
    TraceStep(step, id, "node_run", o.model, o.tokens / 2, o.tokens - o.tokens / 2, o.costUsd, o.durationMs,
              Observation(c.intent.traceId, id, step, "runtime",
                          "ran node " + id + " of kind " + KindName(node.kind), Some(Succeeded)))
  }

  /** Record the step, queue its compensator and keep its output. */
  function Commit(c: Config, st: State, id: NodeId, node: Node, o: NodeOutput): Next {
    var (s, err) := Call(st, Record(TraceEntry(c, st.step, id, node, o), c.w.recordStored(id)));
    if err.Some? then Halt(End(Err(NodeFailure(c.w.describeRecorder(err.value))), s))
    else
      var q :=
        if !node.sideEffect.WriteClass() then s
        else if id !in c.g.compensators then s.(writes := s.writes + 1)
        else s.(writes := s.writes + 1, chain := s.chain + [Entry(id, c.g.compensators[id])],
                targets := s.targets + [id]);
      Go(q.(outputs := q.outputs[id := o]))
  }

  /** Charge the budget, pass the post-step hook, commit. */
  function Settle(c: Config, st: State, id: NodeId, node: Node, o: NodeOutput): Next
    requires st.step >= 1
  {
    var charge := Charge(o.tokens, o.costUsd, c.w.elapsed(id));
    var s := st.(budget := After(st.budget, charge));
    var refused := Verdict(s.budget);
    if refused.Some? then
      Halt(CloseWith(c, s, Partial, Ok(BudgetPartial(s.outputs, s.step - 1, refused.value))))
    else
      var paid := s.(charges := s.charges + [charge]);
      var d := c.w.policy(PostStep, paid.step, Context(paid, Some(node.sideEffect), Some(o.data)));
      var stopped := Gate(c, if d.RequireApproval? then paid.(outputs := paid.outputs[id := o]) else paid, d);
      if stopped.Some? then Halt(stopped.value) else Commit(c, paid, id, node, o)
  }

  /** One iteration of the executor loop. */
  function RunNode(c: Config, st: State): Next
    requires st.step < |c.g.order|
  {
    var id := c.g.order[st.step];
    var s := st.(step := st.step + 1);
    if id !in c.g.nodes then Halt(End(Err(NodeFailure("missing node " + id)), s))
    else
      var node := c.g.nodes[id];
      var d := c.w.policy(PreStep, s.step, Context(s, Some(node.sideEffect), None));
      var stopped := Gate(c, s, d);
      if stopped.Some? then Halt(stopped.value)
      else
        var (produced, a) := Attempt(c, s, id, node);
        match produced
        case Err(e) => Halt(Fail(c, a, e))
        case Ok(o) => Settle(c, a, id, node, o)
  }

  /** After the last node: the pre-artifact hook, then completion. */
  function Finish(c: Config, st: State): End {
    var d := c.w.policy(PreArtifact, st.step, Context(st, None, None));
    var stopped := Gate(c, st, d);
    if stopped.Some? then stopped.value
    else CloseWith(c, st, Completed, Ok(Finished(st.outputs, st.step)))
  }

  function RunFrom(c: Config, st: State): End
    requires st.step <= |c.g.order|
    decreases |c.g.order| - st.step
  {
    if st.step == |c.g.order| then Finish(c, st)
    else
      StepCounts(c, st);
      match RunNode(c, st)
      case Halt(e) => e
      case Go(s) => RunFrom(c, s)
  }

  lemma StepCounts(c: Config, st: State)
    requires st.step < |c.g.order|
    ensures RunNode(c, st).Go? ==> RunNode(c, st).st.step == st.step + 1
  {
  }

  function Start(budget: BudgetState, recorder: RecorderState): State {
    State(map[], 0, 0, [], [], budget, recorder, [], [], [], [], [])
  }

  predicate IsRevoked(c: Config) {
    c.revocation.Some? && "did:aaf:" <= c.intent.userId && c.revocation.value(c.intent.userId)
  }

  /** A whole run. */
  function Run(c: Config, budget: BudgetState, recorder: RecorderState): End {
    var s := Start(budget, recorder);
    if IsRevoked(c) then End(Err(Revoked(c.intent.userId, "revoked in revocation registry")), s)
    else
      var d := c.w.policy(PrePlan, 0, Context(s, None, None));
      var (o, err) := Call(s, Action.Open(c.intent.traceId, c.intent.intentId, c.w.openedAt, c.w.openStored));
      if err.Some? then End(Err(NodeFailure(c.w.describeRecorder(err.value))), o)
      else
        var stopped := Gate(c, o, d);
        if stopped.Some? then stopped.value else RunFrom(c, o)
  }

  // ---- the two ways an iteration can go, field by field

  /** The attempt made by the iteration that starts in `st`. */
  function Attempted(c: Config, st: State): (Result<NodeOutput, RuntimeError>, State)
    requires st.step < |c.g.order| && c.g.order[st.step] in c.g.nodes
  {
    var id := c.g.order[st.step];
    Attempt(c, st.(step := st.step + 1), id, c.g.nodes[id])
  }

  function ChargeFor(c: Config, id: NodeId, o: NodeOutput): Charge {
    Charge(o.tokens, o.costUsd, c.w.elapsed(id))
  }

  function RecordCall(c: Config, st: State, id: NodeId, o: NodeOutput): Action
    requires id in c.g.nodes
  {
    Record(TraceEntry(c, st.step, id, c.g.nodes[id], o), c.w.recordStored(id))
  }

  /** The state after the charge of a successful attempt was accepted. */
  function Paid(c: Config, a: State, id: NodeId, o: NodeOutput): State {
    a.(budget := After(a.budget, ChargeFor(c, id, o)), charges := a.charges + [ChargeFor(c, id, o)])
  }

  /** The iteration from `st` went through and left `s`. */
  ghost predicate Advanced(c: Config, st: State, s: State)
    requires st.step < |c.g.order|
  {
    var id := c.g.order[st.step];
    id in c.g.nodes &&
    var (produced, a) := Attempted(c, st);
    produced.Ok? &&
    var o := produced.value;
    var p := Paid(c, a, id, o);
    var queued := c.g.nodes[id].sideEffect.WriteClass() && id in c.g.compensators;
    && s.step == st.step + 1
    && s.outputs == st.outputs[id := o]
    && s.writes == st.writes + (if c.g.nodes[id].sideEffect.WriteClass() then 1 else 0)
    && s.chain == st.chain + (if queued then [Entry(id, c.g.compensators[id])] else [])
    && s.targets == st.targets + (if queued then [id] else [])
    && s.budget == p.budget && Verdict(p.budget).None? && s.charges == p.charges
    && s.ran == a.ran && s.undone == st.undone && s.shown == st.shown
    && s.calls == st.calls + [RecordCall(c, p, id, o)]
    && Step(st.recorder, RecordCall(c, p, id, o)) == (s.recorder, None)
  }

  datatype Place = PreGate | NodeError | OverBudget | PostGate | RecordFailed

  /** How an iteration ends a run: from the state `base`, either by closing the trace and returning `intended`,
      or with an error that leaves the trace as it is. */
  datatype Exit =
    | Closing(place: Place, base: State, status: TraceStatus, intended: RunResult)
    | Abandoning(place: Place, base: State, error: RuntimeError)
  {
    function Leave(c: Config): End {
      match this
      case Closing(_, s, status, r) => CloseWith(c, s, status, r)
      case Abandoning(_, s, e) => End(Err(e), s)
    }
  }

  predicate Completes(e: End) {
    e.result.Ok? && e.result.value.Finished?
  }

  /** A denial closes the trace as failed, an approval gate closes it as partial. */
  predicate GateResult(x: Exit, outputs: Outputs, step: nat) {
    && x.Closing?
    && ((x.status == Failed && x.intended.Err?) ||
        (x.status == Partial && x.intended.Ok? && x.intended.value.PendingApproval?
         && x.intended.value == PendingApproval(outputs, step, x.intended.value.decision)
         && x.intended.value.decision.RequireApproval?))
  }

  /** The exit taken by a node failure in state `a`. */
  predicate FailureResult(c: Config, a: State, e: RuntimeError, x: Exit) {
    var u := Unwind(a.chain, map[], c.w.undo);
    if a.chain == [] then
      x == Closing(NodeError, a, Failed, Err(e))
    else
      && x.base == a.(chain := u.left, undone := a.undone + u.ran, shown := a.shown + u.given)
      && match Report(u, c.w.describe)
         case Err(y) => x == Abandoning(NodeError, x.base, y)
         case Ok(_) =>
           x == Closing(NodeError, x.base, Failed,
                        if a.targets != [] then Ok(RolledBack(a.step, c.w.describe(e), a.targets)) else Err(e))
  }

  /** The iteration from `st` takes the exit `x`. */
  predicate StopsAt(c: Config, st: State, x: Exit)
    requires st.step < |c.g.order| && c.g.order[st.step] in c.g.nodes
  {
    var id := c.g.order[st.step];
    var (produced, a) := Attempted(c, st);
    if x.place == PreGate then
      x.base == st.(step := st.step + 1) && GateResult(x, st.outputs, st.step + 1)
    else if x.place == NodeError then
      produced.Err? && FailureResult(c, a, produced.error, x)
    else
      produced.Ok? &&
      var o := produced.value;
      var p := Paid(c, a, id, o);
      if x.place == OverBudget then
        && x.Closing? && x.base == p.(charges := a.charges) && x.status == Partial && Verdict(p.budget).Some?
        && x.intended == Ok(BudgetPartial(st.outputs, st.step, Verdict(p.budget).value))
      else if x.place == PostGate then
        && Verdict(p.budget).None? && GateResult(x, st.outputs[id := o], st.step + 1)
        && x.base == if x.status == Partial then p.(outputs := p.outputs[id := o]) else p
      else
        var (_, err) := Step(p.recorder, RecordCall(c, p, id, o));
        && Verdict(p.budget).None? && x.base == Call(p, RecordCall(c, p, id, o)).0
        && err.Some? && x == Abandoning(RecordFailed, x.base, NodeFailure(c.w.describeRecorder(err.value)))
  }

  lemma IterationGoes(c: Config, st: State)
    requires st.step < |c.g.order| && RunNode(c, st).Go?
    ensures Advanced(c, st, RunNode(c, st).st)
  {
    RunNodeSettles(c, st);
    SettledAdvances(c, st, RunNode(c, st).st);
  }

  lemma SettledAdvances(c: Config, st: State, s: State)
    requires st.step < |c.g.order| && c.g.order[st.step] in c.g.nodes && Attempted(c, st).0.Ok?
    requires Settled(c, st) == Go(s)
    ensures Advanced(c, st, s)
  {
    var id := c.g.order[st.step];
    var (produced, a) := Attempted(c, st);
    SettleGoes(c, a, id, c.g.nodes[id], produced.value);
    CommitGoes(c, Paid(c, a, id, produced.value), id, c.g.nodes[id], produced.value);
  }

  /** What the iteration from `st` settles, once the pre-step hook let it through. */
  function Settled(c: Config, st: State): Next
    requires st.step < |c.g.order| && c.g.order[st.step] in c.g.nodes && Attempted(c, st).0.Ok?
  {
    Settle(c, Attempted(c, st).1, c.g.order[st.step], c.g.nodes[c.g.order[st.step]], Attempted(c, st).0.value)
  }

  /** The pre-step decision of the iteration from `st`. */
  function PreDecision(c: Config, st: State): PolicyDecision
    requires st.step < |c.g.order| && c.g.order[st.step] in c.g.nodes
  {
    var s := st.(step := st.step + 1);
    c.w.policy(PreStep, s.step, Context(s, Some(c.g.nodes[c.g.order[st.step]].sideEffect), None))
  }

  /** The iteration settles exactly when the hook lets it through and the attempt answers. */
  lemma RunNodeSettles(c: Config, st: State)
    requires st.step < |c.g.order| && c.g.order[st.step] in c.g.nodes
    ensures Attempted(c, st).1.step == st.step + 1
    ensures !PreDecision(c, st).Deny? && !PreDecision(c, st).RequireApproval? && Attempted(c, st).0.Ok? ==>
              RunNode(c, st) == Settled(c, st)
    ensures RunNode(c, st).Go? ==>
              !PreDecision(c, st).Deny? && !PreDecision(c, st).RequireApproval? && Attempted(c, st).0.Ok?
  {
  }

  /** A denied or gated iteration stops at the hook; a failing attempt goes to the rollback. */
  lemma RunNodeHalts(c: Config, st: State)
    requires st.step < |c.g.order| && c.g.order[st.step] in c.g.nodes
    ensures var d, s := PreDecision(c, st), st.(step := st.step + 1);
            && (Gate(c, s, d).Some? ==> RunNode(c, st) == Halt(Gate(c, s, d).value))
            && (Gate(c, s, d).None? && Attempted(c, st).0.Err? ==>
                  RunNode(c, st) == Halt(Fail(c, Attempted(c, st).1, Attempted(c, st).0.error)))
  {
  }

  lemma SettleGoes(c: Config, a: State, id: NodeId, node: Node, o: NodeOutput)
    requires a.step >= 1 && Settle(c, a, id, node, o).Go?
    ensures Verdict(Paid(c, a, id, o).budget).None?
    ensures Settle(c, a, id, node, o) == Commit(c, Paid(c, a, id, o), id, node, o)
  {
  }

  lemma CommitGoes(c: Config, p: State, id: NodeId, node: Node, o: NodeOutput)
    requires Commit(c, p, id, node, o).Go?
    ensures var s := Commit(c, p, id, node, o).st;
            var call := Record(TraceEntry(c, p.step, id, node, o), c.w.recordStored(id));
            var queued := node.sideEffect.WriteClass() && id in c.g.compensators;
            && s.step == p.step && s.outputs == p.outputs[id := o]
            && s.writes == p.writes + (if node.sideEffect.WriteClass() then 1 else 0)
            && s.chain == p.chain + (if queued then [Entry(id, c.g.compensators[id])] else [])
            && s.targets == p.targets + (if queued then [id] else [])
            && s.budget == p.budget && s.charges == p.charges && s.ran == p.ran && s.undone == p.undone && s.shown == p.shown
            && s.calls == p.calls + [call] && Step(p.recorder, call) == (s.recorder, None)
  {
    assert p.chain + [] == p.chain && p.targets + [] == p.targets;
  }

  lemma IterationStops(c: Config, st: State) returns (x: Exit)
    requires st.step < |c.g.order| && RunNode(c, st).Halt? && c.g.order[st.step] in c.g.nodes
    ensures StopsAt(c, st, x) && RunNode(c, st).end == x.Leave(c)
  {
    var id := c.g.order[st.step];
    var node := c.g.nodes[id];
    var s := st.(step := st.step + 1);
    var d := c.w.policy(PreStep, s.step, Context(s, Some(node.sideEffect), None));
    if Gate(c, s, d).Some? {
      x := GateExit(c, s, PreGate, d);
    } else {
      var (produced, a) := Attempted(c, st);
      match produced
      case Err(e) => x := FailExit(c, a, e);
      case Ok(o) => x := SettleStops(c, st, a, id, o);
    }
  }

  lemma GateExit(c: Config, s: State, place: Place, d: PolicyDecision) returns (x: Exit)
    requires Gate(c, s, d).Some?
    ensures x.Closing? && x.place == place && x.base == s && GateResult(x, s.outputs, s.step)
    ensures x.status == Partial <==> d.RequireApproval?
    ensures Gate(c, s, d).value == x.Leave(c)
  {
    x := if d.Deny? then Closing(place, s, Failed, Err(PolicyDenied(d.violations)))
         else Closing(place, s, Partial, Ok(PendingApproval(s.outputs, s.step, d)));
  }

  lemma FailExit(c: Config, a: State, e: RuntimeError) returns (x: Exit)
    ensures FailureResult(c, a, e, x) && x.place == NodeError && Fail(c, a, e) == x.Leave(c)
  {
    var u := Unwind(a.chain, map[], c.w.undo);
    var s := a.(chain := u.left, undone := a.undone + u.ran, shown := a.shown + u.given);
    x := if a.chain == [] then Closing(NodeError, a, Failed, Err(e))
         else if u.failure.Some? then Abandoning(NodeError, s, Report(u, c.w.describe).error)
         else Closing(NodeError, s, Failed,
                      if a.targets != [] then Ok(RolledBack(a.step, c.w.describe(e), a.targets)) else Err(e));
  }

  lemma SettleStops(c: Config, st: State, a: State, id: NodeId, o: NodeOutput) returns (x: Exit)
    requires st.step < |c.g.order| && c.g.order[st.step] == id && id in c.g.nodes
    requires Attempted(c, st) == (Ok(o), a)
    requires Settle(c, a, id, c.g.nodes[id], o).Halt?
    ensures StopsAt(c, st, x) && Settle(c, a, id, c.g.nodes[id], o).end == x.Leave(c)
  {
    var node := c.g.nodes[id];
    var p := Paid(c, a, id, o);
    var post := c.w.policy(PostStep, p.step, Context(p, Some(node.sideEffect), Some(o.data)));
    if Verdict(p.budget).Some? {
      x := Closing(OverBudget, p.(charges := a.charges), Partial,
                   Ok(BudgetPartial(st.outputs, st.step, Verdict(p.budget).value)));
    } else if post.Deny? || post.RequireApproval? {
      x := GateExit(c, if post.RequireApproval? then p.(outputs := p.outputs[id := o]) else p, PostGate, post);
    } else {
      var (s, err) := Call(p, RecordCall(c, p, id, o));
      x := Abandoning(RecordFailed, s, NodeFailure(c.w.describeRecorder(err.value)));
    }
  }

  /** No exit from the loop completes the run. */
  lemma NotFinished(c: Config, st: State, x: Exit)
    requires st.step < |c.g.order| && c.g.order[st.step] in c.g.nodes && StopsAt(c, st, x)
    ensures x.Leave(c).st.ran == x.base.ran && !Completes(x.Leave(c))
  {
  }
}
