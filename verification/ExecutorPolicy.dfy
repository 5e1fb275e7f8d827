/** The four policy hooks over whole runs: what each is asked, and what its answer admits. */
module ExecutorPolicy {
  import opened Budget
  import opened Contracts
  import opened Digraph
  import opened Executor
  import opened ExecutorBooks
  import opened ExecutorTheorems
  import opened GraphValidation
  import opened Ordering
  import opened RuntimeTypes
  import opened Trace

  predicate Permits(d: PolicyDecision) {
    d.Allow? || d.AllowWithWarnings?
  }

  /** Write-class nodes among the first k of the order. */
  ghost function WritesBefore(c: Config, k: nat): nat
    requires Known(c.g) && k <= |c.g.order|
  {
    if k == 0 then 0
    else WritesBefore(c, k - 1) + if c.g.nodes[c.g.order[k - 1]].sideEffect.WriteClass() then 1 else 0
  }

  /** What remains of the budget after the first k nodes were charged. */
  ghost function RemainingAfter(c: Config, b0: BudgetState, k: nat): BudgetContract
    requires Known(c.g) && k <= |c.g.order|
  {
    Remaining(ChargeAll(b0, ExpectedCharges(c, k)))
  }

  /** What the plan hook is asked, and its answer. */
  ghost function PlanAnswer(c: Config, b0: BudgetState): PolicyDecision {
    c.w.policy(PrePlan, 0, PolicyContext(None, None, Remaining(b0), 0))
  }

  /** The pre-step hook at position k. */
  ghost function PreAnswer(c: Config, b0: BudgetState, k: nat): PolicyDecision
    requires Known(c.g) && k < |c.g.order|
  {
    c.w.policy(PreStep, k + 1,
               PolicyContext(Some(c.g.nodes[c.g.order[k]].sideEffect), None, RemainingAfter(c, b0, k), WritesBefore(c, k)))
  }

  /** The post-step hook at position k, shown the output and the charged budget. */
  ghost function PostAnswer(c: Config, b0: BudgetState, k: nat): PolicyDecision
    requires Known(c.g) && k < |c.g.order| && Answer(c, k).Ok?
  {
    c.w.policy(PostStep, k + 1,
               PolicyContext(Some(c.g.nodes[c.g.order[k]].sideEffect), Some(Answer(c, k).value.data),
                             RemainingAfter(c, b0, k + 1), WritesBefore(c, k)))
  }

  /** The artifact hook after the last position. */
  ghost function ArtifactAnswer(c: Config, b0: BudgetState): PolicyDecision
    requires Known(c.g)
  {
    var n := |c.g.order|;
    c.w.policy(PreArtifact, n, PolicyContext(None, None, RemainingAfter(c, b0, n), WritesBefore(c, n)))
  }

  ghost predicate PreAllowed(c: Config, b0: BudgetState, k: nat)
    requires Known(c.g) && k < |c.g.order|
  {
    Permits(PreAnswer(c, b0, k))
  }

  ghost predicate PostAllowed(c: Config, b0: BudgetState, k: nat)
    requires Known(c.g) && k < |c.g.order|
  {
    Answer(c, k).Ok? && Permits(PostAnswer(c, b0, k))
  }

  ghost predicate PlanAllowed(c: Config, b0: BudgetState) {
    Permits(PlanAnswer(c, b0))
  }

  ghost predicate ArtifactAllowed(c: Config, b0: BudgetState)
    requires Known(c.g)
  {
    Permits(ArtifactAnswer(c, b0))
  }

  /** Both step hooks let the first k positions through. */
  ghost predicate Cleared(c: Config, b0: BudgetState, k: nat)
    requires Known(c.g) && k <= |c.g.order|
  {
    forall i :: 0 <= i < k ==> PreAllowed(c, b0, i) && PostAllowed(c, b0, i)
  }

  // ---- one iteration

  ghost predicate Passing(c: Config, b0: BudgetState, st: State)
    requires Known(c.g)
  {
    Progress(c, st) && Paying(c, b0, st) && st.writes == WritesBefore(c, st.step) && Cleared(c, b0, st.step)
  }

  /** The pre-step hook is asked about exactly the predicted context. */
  lemma PreAsked(c: Config, b0: BudgetState, st: State)
    requires Known(c.g) && Passing(c, b0, st) && st.step < |c.g.order|
    ensures var s := st.(step := st.step + 1);
            Context(s, Some(c.g.nodes[c.g.order[st.step]].sideEffect), None) ==
            PolicyContext(Some(c.g.nodes[c.g.order[st.step]].sideEffect), None, RemainingAfter(c, b0, st.step),
                          WritesBefore(c, st.step))
  {
  }

  lemma BlockedBefore(c: Config, b0: BudgetState, st: State)
    requires Known(c.g) && Passing(c, b0, st) && st.step < |c.g.order| && !PreAllowed(c, b0, st.step)
    ensures RunNode(c, st).Halt? && RunNode(c, st).end.st.ran == st.ran
    ensures !Completes(RunNode(c, st).end)
  {
    PreAsked(c, b0, st);
  }

  lemma PostAsked(c: Config, b0: BudgetState, st: State, o: NodeOutput)
    requires Known(c.g) && Passing(c, b0, st) && st.step < |c.g.order| && Answer(c, st.step) == Ok(o)
    ensures var id := c.g.order[st.step];
            var p := Paid(c, Attempted(c, st).1, id, o);
            && p.step == st.step + 1
            && Context(p, Some(c.g.nodes[id].sideEffect), Some(o.data)) ==
               PolicyContext(Some(c.g.nodes[id].sideEffect), Some(o.data), RemainingAfter(c, b0, st.step + 1),
                             WritesBefore(c, st.step))
  {
    ChargeAllExtend(b0, st.charges, ChargeFor(c, c.g.order[st.step], o));
  }

  lemma SettlePermits(c: Config, a: State, id: NodeId, node: Node, o: NodeOutput)
    requires a.step >= 1 && Settle(c, a, id, node, o).Go?
    ensures var p := Paid(c, a, id, o);
            Permits(c.w.policy(PostStep, p.step, Context(p, Some(node.sideEffect), Some(o.data))))
  {
  }

  lemma PassingGo(c: Config, b0: BudgetState, st: State)
    requires Known(c.g) && Passing(c, b0, st) && st.step < |c.g.order| && RunNode(c, st).Go?
    ensures Passing(c, b0, RunNode(c, st).st) && RunNode(c, st).st.step == st.step + 1
  {
    var s := RunNode(c, st).st;
    IterationGoes(c, st);
    ProgressGo(c, st, s);
    PayingGo(c, b0, st, s);
    PassedBefore(c, b0, st);
    PassedAfter(c, b0, st);
    WritesGo(c, st, s);
    ClearedNext(c, b0, st.step);
  }

  lemma ClearedNext(c: Config, b0: BudgetState, k: nat)
    requires Known(c.g) && k < |c.g.order| && Cleared(c, b0, k) && PreAllowed(c, b0, k) && PostAllowed(c, b0, k)
    ensures Cleared(c, b0, k + 1)
  {
  }

  lemma PassedBefore(c: Config, b0: BudgetState, st: State)
    requires Known(c.g) && Passing(c, b0, st) && st.step < |c.g.order| && RunNode(c, st).Go?
    ensures PreAllowed(c, b0, st.step)
  {
    if !PreAllowed(c, b0, st.step) { BlockedBefore(c, b0, st); }
  }

  lemma WritesGo(c: Config, st: State, s: State)
    requires Known(c.g) && st.step < |c.g.order| && Advanced(c, st, s) && st.writes == WritesBefore(c, st.step)
    ensures s.writes == WritesBefore(c, s.step)
  {
  }

  lemma PassedAfter(c: Config, b0: BudgetState, st: State)
    requires Known(c.g) && Passing(c, b0, st) && st.step < |c.g.order| && RunNode(c, st).Go?
    ensures PostAllowed(c, b0, st.step)
  {
    var id := c.g.order[st.step];
    AttemptAnswers(c, st);
    RunNodeSettles(c, st);
    var o := Attempted(c, st).0.value;
    SettlePermits(c, Attempted(c, st).1, id, c.g.nodes[id], o);
    PostAsked(c, b0, st, o);
  }

  // ---- whole runs

  /** The executions are those of positions the pre-step hook let through, every earlier position having passed
      both step hooks. */
  ghost predicate Admitted(c: Config, b0: BudgetState, ran: seq<Visit>)
    requires Known(c.g)
  {
    exists k: nat :: AdmittedTo(c, b0, ran, k)
  }

  ghost predicate AdmittedTo(c: Config, b0: BudgetState, ran: seq<Visit>, k: nat)
    requires Known(c.g)
  {
    k <= |c.g.order| && ran == Visits(c, k) && (k > 0 ==> Cleared(c, b0, k - 1) && PreAllowed(c, b0, k - 1))
  }

  ghost predicate PolicyFit(c: Config, b0: BudgetState, e: End)
    requires Known(c.g)
  {
    && Admitted(c, b0, e.st.ran)
    && (Completes(e) ==> Cleared(c, b0, |c.g.order|) && ArtifactAllowed(c, b0))
  }

  lemma AdmittedAt(c: Config, b0: BudgetState, k: nat)
    requires Known(c.g) && k <= |c.g.order| && (k > 0 ==> Cleared(c, b0, k - 1) && PreAllowed(c, b0, k - 1))
    ensures Admitted(c, b0, Visits(c, k))
  {
    assert AdmittedTo(c, b0, Visits(c, k), k);
  }

  lemma PolicyExit(c: Config, b0: BudgetState, st: State)
    requires Known(c.g) && Passing(c, b0, st) && st.step < |c.g.order| && RunNode(c, st).Halt?
    ensures PolicyFit(c, b0, RunNode(c, st).end)
  {
    AttemptAnswers(c, st);
    var x := IterationStops(c, st);
    ProgressExit(c, st, x);
    NotFinished(c, st, x);
    AdmittedUpTo(c, b0, st.step);
    if !PreAllowed(c, b0, st.step) {
      BlockedBefore(c, b0, st);
    }
  }

  lemma AdmittedUpTo(c: Config, b0: BudgetState, k: nat)
    requires Known(c.g) && k < |c.g.order| && Cleared(c, b0, k)
    ensures Admitted(c, b0, Visits(c, k))
    ensures PreAllowed(c, b0, k) ==> Admitted(c, b0, Visits(c, k + 1))
  {
    AdmittedAt(c, b0, k);
    if PreAllowed(c, b0, k) { AdmittedAt(c, b0, k + 1); }
  }

  lemma FinishPolicy(c: Config, b0: BudgetState, st: State)
    requires Known(c.g) && Passing(c, b0, st) && st.step == |c.g.order|
    ensures PolicyFit(c, b0, Finish(c, st))
  {
    AdmittedAt(c, b0, st.step);
    var n := |c.g.order|;
    assert Context(st, None, None) == PolicyContext(None, None, RemainingAfter(c, b0, n), WritesBefore(c, n));
    FinishedPassed(c, st);
  }

  lemma FinishedPassed(c: Config, st: State)
    ensures var e := Finish(c, st);
            && e.st.ran == st.ran
            && (Completes(e) ==>
                  Permits(c.w.policy(PreArtifact, st.step, Context(st, None, None))))
  {
  }

  lemma {:induction false} PolicyRun(c: Config, b0: BudgetState, st: State)
    requires Known(c.g) && Passing(c, b0, st)
    ensures PolicyFit(c, b0, RunFrom(c, st))
    decreases |c.g.order| - st.step
  {
    if st.step < |c.g.order| {
      match RunNode(c, st)
      case Go(s) =>
        PassingGo(c, b0, st);
        PolicyRun(c, b0, s);
      case Halt(e) =>
        PolicyExit(c, b0, st);
    } else {
      FinishPolicy(c, b0, st);
    }
  }

  /** Every run: a node executes only if the plan hook let the run start, both step hooks let every earlier node
      through and the pre-step hook let this one through; each hook was shown the budget left after the charges
      so far and the number of write-class nodes so far; and a run completes only past all four hooks. */
  lemma EveryRunPermitted(c: Config, b0: BudgetState, r0: RecorderState)
    requires c.g.Valid()
    ensures Known(c.g)
    ensures var e := Run(c, b0, r0);
            && PolicyFit(c, b0, e)
            && (e.st.ran != [] || Completes(e) ==> PlanAllowed(c, b0))
  {
    ValidKnown(c.g);
    AdmittedAt(c, b0, 0);
    RunStarts(c, b0, r0);
    OpenedPasses(c, b0, r0);
    PolicyRun(c, b0, Opened(c, b0, r0));
  }

  lemma OpenedPasses(c: Config, b0: BudgetState, r0: RecorderState)
    requires Known(c.g)
    ensures Opened(c, b0, r0).step == 0 && Passing(c, b0, Opened(c, b0, r0))
  {
    var o := Opened(c, b0, r0);
    assert Progress(c, o) && Paying(c, b0, o);
  }

  /** Either the plan hook let the run start, or nothing was executed. */
  lemma RunStarts(c: Config, b0: BudgetState, r0: RecorderState)
    ensures var e := Run(c, b0, r0);
            || (PlanAllowed(c, b0) && e == RunFrom(c, Opened(c, b0, r0)))
            || (e.st.ran == [] && !Completes(e))
  {
    assert Context(Start(b0, r0), None, None) == PolicyContext(None, None, Remaining(b0), 0);
  }

  /** The same for one node: a position that executed was let through by its pre-step hook, and every position
      before it passed both of its hooks. */
  lemma ExecutedWasPermitted(c: Config, b0: BudgetState, r0: RecorderState, i: nat)
    requires c.g.Valid() && i < |c.g.order| && c.g.order[i] in VisitIds(Run(c, b0, r0).st.ran)
    ensures Known(c.g)
    ensures PlanAllowed(c, b0) && Cleared(c, b0, i) && PreAllowed(c, b0, i)
  {
    EveryRunPermitted(c, b0, r0);
    AdmittedPosition(c, b0, Run(c, b0, r0).st.ran, i);
  }

  lemma AdmittedPosition(c: Config, b0: BudgetState, ran: seq<Visit>, i: nat)
    requires Known(c.g) && Distinct(c.g.order) && Admitted(c, b0, ran)
    requires i < |c.g.order| && c.g.order[i] in VisitIds(ran)
    ensures ran != [] && Cleared(c, b0, i) && PreAllowed(c, b0, i)
  {
    var k: nat :| AdmittedTo(c, b0, ran, k);
    VisitedPosition(c, ran, k, i);
    AdmittedBelow(c, b0, ran, k, i);
  }

  lemma AdmittedBelow(c: Config, b0: BudgetState, ran: seq<Visit>, k: nat, i: nat)
    requires Known(c.g) && AdmittedTo(c, b0, ran, k) && i < k
    ensures Cleared(c, b0, i) && PreAllowed(c, b0, i)
  {
    ClearedBelow(c, b0, k - 1, i);
  }

  lemma ClearedBelow(c: Config, b0: BudgetState, k: nat, i: nat)
    requires Known(c.g) && i <= k < |c.g.order| && Cleared(c, b0, k) && PreAllowed(c, b0, k)
    ensures Cleared(c, b0, i) && PreAllowed(c, b0, i)
  {
  }

  lemma VisitedPosition(c: Config, ran: seq<Visit>, k: nat, i: nat)
    requires Known(c.g) && Distinct(c.g.order) && k <= |c.g.order| && ran == Visits(c, k)
    requires i < |c.g.order| && c.g.order[i] in VisitIds(ran)
    ensures i < k && ran != []
  {
    var j :| 0 <= j < |ran| && ran[j].id == c.g.order[i];
    VisitsArePositions(c, k, j);
  }

  // ---- completion

  /** Everything position k needs in order to go through: both hooks, an answer, the budget and the store. */
  ghost predicate GoesThrough(c: Config, b0: BudgetState, k: nat)
    requires Known(c.g) && k < |c.g.order|
  {
    && PreAllowed(c, b0, k) && Answer(c, k).Ok? && Solvent(c, b0, k + 1) && PostAllowed(c, b0, k)
    && c.w.recordStored(c.g.order[k])
  }

  lemma WentThrough(c: Config, b0: BudgetState, r0: RecorderState, st: State)
    requires Known(c.g) && Passing(c, b0, st) && Keeping(c, r0, st) && st.step < |c.g.order| && RunNode(c, st).Go?
    ensures GoesThrough(c, b0, st.step)
    ensures var s := RunNode(c, st).st; s.step == st.step + 1 && Passing(c, b0, s) && Keeping(c, r0, s)
  {
    var s := RunNode(c, st).st;
    PassingGo(c, b0, st);
    IterationGoes(c, st);
    KeepingGo(c, r0, st, s);
    PassedBefore(c, b0, st);
    PassedAfter(c, b0, st);
    RecordWasStored(c, st, s);
  }

  lemma RecordWasStored(c: Config, st: State, s: State)
    requires Known(c.g) && Progress(c, st) && st.step < |c.g.order| && Advanced(c, st, s)
    ensures Answer(c, st.step).Ok? && c.w.recordStored(c.g.order[st.step])
  {
    AttemptAnswers(c, st);
  }

  lemma WillGoThrough(c: Config, b0: BudgetState, r0: RecorderState, st: State)
    requires Known(c.g) && Passing(c, b0, st) && Keeping(c, r0, st) && st.step < |c.g.order|
    requires GoesThrough(c, b0, st.step)
    ensures RunNode(c, st).Go?
  {
    var id, o := c.g.order[st.step], Answer(c, st.step).value;
    WillStart(c, b0, st);
    WillPay(c, b0, st);
    WillRecord(c, r0, st);
    SettleWillGo(c, Attempted(c, st).1, id, c.g.nodes[id], o);
  }

  lemma WillStart(c: Config, b0: BudgetState, st: State)
    requires Known(c.g) && Passing(c, b0, st) && st.step < |c.g.order|
    requires PreAllowed(c, b0, st.step) && Answer(c, st.step).Ok?
    ensures Attempted(c, st).0 == Answer(c, st.step) && Attempted(c, st).1.step == st.step + 1
    ensures RunNode(c, st) == Settled(c, st)
  {
    AttemptAnswers(c, st);
    PreAsked(c, b0, st);
    RunNodeSettles(c, st);
  }

  lemma WillPay(c: Config, b0: BudgetState, st: State)
    requires Known(c.g) && Passing(c, b0, st) && st.step < |c.g.order|
    requires Answer(c, st.step).Ok? && Solvent(c, b0, st.step + 1) && PostAllowed(c, b0, st.step)
    ensures var id, o := c.g.order[st.step], Answer(c, st.step).value;
            var p := Paid(c, Attempted(c, st).1, id, o);
            && Verdict(p.budget).None?
            && Permits(c.w.policy(PostStep, p.step, Context(p, Some(c.g.nodes[id].sideEffect), Some(o.data))))
  {
    var o := Answer(c, st.step).value;
    PostAsked(c, b0, st, o);
    ChargeAllExtend(b0, st.charges, ChargeFor(c, c.g.order[st.step], o));
  }

  lemma WillRecord(c: Config, r0: RecorderState, st: State)
    requires Known(c.g) && Progress(c, st) && Keeping(c, r0, st) && st.step < |c.g.order|
    requires Answer(c, st.step).Ok? && c.w.recordStored(c.g.order[st.step])
    ensures var id, o := c.g.order[st.step], Answer(c, st.step).value;
            var p := Paid(c, Attempted(c, st).1, id, o);
            Step(p.recorder, RecordCall(c, p, id, o)).1.None?
  {
    RecordCallExpected(c, st);
    RecordHolds(c, st.recorder, st.step, true);
  }

  lemma SettleWillGo(c: Config, a: State, id: NodeId, node: Node, o: NodeOutput)
    requires a.step >= 1
    requires var p := Paid(c, a, id, o);
             && Verdict(p.budget).None?
             && Permits(c.w.policy(PostStep, p.step, Context(p, Some(node.sideEffect), Some(o.data))))
             && Step(p.recorder, Record(TraceEntry(c, p.step, id, node, o), c.w.recordStored(id))).1.None?
    ensures Settle(c, a, id, node, o).Go?
  {
  }

  lemma FinishCompletes(c: Config, b0: BudgetState, r0: RecorderState, st: State)
    requires Known(c.g) && Passing(c, b0, st) && Keeping(c, r0, st) && st.step == |c.g.order|
    ensures Completes(Finish(c, st)) <==> ArtifactAllowed(c, b0) && c.w.closeStored
  {
    var n := |c.g.order|;
    assert Context(st, None, None) == PolicyContext(None, None, RemainingAfter(c, b0, n), WritesBefore(c, n));
    CloseHolds(c, st.recorder, st.step, Completed);
  }

  lemma {:induction false} CompletesFrom(c: Config, b0: BudgetState, r0: RecorderState, st: State)
    requires Known(c.g) && Passing(c, b0, st) && Keeping(c, r0, st)
    ensures Completes(RunFrom(c, st)) <==>
            AllGoThrough(c, b0, st.step) && ArtifactAllowed(c, b0) && c.w.closeStored
    decreases |c.g.order| - st.step
  {
    if st.step == |c.g.order| {
      FinishCompletes(c, b0, r0, st);
    } else if RunNode(c, st).Go? {
      WentThrough(c, b0, r0, st);
      CompletesFrom(c, b0, r0, RunNode(c, st).st);
      OneMoreGoes(c, b0, st.step);
    } else {
      HaltIncomplete(c, b0, r0, st);
    }
  }

  ghost predicate AllGoThrough(c: Config, b0: BudgetState, k: nat)
    requires Known(c.g)
  {
    forall i :: k <= i < |c.g.order| ==> GoesThrough(c, b0, i)
  }

  lemma OneMoreGoes(c: Config, b0: BudgetState, k: nat)
    requires Known(c.g) && k < |c.g.order|
    ensures AllGoThrough(c, b0, k) <==> GoesThrough(c, b0, k) && AllGoThrough(c, b0, k + 1)
  {
  }

  lemma HaltIncomplete(c: Config, b0: BudgetState, r0: RecorderState, st: State)
    requires Known(c.g) && Passing(c, b0, st) && Keeping(c, r0, st) && st.step < |c.g.order| && RunNode(c, st).Halt?
    ensures !Completes(RunFrom(c, st)) && !AllGoThrough(c, b0, st.step)
  {
    OneMoreGoes(c, b0, st.step);
    if GoesThrough(c, b0, st.step) { WillGoThrough(c, b0, r0, st); }
    var x := IterationStops(c, st);
    NotFinished(c, st, x);
  }

  /** A run completes exactly when the requester is not revoked, the store takes the opening and closing documents,
      the plan and artifact hooks permit, and every position answers, passes both step hooks, leaves the budget
      solvent and has its step accepted by the store. */
  lemma CompletesExactly(c: Config, b0: BudgetState, r0: RecorderState)
    requires c.g.Valid()
    ensures Known(c.g)
    ensures Completes(Run(c, b0, r0)) <==>
            && !IsRevoked(c) && c.w.openStored && PlanAllowed(c, b0)
            && AllGoThrough(c, b0, 0) && ArtifactAllowed(c, b0) && c.w.closeStored
  {
    ValidKnown(c.g);
    RunStartsExactly(c, b0, r0);
    if !IsRevoked(c) && c.w.openStored && PlanAllowed(c, b0) {
      OpenedPasses(c, b0, r0);
      OpenedKeeps(c, b0, r0);
      CompletesFrom(c, b0, r0, Opened(c, b0, r0));
    }
  }

  lemma RunStartsExactly(c: Config, b0: BudgetState, r0: RecorderState)
    ensures var e := Run(c, b0, r0);
            if !IsRevoked(c) && c.w.openStored && PlanAllowed(c, b0) then e == RunFrom(c, Opened(c, b0, r0))
            else !Completes(e)
  {
    assert Context(Start(b0, r0), None, None) == PolicyContext(None, None, Remaining(b0), 0);
  }
}
