/** Trace keeping and budget accounting over whole runs. */
module ExecutorBooks {
  import opened Budget
  import opened Compensation
  import opened Contracts
  import opened Digraph
  import opened Executor
  import opened ExecutorTheorems
  import opened ExecutorUndo
  import opened Ordering
  import opened RuntimeTypes
  import opened Trace

  // ---- the trace

  function OpenCall(c: Config): Action {
    Action.Open(c.intent.traceId, c.intent.intentId, c.w.openedAt, c.w.openStored)
  }

  function CloseCall(c: Config, status: TraceStatus): Action {
    Action.Close(c.intent.traceId, status, c.w.closedAt, c.w.closeStored)
  }

  /** What the trace should say about position k: number, node, tokens, cost and model of its answer. */
  ghost function ExpectedEntry(c: Config, k: nat): TraceStep
    requires Known(c.g) && k < |c.g.order| && Answer(c, k).Ok?
  {
    TraceEntry(c, k + 1, c.g.order[k], c.g.nodes[c.g.order[k]], Answer(c, k).value)
  }

  ghost function ExpectedSteps(c: Config, m: nat): seq<TraceStep>
    requires Known(c.g) && m <= |c.g.order| && AllAnswered(c, m)
  {
    if m == 0 then [] else ExpectedSteps(c, m - 1) + [ExpectedEntry(c, m - 1)]
  }

  ghost predicate IsRecordOf(c: Config, a: Action, k: nat)
    requires Known(c.g)
  {
    k < |c.g.order| && Answer(c, k).Ok? && a == Record(ExpectedEntry(c, k), c.w.recordStored(c.g.order[k]))
  }

  /** The calls open the trace and then record the answers of the first m nodes of the order. */
  ghost predicate Recorded(c: Config, calls: seq<Action>, m: nat)
    requires Known(c.g)
  {
    && m <= |c.g.order| && |calls| >= m + 1 && calls[0] == OpenCall(c)
    && forall i :: 1 <= i <= m ==> IsRecordOf(c, calls[i], i - 1)
  }

  ghost predicate AllStored(calls: seq<Action>) {
    forall i :: 0 <= i < |calls| ==> calls[i].stored
  }

  ghost predicate StoredBeforeLast(calls: seq<Action>) {
    forall i :: 0 <= i < |calls| - 1 ==> calls[i].stored
  }

  /** The open document lists exactly the first m answers, and its total is the sum of the steps. */
  ghost predicate Documented(c: Config, r: RecorderState, m: nat)
    requires Known(c.g)
  {
    var id := c.intent.traceId;
    && m <= |c.g.order| && AllAnswered(c, m)
    && id in r.open && r.open[id].traceId == id && r.open[id].Balanced() && r.open[id].steps == ExpectedSteps(c, m)
  }

  /** And the store holds the same document. */
  ghost predicate TraceHolds(c: Config, r: RecorderState, m: nat)
    requires Known(c.g)
  {
    Documented(c, r, m) && c.intent.traceId in r.store && r.store[c.intent.traceId] == r.open[c.intent.traceId]
  }

  ghost predicate Keeping(c: Config, r0: RecorderState, st: State)
    requires Known(c.g)
  {
    && st.step <= |c.g.order|
    && |st.calls| == st.step + 1 && Recorded(c, st.calls, st.step) && AllStored(st.calls)
    && st.recorder == RunActions(r0, st.calls)
    && TraceHolds(c, st.recorder, st.step)
    && st.recorder.open[c.intent.traceId].status == Running
  }

  lemma RunActionsExtend(r0: RecorderState, calls: seq<Action>, a: Action)
    ensures RunActions(r0, calls + [a]) == Step(RunActions(r0, calls), a).0
  {
    assert (calls + [a])[..|calls|] == calls;
  }

  /** Recording the next answer: the open document grows even when the store refuses the snapshot. */
  lemma RecordHolds(c: Config, r: RecorderState, m: nat, stored: bool)
    requires Known(c.g) && m < |c.g.order| && Answer(c, m).Ok?
    requires TraceHolds(c, r, m) && r.open[c.intent.traceId].status == Running
    ensures var (s, err) := Step(r, Record(ExpectedEntry(c, m), stored));
            && err == StorageResult(stored) && Documented(c, s, m + 1)
            && s.open[c.intent.traceId].status == Running && (stored ==> TraceHolds(c, s, m + 1))
            && (!stored ==> s.store == r.store)
  {
    DocumentGrows(c, r.open[c.intent.traceId], m);
  }

  lemma DocumentGrows(c: Config, t: ExecutionTrace, m: nat)
    requires Known(c.g) && m < |c.g.order| && AllAnswered(c, m) && Answer(c, m).Ok?
    requires t.Balanced() && t.steps == ExpectedSteps(c, m)
    ensures AllAnswered(c, m + 1)
    ensures var u := t.Record(ExpectedEntry(c, m)); u.Balanced() && u.steps == ExpectedSteps(c, m + 1)
  {
    RecordBalanced(t, ExpectedEntry(c, m));
  }

  lemma CloseHolds(c: Config, r: RecorderState, m: nat, status: TraceStatus)
    requires Known(c.g) && TraceHolds(c, r, m)
    ensures var (s, err) := Step(r, CloseCall(c, status));
            && err == StorageResult(c.w.closeStored) && Documented(c, s, m)
            && s.open[c.intent.traceId].status == status && (c.w.closeStored ==> TraceHolds(c, s, m))
            && (!c.w.closeStored ==> s.store == r.store)
  {
  }

  lemma RecordedExtend(c: Config, calls: seq<Action>, m: nat, a: Action)
    requires Known(c.g) && Recorded(c, calls, m) && |calls| == m + 1 && IsRecordOf(c, a, m)
    ensures Recorded(c, calls + [a], m + 1)
  {
    assert forall i :: 0 <= i <= m ==> (calls + [a])[i] == calls[i];
  }

  lemma StoredExtend(calls: seq<Action>, a: Action)
    requires AllStored(calls)
    ensures StoredBeforeLast(calls + [a]) && (a.stored ==> AllStored(calls + [a]))
  {
    assert forall i :: 0 <= i < |calls| ==> (calls + [a])[i] == calls[i];
  }

  lemma RecordedThen(c: Config, calls: seq<Action>, m: nat, a: Action)
    requires Known(c.g) && Recorded(c, calls, m)
    ensures Recorded(c, calls + [a], m)
  {
    assert forall i :: 0 <= i <= m ==> (calls + [a])[i] == calls[i];
  }

  /** The record call of the iteration from `st`, once its charge was accepted. */
  lemma RecordCallExpected(c: Config, st: State)
    requires Known(c.g) && Progress(c, st) && st.step < |c.g.order| && Answer(c, st.step).Ok?
    ensures c.g.order[st.step] in c.g.nodes
    ensures var id, o := c.g.order[st.step], Answer(c, st.step).value;
            var p := Paid(c, Attempted(c, st).1, id, o);
            && RecordCall(c, p, id, o) == Record(ExpectedEntry(c, st.step), c.w.recordStored(id))
            && p.recorder == st.recorder && p.calls == st.calls
  {
    AttemptAnswers(c, st);
  }

  lemma KeepingGo(c: Config, r0: RecorderState, st: State, s: State)
    requires Known(c.g) && Progress(c, st) && Keeping(c, r0, st) && st.step < |c.g.order| && Advanced(c, st, s)
    ensures Keeping(c, r0, s)
  {
    AttemptAnswers(c, st);
    RecordCallExpected(c, st);
    var stored := c.w.recordStored(c.g.order[st.step]);
    RecordHolds(c, st.recorder, st.step, stored);
    KeepingRecord(c, r0, st, s);
  }

  lemma KeepingRecord(c: Config, r0: RecorderState, st: State, s: State)
    requires Known(c.g) && Keeping(c, r0, st) && st.step < |c.g.order| && Answer(c, st.step).Ok?
    requires c.w.recordStored(c.g.order[st.step])
    requires s.step == st.step + 1 && s.calls == st.calls + [Record(ExpectedEntry(c, st.step), true)]
    requires Step(st.recorder, Record(ExpectedEntry(c, st.step), true)) == (s.recorder, None)
    ensures Keeping(c, r0, s)
  {
    RunActionsExtend(r0, st.calls, Record(ExpectedEntry(c, st.step), true));
    RecordHolds(c, st.recorder, st.step, true);
    RecordedExtend(c, st.calls, st.step, Record(ExpectedEntry(c, st.step), true));
    StoredExtend(st.calls, Record(ExpectedEntry(c, st.step), true));
  }

  function StatusOf(r: RunResult): TraceStatus {
    match r
    case Ok(Finished(_, _)) => Completed
    case Ok(BudgetPartial(_, _, _)) => Partial
    case Ok(PendingApproval(_, _, _)) => Partial
    case Ok(RolledBack(_, _, _)) => Failed
    case Err(_) => Failed
  }

  /** How many steps the trace holds, given the outcome. */
  ghost predicate StepsFit(r: RunResult, m: nat) {
    match r
    case Ok(Finished(_, k)) => m == k
    case Ok(BudgetPartial(_, k, _)) => m == k
    case Ok(PendingApproval(_, k, _)) => m == k || m + 1 == k
    case Ok(RolledBack(k, _, _)) => m + 1 == k
    case Err(_) => true
  }

  /** The trace was closed once, as the last recorder call, with the status of the outcome. */
  ghost predicate ClosedWith(c: Config, e: End, m: nat)
    requires Known(c.g)
  {
    && |e.st.calls| == m + 2 && e.st.calls[m + 1] == CloseCall(c, StatusOf(e.result))
    && TraceHolds(c, e.st.recorder, m)
    && e.st.recorder.open[c.intent.traceId].status == StatusOf(e.result)
    && StepsFit(e.result, m)
  }

  /** The trace was left running, with the steps before the failed one. */
  ghost predicate LeftOpen(c: Config, e: End, m: nat)
    requires Known(c.g)
  {
    && |e.st.calls| == m + 1 && m + 1 == e.st.step
    && TraceHolds(c, e.st.recorder, m)
    && e.st.recorder.open[c.intent.traceId].status == Running
  }

  /** The run ended in a rollback that itself failed. */
  ghost predicate CompensatorFailed(c: Config, st: State)
    requires Known(c.g)
  {
    NodeFailed(c, st) && Unwinding(c, st.step - 1).failure.Some?
  }

  /** The result of a run whose store refused a document. */
  function StoreRefused(c: Config): RunResult {
    Err(NodeFailure(c.w.describeRecorder(Storage)))
  }

  /** The store's document is still running and lists the first k answers. */
  ghost predicate StoreLags(c: Config, r: RecorderState, k: nat)
    requires Known(c.g)
  {
    var id := c.intent.traceId;
    && k <= |c.g.order| && AllAnswered(c, k)
    && id in r.store && r.store[id].status == Running && r.store[id].steps == ExpectedSteps(c, k)
  }

  /** The last document was refused. A refused record leaves the trace running, with the step in the open document
      and the store one step behind; a refused close ends the open document only. */
  ghost predicate RefusedLast(c: Config, e: End, m: nat)
    requires Known(c.g) && Documented(c, e.st.recorder, m) && |e.st.calls| >= 1
  {
    var last := e.st.calls[|e.st.calls| - 1];
    var status := e.st.recorder.open[c.intent.traceId].status;
    && e.result == StoreRefused(c)
    && if last.Record? then |e.st.calls| == m + 1 && m >= 1 && status == Running && StoreLags(c, e.st.recorder, m - 1)
       else |e.st.calls| == m + 2 && last.Close? && status == last.status != Running && StoreLags(c, e.st.recorder, m)
  }

  /** The books at the end of a run, m steps having been recorded: one open call, the records of the first m answers
      and at most one close call, which comes last; only the last document can have been refused, and then the run
      reports that and the store keeps the document before; a failed compensator leaves the trace running; otherwise
      it was closed with the status of the outcome. */
  ghost predicate BooksFit(c: Config, r0: RecorderState, e: End, m: nat)
    requires Known(c.g)
  {
    var calls := e.st.calls;
    && e.st.recorder == RunActions(r0, calls)
    && Recorded(c, calls, m) && StoredBeforeLast(calls) && Documented(c, e.st.recorder, m)
    && (|calls| == m + 1 || (|calls| == m + 2 && exists status :: calls[m + 1] == CloseCall(c, status)))
    && if CompensatorFailed(c, e.st) then AllStored(calls) && LeftOpen(c, e, m)
       else if calls[|calls| - 1].stored then ClosedWith(c, e, m)
       else RefusedLast(c, e, m)
  }

  /** Closing from a state that keeps its books. */
  lemma CloseBooks(c: Config, r0: RecorderState, st: State, base: State, status: TraceStatus, r: RunResult)
    requires Known(c.g) && Keeping(c, r0, st)
    requires base.recorder == st.recorder && base.calls == st.calls
    requires status == StatusOf(r) && StepsFit(r, st.step)
    requires !CompensatorFailed(c, CloseWith(c, base, status, r).st)
    ensures BooksFit(c, r0, CloseWith(c, base, status, r), st.step)
  {
    var e := CloseWith(c, base, status, r);
    var call := CloseCall(c, status);
    CloseHolds(c, st.recorder, st.step, status);
    RunActionsExtend(r0, st.calls, call);
    RecordedThen(c, st.calls, st.step, call);
    StoredExtend(st.calls, call);
    assert e.st.calls == st.calls + [call] && e.st.calls[st.step + 1] == call;
  }

  /** No exit but a failed record touches the books before closing. */
  lemma ExitBooks(c: Config, st: State, x: Exit)
    requires st.step < |c.g.order| && c.g.order[st.step] in c.g.nodes && StopsAt(c, st, x)
    requires x.place != RecordFailed
    ensures x.base.recorder == st.recorder && x.base.calls == st.calls
    ensures x.Closing? ==> x.status == StatusOf(x.intended) && StepsFit(x.intended, st.step)
    ensures x.Abandoning? ==> x.place == NodeError
  {
  }

  /** A refused record: the step is in the open document, the store is one step behind. */
  lemma RefusedBooks(c: Config, r0: RecorderState, st: State, x: Exit)
    requires Known(c.g) && Progress(c, st) && Keeping(c, r0, st) && st.step < |c.g.order|
    requires c.g.order[st.step] in c.g.nodes && StopsAt(c, st, x) && x.place == RecordFailed
    ensures BooksFit(c, r0, x.Leave(c), st.step + 1)
  {
    AttemptAnswers(c, st);
    RecordCallExpected(c, st);
    NotNodeFailed(c, st, x);
    var stored := c.w.recordStored(c.g.order[st.step]);
    RecordHolds(c, st.recorder, st.step, stored);
    KeepingRefused(c, r0, st, x.base, x.error);
  }

  lemma KeepingRefused(c: Config, r0: RecorderState, st: State, s: State, error: RuntimeError)
    requires Known(c.g) && Keeping(c, r0, st) && st.step < |c.g.order| && Answer(c, st.step).Ok?
    requires !c.w.recordStored(c.g.order[st.step])
    requires s.calls == st.calls + [Record(ExpectedEntry(c, st.step), false)]
    requires s.recorder == Step(st.recorder, Record(ExpectedEntry(c, st.step), false)).0
    requires Err(error) == StoreRefused(c) && !NodeFailed(c, s)
    ensures BooksFit(c, r0, End(Err(error), s), st.step + 1)
  {
    var call := Record(ExpectedEntry(c, st.step), false);
    RunActionsExtend(r0, st.calls, call);
    RecordHolds(c, st.recorder, st.step, false);
    RecordedExtend(c, st.calls, st.step, call);
    StoredExtend(st.calls, call);
  }

  lemma FailureBooks(c: Config, r0: RecorderState, st: State, x: Exit)
    requires Known(c.g) && Progress(c, st) && Queued(c, st) && Keeping(c, r0, st) && st.step < |c.g.order|
    requires c.g.order[st.step] in c.g.nodes && StopsAt(c, st, x) && x.place == NodeError
    ensures BooksFit(c, r0, x.Leave(c), st.step)
  {
    FailureFailed(c, st, x);
    FailureCloses(c, st, x);
    ExitBooks(c, st, x);
    if x.Abandoning? { AbandonedBooks(c, r0, st, x); } else { ClosingBooks(c, r0, st, x); }
  }

  lemma FailureFailed(c: Config, st: State, x: Exit)
    requires Known(c.g) && Progress(c, st) && Queued(c, st) && st.step < |c.g.order|
    requires c.g.order[st.step] in c.g.nodes && StopsAt(c, st, x) && x.place == NodeError
    ensures NodeFailed(c, x.Leave(c).st)
  {
    UndoFailure(c, st, x);
  }

  /** A node failure closes the trace exactly when the rollback went through. */
  lemma FailureCloses(c: Config, st: State, x: Exit)
    requires Known(c.g) && Progress(c, st) && Queued(c, st) && st.step < |c.g.order|
    requires c.g.order[st.step] in c.g.nodes && StopsAt(c, st, x) && x.place == NodeError
    ensures x.Leave(c).st.step == st.step + 1
    ensures x.Closing? <==> Unwinding(c, st.step).failure.None?
  {
    FailedAttempt(c, st);
    var (produced, a) := Attempted(c, st);
    FailureUnwinds(c, a, produced.error, x);
    LeaveKeeps(c, x);
  }

  lemma AbandonedBooks(c: Config, r0: RecorderState, st: State, x: Exit)
    requires Known(c.g) && Keeping(c, r0, st) && x.Abandoning?
    requires x.base.recorder == st.recorder && x.base.calls == st.calls && x.base.step == st.step + 1
    requires CompensatorFailed(c, x.base)
    ensures BooksFit(c, r0, x.Leave(c), st.step)
  {
  }

  lemma BooksExit(c: Config, r0: RecorderState, st: State, x: Exit)
    requires Known(c.g) && Progress(c, st) && Queued(c, st) && Keeping(c, r0, st)
    requires st.step < |c.g.order| && c.g.order[st.step] in c.g.nodes && StopsAt(c, st, x)
    ensures BooksFit(c, r0, x.Leave(c), if x.place == RecordFailed then st.step + 1 else st.step)
  {
    if x.place == RecordFailed {
      RefusedBooks(c, r0, st, x);
    } else if x.place == NodeError {
      FailureBooks(c, r0, st, x);
    } else {
      GatedBooks(c, r0, st, x);
    }
  }

  /** The exits at a hook or at the budget. */
  lemma GatedBooks(c: Config, r0: RecorderState, st: State, x: Exit)
    requires Known(c.g) && Progress(c, st) && Keeping(c, r0, st) && st.step < |c.g.order|
    requires c.g.order[st.step] in c.g.nodes && StopsAt(c, st, x) && x.place != NodeError && x.place != RecordFailed
    ensures BooksFit(c, r0, x.Leave(c), st.step)
  {
    NotNodeFailed(c, st, x);
    ExitBooks(c, st, x);
    ClosingBooks(c, r0, st, x);
  }

  lemma ClosingBooks(c: Config, r0: RecorderState, st: State, x: Exit)
    requires Known(c.g) && Keeping(c, r0, st) && x.Closing? && !CompensatorFailed(c, x.Leave(c).st)
    requires x.base.recorder == st.recorder && x.base.calls == st.calls
    requires x.status == StatusOf(x.intended) && StepsFit(x.intended, st.step)
    ensures BooksFit(c, r0, x.Leave(c), st.step)
  {
    CloseBooks(c, r0, st, x.base, x.status, x.intended);
  }

  lemma {:induction false} BooksRun(c: Config, r0: RecorderState, st: State) returns (m: nat)
    requires Known(c.g) && Progress(c, st) && Queued(c, st) && Keeping(c, r0, st)
    ensures BooksFit(c, r0, RunFrom(c, st), m)
    decreases |c.g.order| - st.step
  {
    if st.step < |c.g.order| {
      StepCounts(c, st);
      match RunNode(c, st)
      case Go(s) =>
        IterationGoes(c, st);
        ProgressGo(c, st, s);
        QueuedGo(c, st, s);
        KeepingGo(c, r0, st, s);
        m := BooksRun(c, r0, s);
      case Halt(e) =>
        var x := IterationStops(c, st);
        BooksExit(c, r0, st, x);
        m := if x.place == RecordFailed then st.step + 1 else st.step;
    } else {
      m := st.step;
      FinishBooks(c, r0, st);
    }
  }

  lemma FinishBooks(c: Config, r0: RecorderState, st: State)
    requires Known(c.g) && Progress(c, st) && Keeping(c, r0, st) && st.step == |c.g.order|
    ensures BooksFit(c, r0, Finish(c, st), st.step)
  {
    var d := c.w.policy(PreArtifact, st.step, Context(st, None, None));
    GateBooks(c, r0, st, d);
    BetweenBooks(c, r0, st, Ok(Finished(st.outputs, st.step)));
  }

  /** Closing between two iterations. */
  lemma BetweenBooks(c: Config, r0: RecorderState, st: State, r: RunResult)
    requires Known(c.g) && Progress(c, st) && Keeping(c, r0, st) && StepsFit(r, st.step)
    ensures BooksFit(c, r0, CloseWith(c, st, StatusOf(r), r), st.step)
  {
    NoFailureYet(c, st, CloseWith(c, st, StatusOf(r), r).st);
    CloseBooks(c, r0, st, st, StatusOf(r), r);
  }

  lemma NoFailureYet(c: Config, st: State, end: State)
    requires Known(c.g) && Progress(c, st) && end.step == st.step
    ensures !NodeFailed(c, end)
  {
    assert st.step > 0 ==> Answer(c, st.step - 1).Ok?;
  }

  /** What a denial or an approval gate answers. */
  function GateAnswer(st: State, d: PolicyDecision): RunResult {
    if d.Deny? then Err(PolicyDenied(d.violations)) else Ok(PendingApproval(st.outputs, st.step, d))
  }

  lemma GateBooks(c: Config, r0: RecorderState, st: State, d: PolicyDecision)
    requires Known(c.g) && Progress(c, st) && Keeping(c, r0, st)
    ensures Gate(c, st, d).Some? ==> BooksFit(c, r0, Gate(c, st, d).value, st.step)
  {
    if Gate(c, st, d).Some? {
      var r := GateAnswer(st, d);
      assert Gate(c, st, d).value == CloseWith(c, st, StatusOf(r), r);
      BetweenBooks(c, r0, st, r);
    }
  }

  lemma OpenedKeeps(c: Config, budget: BudgetState, r0: RecorderState)
    requires Known(c.g) && c.w.openStored
    ensures Keeping(c, r0, Opened(c, budget, r0))
  {
    var o := Opened(c, budget, r0);
    RunActionsExtend(r0, [], OpenCall(c));
    assert [] + [OpenCall(c)] == [OpenCall(c)];
  }

  /** Every run, whatever the store does. A store that refuses the opening document ends the run at once and changes
      nothing; otherwise the books are as described above. */
  lemma EveryRunBooks(c: Config, budget: BudgetState, r0: RecorderState) returns (m: nat)
    requires c.g.Valid() && !IsRevoked(c)
    ensures Known(c.g)
    ensures var e := Run(c, budget, r0);
            if c.w.openStored then BooksFit(c, r0, e, m)
            else e.st.calls == [OpenCall(c)] && e.st.recorder == r0 && e.st.ran == [] && e.result == StoreRefused(c)
  {
    ValidKnown(c.g);
    m := 0;
    if c.w.openStored {
      var o := Opened(c, budget, r0);
      OpenedKeeps(c, budget, r0);
      assert Progress(c, o);
      assert c.g.order[..0] == [] && StepIds([]) == [];
      assert Queued(c, o);
      GateBooks(c, r0, o, c.w.policy(PrePlan, 0, Context(Start(budget, r0), None, None)));
      if Run(c, budget, r0) == RunFrom(c, o) {
        m := BooksRun(c, r0, o);
      }
    }
  }

  /** Every run that got its trace opened leaves it running exactly when a compensator failed or a record was
      refused. */
  lemma LeftRunningExactly(c: Config, budget: BudgetState, r0: RecorderState)
    requires c.g.Valid() && !IsRevoked(c) && c.w.openStored
    ensures Known(c.g)
    ensures var e := Run(c, budget, r0);
            && e.st.calls != [] && c.intent.traceId in e.st.recorder.open
            && (e.st.recorder.open[c.intent.traceId].status == Running <==>
                  || CompensatorFailed(c, e.st)
                  || (var last := e.st.calls[|e.st.calls| - 1]; last.Record? && !last.stored))
  {
    var m := EveryRunBooks(c, budget, r0);
    BooksDecideStatus(c, r0, Run(c, budget, r0), m);
  }

  lemma BooksDecideStatus(c: Config, r0: RecorderState, e: End, m: nat)
    requires Known(c.g) && BooksFit(c, r0, e, m)
    ensures e.st.recorder.open[c.intent.traceId].status == Running <==>
            || CompensatorFailed(c, e.st)
            || (var last := e.st.calls[|e.st.calls| - 1]; last.Record? && !last.stored)
  {
  }

  /** Every run whose documents were all accepted: the trace lists exactly the answers of a prefix of the order, its
      total is their sum, store and open document agree, and it is left running exactly when a compensator failed;
      otherwise it was closed exactly once, last, with the status of the outcome. */
  lemma EveryRunTrace(c: Config, budget: BudgetState, r0: RecorderState) returns (m: nat)
    requires c.g.Valid() && !IsRevoked(c) && AllStored(Run(c, budget, r0).st.calls)
    ensures Known(c.g)
    ensures var e := Run(c, budget, r0);
            && Recorded(c, e.st.calls, m) && TraceHolds(c, e.st.recorder, m)
            && if CompensatorFailed(c, e.st) then LeftOpen(c, e, m) else ClosedWith(c, e, m)
  {
    m := EveryRunBooks(c, budget, r0);
    var e := Run(c, budget, r0);
    assert e.st.calls[0] == OpenCall(c);
  }

  /** What such a run reports after a node failed is exact: the failing compensator, or the cause when nothing was
      queued, or the rolled-back steps. */
  lemma FailedRunReport(c: Config, budget: BudgetState, r0: RecorderState)
    requires c.g.Valid() && !IsRevoked(c) && AllStored(Run(c, budget, r0).st.calls)
    requires Known(c.g) && NodeFailed(c, Run(c, budget, r0).st)
    ensures var e := Run(c, budget, r0);
            var k := e.st.step;
            var stack := Undoable(c.g, c.g.order[..k - 1]);
            var u := Unwinding(c, k - 1);
            var cause := Answer(c, k - 1).error;
            && e.st.undone == u.ran
            && if u.failure.Some? then
                 u.ran != [] && e.result == Err(CompensationFailed(u.ran[|u.ran| - 1], c.w.describe(u.failure.value)))
               else if stack == [] then e.result == Err(cause)
               else e.result == Ok(RolledBack(k, c.w.describe(cause), StepIds(stack)))
  {
    EveryRunUndo(c, budget, r0);
    CloseAccepted(c, budget, r0);
  }

  lemma CloseAccepted(c: Config, budget: BudgetState, r0: RecorderState)
    requires c.g.Valid() && !IsRevoked(c) && AllStored(Run(c, budget, r0).st.calls) && Known(c.g)
    ensures c.intent.traceId in Run(c, budget, r0).st.recorder.open
    ensures !CompensatorFailed(c, Run(c, budget, r0).st) ==> c.w.closeStored
  {
    var m := EveryRunTrace(c, budget, r0);
    var e := Run(c, budget, r0);
    if !CompensatorFailed(c, e.st) {
      assert e.st.calls[m + 1] == CloseCall(c, StatusOf(e.result));
    }
  }

  /** A revoked requester leaves no recorder call behind. */
  lemma RevokedLeavesNoTrace(c: Config, budget: BudgetState, r0: RecorderState)
    ensures Run(c, budget, r0).st.calls == [] <==> IsRevoked(c)
    ensures IsRevoked(c) ==> Run(c, budget, r0).st.recorder == r0 && Run(c, budget, r0).st.ran == []
  {
    if !IsRevoked(c) {
      CallsGrow(c, Opened(c, budget, r0));
    }
  }

  lemma {:induction false} CallsGrow(c: Config, st: State)
    requires st.calls != [] && st.step <= |c.g.order|
    ensures RunFrom(c, st).st.calls != []
    decreases |c.g.order| - st.step
  {
    if st.step < |c.g.order| && RunNode(c, st).Go? {
      StepCounts(c, st);
      IterationGoes(c, st);
      CallsGrow(c, RunNode(c, st).st);
    }
  }

  // ---- the budget

  /** The charges of the first k nodes of the order. */
  ghost function ExpectedCharges(c: Config, k: nat): seq<Charge>
    requires Known(c.g) && k <= |c.g.order|
  {
    if k == 0 then []
    else
      var a := Answer(c, k - 1);
      ExpectedCharges(c, k - 1) + if a.Ok? then [ChargeFor(c, c.g.order[k - 1], a.value)] else []
  }

  ghost predicate Solvent(c: Config, b0: BudgetState, k: nat)
    requires Known(c.g) && k <= |c.g.order|
  {
    k == 0 || Verdict(ChargeAll(b0, ExpectedCharges(c, k))).None?
  }

  ghost predicate Paying(c: Config, b0: BudgetState, st: State)
    requires Known(c.g)
  {
    && st.step <= |c.g.order|
    && st.charges == ExpectedCharges(c, st.step)
    && st.budget == ChargeAll(b0, st.charges)
    && Solvent(c, b0, st.step)
  }

  lemma ChargeAllExtend(b: BudgetState, cs: seq<Charge>, x: Charge)
    ensures ChargeAll(b, cs + [x]) == After(ChargeAll(b, cs), x)
  {
    assert (cs + [x])[..|cs|] == cs;
  }

  lemma PayingGo(c: Config, b0: BudgetState, st: State, s: State)
    requires Known(c.g) && Progress(c, st) && Paying(c, b0, st) && st.step < |c.g.order| && Advanced(c, st, s)
    ensures Paying(c, b0, s)
  {
    AttemptAnswers(c, st);
    ChargeAllExtend(b0, st.charges, ChargeFor(c, c.g.order[st.step], Answer(c, st.step).value));
  }

  /** The outputs of an outcome are those of a prefix that was paid for. */
  ghost predicate PaidFor(c: Config, b0: BudgetState, r: RunResult)
    requires Known(c.g)
  {
    r.Ok? && !r.value.RolledBack? ==>
      exists k :: 0 <= k <= |c.g.order| && AllAnswered(c, k) && r.value.outputs == Expected(c, k) && Solvent(c, b0, k)
  }

  lemma PaidPrefix(c: Config, b0: BudgetState, r: RunResult, k: nat)
    requires Known(c.g) && k <= |c.g.order| && AllAnswered(c, k) && Solvent(c, b0, k)
    requires r.Ok? && !r.value.RolledBack? ==> r.value.outputs == Expected(c, k)
    ensures PaidFor(c, b0, r)
  {
  }

  lemma PaidExit(c: Config, b0: BudgetState, st: State, x: Exit)
    requires Known(c.g) && Progress(c, st) && Paying(c, b0, st) && st.step < |c.g.order| && StopsAt(c, st, x)
    ensures x.Closing? ==> PaidFor(c, b0, x.intended)
  {
    if x.Closing? {
      if x.place == PostGate {
        PostGatePaid(c, b0, st, x);
      } else {
        EarlyExitOutputs(c, st, x);
        PaidPrefix(c, b0, x.intended, st.step);
      }
    }
  }

  lemma EarlyExitOutputs(c: Config, st: State, x: Exit)
    requires st.step < |c.g.order| && c.g.order[st.step] in c.g.nodes && StopsAt(c, st, x)
    requires x.Closing? && x.place != PostGate
    ensures x.intended.Ok? && !x.intended.value.RolledBack? ==> x.intended.value.outputs == st.outputs
  {
  }

  lemma PostGatePaid(c: Config, b0: BudgetState, st: State, x: Exit)
    requires Known(c.g) && Progress(c, st) && Paying(c, b0, st) && st.step < |c.g.order| && StopsAt(c, st, x)
    requires x.Closing? && x.place == PostGate
    ensures PaidFor(c, b0, x.intended)
  {
    AttemptAnswers(c, st);
    var k := st.step;
    var id := c.g.order[k];
    ChargeAllExtend(b0, st.charges, ChargeFor(c, id, Answer(c, k).value));
    assert Solvent(c, b0, k + 1);
    PaidNext(c, b0, st, x.intended);
  }

  lemma PaidNext(c: Config, b0: BudgetState, st: State, r: RunResult)
    requires Known(c.g) && Progress(c, st) && st.step < |c.g.order| && Answer(c, st.step).Ok?
    requires Solvent(c, b0, st.step + 1)
    requires r.Ok? ==> r.value.PendingApproval? && r.value.outputs == st.outputs[c.g.order[st.step] := Answer(c, st.step).value]
    ensures PaidFor(c, b0, r)
  {
    var k := st.step + 1;
    assert AllAnswered(c, k) && Expected(c, k) == st.outputs[c.g.order[st.step] := Answer(c, st.step).value];
    PaidPrefix(c, b0, r, k);
  }

  lemma {:induction false} PaidRun(c: Config, b0: BudgetState, st: State)
    requires Known(c.g) && Progress(c, st) && Paying(c, b0, st)
    ensures PaidFor(c, b0, RunFrom(c, st).result)
    decreases |c.g.order| - st.step
  {
    if st.step < |c.g.order| {
      StepCounts(c, st);
      match RunNode(c, st)
      case Go(s) =>
        IterationGoes(c, st);
        ProgressGo(c, st, s);
        PayingGo(c, b0, st, s);
        PaidRun(c, b0, s);
      case Halt(e) =>
        var x := IterationStops(c, st);
        PaidExit(c, b0, st, x);
        PaidLeave(c, b0, x);
    } else {
      PaidFinish(c, b0, st);
    }
  }

  lemma PaidLeave(c: Config, b0: BudgetState, x: Exit)
    requires Known(c.g) && (x.Closing? ==> PaidFor(c, b0, x.intended))
    ensures PaidFor(c, b0, x.Leave(c).result)
  {
    LeaveKeeps(c, x);
  }

  lemma PaidFinish(c: Config, b0: BudgetState, st: State)
    requires Known(c.g) && Progress(c, st) && Paying(c, b0, st) && st.step == |c.g.order|
    ensures PaidFor(c, b0, Finish(c, st).result)
  {
    PaidPrefix(c, b0, Finish(c, st).result, st.step);
  }

  function TokensOf(o: Outputs, ids: seq<NodeId>): nat {
    if ids == [] then 0
    else
      var id := ids[|ids| - 1];
      TokensOf(o, ids[..|ids| - 1]) + if id in o then o[id].tokens else 0
  }

  function CostOf(o: Outputs, ids: seq<NodeId>): real {
    if ids == [] then 0.0
    else
      var id := ids[|ids| - 1];
      CostOf(o, ids[..|ids| - 1]) + if id in o then o[id].costUsd else 0.0
  }

  /** An output never changes once its node has answered. */
  lemma {:induction false} ExpectedStable(c: Config, i: nat, k: nat)
    requires Distinct(c.g.order) && Known(c.g) && i < k <= |c.g.order| && AllAnswered(c, k)
    ensures c.g.order[i] in Expected(c, k) && Expected(c, k)[c.g.order[i]] == Answer(c, i).value
    decreases k
  {
    assert Answer(c, k - 1).Ok?;
    if i < k - 1 {
      ExpectedStable(c, i, k - 1);
    }
  }

  /** What one more position adds to the sums. */
  lemma OutputsSumStep(c: Config, k: nat, j: nat)
    requires Distinct(c.g.order) && Known(c.g) && k <= |c.g.order| && 0 < j <= |c.g.order| && AllAnswered(c, k)
    ensures var id := c.g.order[j - 1];
            if j <= k then
              Answer(c, j - 1).Ok? && id in Expected(c, k) && Expected(c, k)[id] == Answer(c, j - 1).value
            else
              id !in Expected(c, k)
  {
    if j <= k {
      ExpectedStable(c, j - 1, k);
    } else {
      ExpectedKeys(c, k);
      assert forall i :: 0 <= i < k ==> c.g.order[..k][i] == c.g.order[i];
    }
  }

  lemma TotalsExtend(cs: seq<Charge>, x: Charge)
    ensures TotalTokens(cs + [x]) == TotalTokens(cs) + x.tokens
    ensures TotalCost(cs + [x]) == TotalCost(cs) + x.costUsd
  {
    assert (cs + [x])[..|cs|] == cs;
  }

  lemma SumsExtend(o: Outputs, ids: seq<NodeId>, id: NodeId)
    ensures TokensOf(o, ids + [id]) == TokensOf(o, ids) + if id in o then o[id].tokens else 0
    ensures CostOf(o, ids + [id]) == CostOf(o, ids) + if id in o then o[id].costUsd else 0.0
  {
    assert (ids + [id])[..|ids|] == ids;
  }

  /** Summing the outputs over the order sums the charges of the prefix they cover. */
  lemma {:induction false} OutputsSum(c: Config, k: nat, j: nat)
    requires Distinct(c.g.order) && Known(c.g) && k <= |c.g.order| && j <= |c.g.order| && AllAnswered(c, k)
    ensures TokensOf(Expected(c, k), c.g.order[..j]) == TotalTokens(ExpectedCharges(c, if j <= k then j else k))
    ensures CostOf(Expected(c, k), c.g.order[..j]) == TotalCost(ExpectedCharges(c, if j <= k then j else k))
    decreases j
  {
    if j > 0 {
      OutputsSum(c, k, j - 1);
      OutputsSumNext(c, k, j);
    }
  }

  lemma OutputsSumNext(c: Config, k: nat, j: nat)
    requires Distinct(c.g.order) && Known(c.g) && k <= |c.g.order| && 0 < j <= |c.g.order| && AllAnswered(c, k)
    ensures var o, before, after := Expected(c, k), c.g.order[..j - 1], c.g.order[..j];
            if j <= k then
              var x, y := ExpectedCharges(c, j - 1), ExpectedCharges(c, j);
              && TokensOf(o, after) - TokensOf(o, before) == TotalTokens(y) - TotalTokens(x)
              && CostOf(o, after) - CostOf(o, before) == TotalCost(y) - TotalCost(x)
            else
              TokensOf(o, after) == TokensOf(o, before) && CostOf(o, after) == CostOf(o, before)
  {
    var id := c.g.order[j - 1];
    OutputsSumStep(c, k, j);
    SumsExtend(Expected(c, k), c.g.order[..j - 1], id);
    assert c.g.order[..j] == c.g.order[..j - 1] + [id];
    if j <= k {
      TotalsExtend(ExpectedCharges(c, j - 1), ChargeFor(c, id, Answer(c, j - 1).value));
    }
  }

  /** Every run: the outputs it returns cost no more, in tokens and in money, than remained at its start. */
  lemma EveryRunWithinBudget(c: Config, b0: BudgetState, recorder: RecorderState)
    requires c.g.Valid() && b0.initial.maxTokens < U64_MAX
    ensures var r := Run(c, b0, recorder).result;
            r.Ok? && !r.value.RolledBack? ==>
              && TokensOf(r.value.outputs, c.g.order) <= Remaining(b0).maxTokens
              && CostOf(r.value.outputs, c.g.order) <= Remaining(b0).maxCostUsd
  {
    ValidKnown(c.g);
    var r := Run(c, b0, recorder).result;
    RunPaid(c, b0, recorder);
    if r.Ok? && !r.value.RolledBack? {
      var k :| 0 <= k <= |c.g.order| && AllAnswered(c, k) && r.value.outputs == Expected(c, k) && Solvent(c, b0, k);
      PrefixWithinBudget(c, b0, k);
    }
  }

  lemma PrefixWithinBudget(c: Config, b0: BudgetState, k: nat)
    requires c.g.Valid() && Known(c.g) && b0.initial.maxTokens < U64_MAX
    requires k <= |c.g.order| && AllAnswered(c, k) && Solvent(c, b0, k)
    ensures TokensOf(Expected(c, k), c.g.order) <= Remaining(b0).maxTokens
    ensures CostOf(Expected(c, k), c.g.order) <= Remaining(b0).maxCostUsd
  {
    var n := |c.g.order|;
    assert c.g.order[..n] == c.g.order;
    OutputsSum(c, k, n);
    if k > 0 { AcceptedWithinRemaining(b0, ExpectedCharges(c, k)); }
  }

  lemma RunPaid(c: Config, b0: BudgetState, recorder: RecorderState)
    requires Known(c.g)
    ensures PaidFor(c, b0, Run(c, b0, recorder).result)
  {
    var o := Opened(c, b0, recorder);
    assert Progress(c, o) && Paying(c, b0, o);
    PaidRun(c, b0, o);
    assert AllAnswered(c, 0) && Expected(c, 0) == map[] && Solvent(c, b0, 0);
  }

  // ---- the trace's total and the budget's charges

  /** What the first m answers cost. */
  ghost function AnswersCost(c: Config, m: nat): real
    requires Known(c.g) && m <= |c.g.order| && AllAnswered(c, m)
  {
    if m == 0 then 0.0 else AnswersCost(c, m - 1) + Answer(c, m - 1).value.costUsd
  }

  lemma {:induction false} StepsCost(c: Config, m: nat)
    requires Known(c.g) && m <= |c.g.order| && AllAnswered(c, m)
    ensures StepCost(ExpectedSteps(c, m)) == AnswersCost(c, m)
    decreases m
  {
    if m > 0 {
      StepsCost(c, m - 1);
      LastStep(c, m);
      CostOfAll(ExpectedSteps(c, m), ExpectedSteps(c, m - 1), ExpectedEntry(c, m - 1), AnswersCost(c, m - 1));
    }
  }

  lemma LastStep(c: Config, m: nat)
    requires Known(c.g) && 0 < m <= |c.g.order| && AllAnswered(c, m)
    ensures ExpectedSteps(c, m) == ExpectedSteps(c, m - 1) + [ExpectedEntry(c, m - 1)]
    ensures AnswersCost(c, m) == AnswersCost(c, m - 1) + ExpectedEntry(c, m - 1).costUsd
  {
  }

  lemma CostOfAll(all: seq<TraceStep>, init: seq<TraceStep>, x: TraceStep, was: real)
    requires all == init + [x] && StepCost(init) == was
    ensures StepCost(all) == was + x.costUsd
  {
    assert all[..|init|] == init;
  }

  lemma {:induction false} ChargesCost(c: Config, m: nat)
    requires Known(c.g) && m <= |c.g.order| && AllAnswered(c, m)
    ensures TotalCost(ExpectedCharges(c, m)) == AnswersCost(c, m)
    decreases m
  {
    if m > 0 {
      ChargesCost(c, m - 1);
      TotalsExtend(ExpectedCharges(c, m - 1), ChargeFor(c, c.g.order[m - 1], Answer(c, m - 1).value));
    }
  }

  lemma {:induction false} ChargesRun(c: Config, b0: BudgetState, st: State)
    requires Known(c.g) && Progress(c, st) && Paying(c, b0, st)
    ensures Completes(RunFrom(c, st)) ==> RunFrom(c, st).st.charges == ExpectedCharges(c, |c.g.order|)
    decreases |c.g.order| - st.step
  {
    if st.step < |c.g.order| {
      match RunNode(c, st)
      case Go(s) =>
        IterationGoes(c, st);
        ProgressGo(c, st, s);
        PayingGo(c, b0, st, s);
        ChargesRun(c, b0, s);
      case Halt(e) =>
        var x := IterationStops(c, st);
        NotFinished(c, st, x);
    }
  }

  lemma CompletedCharges(c: Config, b0: BudgetState, r0: RecorderState)
    requires Known(c.g) && Completes(Run(c, b0, r0))
    ensures Run(c, b0, r0).st.charges == ExpectedCharges(c, |c.g.order|)
  {
    var o := Opened(c, b0, r0);
    assert Progress(c, o) && Paying(c, b0, o);
    ChargesRun(c, b0, o);
  }

  lemma CompletedBooks(c: Config, b0: BudgetState, r0: RecorderState)
    requires c.g.Valid() && Known(c.g) && Completes(Run(c, b0, r0))
    ensures TraceHolds(c, Run(c, b0, r0).st.recorder, |c.g.order|)
    ensures AllAnswered(c, |c.g.order|) && Run(c, b0, r0).result.value.outputs == Expected(c, |c.g.order|)
  {
    var m := EveryRunBooks(c, b0, r0);
    EveryRunUndo(c, b0, r0);
    RunFits(c, b0, r0);
  }

  /** Every completed run: the total of its trace, in the recorder and in the store, is what its outputs cost and what
      its budget was charged. */
  lemma CompletedRunCost(c: Config, b0: BudgetState, r0: RecorderState)
    requires c.g.Valid() && Completes(Run(c, b0, r0))
    ensures var e := Run(c, b0, r0);
            var id := c.intent.traceId;
            && id in e.st.recorder.open && id in e.st.recorder.store
            && e.st.recorder.store[id] == e.st.recorder.open[id]
            && e.st.recorder.open[id].Balanced()
            && e.st.recorder.open[id].totalCostUsd
               == CostOf(e.result.value.outputs, c.g.order) == TotalCost(e.st.charges)
  {
    ValidKnown(c.g);
    var n := |c.g.order|;
    CompletedBooks(c, b0, r0);
    CompletedCharges(c, b0, r0);
    StepsCost(c, n);
    ChargesCost(c, n);
    OutputsSum(c, n, n);
    assert c.g.order[..n] == c.g.order;
  }
}
