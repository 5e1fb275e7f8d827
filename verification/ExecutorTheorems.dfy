/** What holds of every run of the executor, whatever nodes, policies, storage and clock do. */
module ExecutorTheorems {
  import opened Budget
  import opened Contracts
  import opened Digraph
  import opened Executor
  import opened GraphValidation
  import opened Ordering
  import opened RuntimeTypes
  import opened Trace

  // ---- what the first k nodes of the order produce, independently of the state machine

  /** The node at position k is really executed, not simulated. */
  ghost predicate Real(c: Config, k: nat)
    requires Known(c.g) && k < |c.g.order|
  {
    !(c.shadow && c.g.nodes[c.g.order[k]].sideEffect.WriteClass())
  }

  ghost predicate Known(g: Graph) {
    forall k :: 0 <= k < |g.order| ==> g.order[k] in g.nodes
  }

  lemma ValidKnown(g: Graph)
    requires g.Valid()
    ensures Known(g)
  {
    assert forall k :: 0 <= k < |g.order| ==> g.order[k] in Elems(g.order);
  }

  /** Answer of the node at position k when it sees the outputs of all earlier positions. */
  ghost function Answer(c: Config, k: nat): Result<NodeOutput, RuntimeError>
    requires Known(c.g) && k < |c.g.order|
    decreases k, 1
  {
    var id := c.g.order[k];
    if Real(c, k) then c.w.run(id, Expected(c, k)) else Ok(Marker(c.g.nodes[id], id))
  }

  /** Outputs of the first k nodes of the order. */
  ghost function Expected(c: Config, k: nat): Outputs
    requires Known(c.g) && k <= |c.g.order|
    decreases k, 0
  {
    if k == 0 then map[]
    else
      var a := Answer(c, k - 1);
      if a.Ok? then Expected(c, k - 1)[c.g.order[k - 1] := a.value] else Expected(c, k - 1)
  }

  ghost predicate AllAnswered(c: Config, k: nat)
    requires Known(c.g) && k <= |c.g.order|
  {
    forall i :: 0 <= i < k ==> Answer(c, i).Ok?
  }

  /** The executions behind the first k positions, each with the outputs it saw. */
  ghost function Visits(c: Config, k: nat): seq<Visit>
    requires Known(c.g) && k <= |c.g.order|
  {
    if k == 0 then []
    else Visits(c, k - 1) + if Real(c, k - 1) then [Visit(c.g.order[k - 1], Expected(c, k - 1))] else []
  }

  lemma {:induction false} ExpectedKeys(c: Config, k: nat)
    requires Known(c.g) && k <= |c.g.order| && AllAnswered(c, k)
    ensures Expected(c, k).Keys == Elems(c.g.order[..k])
    decreases k
  {
    if k > 0 {
      ExpectedKeys(c, k - 1);
      assert c.g.order[..k] == c.g.order[..k - 1] + [c.g.order[k - 1]];
      assert Answer(c, k - 1).Ok?;
    }
  }

  ghost predicate VisitSound(c: Config, k: nat, v: Visit)
    requires Known(c.g)
  {
    exists i :: 0 <= i < k <= |c.g.order| && v.id == c.g.order[i] && Real(c, i) && v.given == Expected(c, i)
  }

  /** Every execution belongs to one position of the order. */
  lemma {:induction false} VisitsArePositions(c: Config, k: nat, j: nat)
    requires Known(c.g) && k <= |c.g.order| && j < |Visits(c, k)|
    ensures VisitSound(c, k, Visits(c, k)[j])
    decreases k
  {
    if j < |Visits(c, k - 1)| {
      VisitsArePositions(c, k - 1, j);
    }
  }

  /** A node execution sees the outputs of all graph predecessors, provided the earlier nodes answered. */
  lemma VisitFed(c: Config, k: nat, v: Visit)
    requires c.g.Valid() && Known(c.g) && k <= |c.g.order| && k > 0 && AllAnswered(c, k - 1) && VisitSound(c, k, v)
    ensures v.id in c.g.nodes
    ensures forall e :: e in c.g.edges && e.to == v.id ==> e.from in v.given
    ensures c.shadow ==> !c.g.nodes[v.id].sideEffect.WriteClass()
  {
    var i :| 0 <= i < k && v.id == c.g.order[i] && Real(c, i) && v.given == Expected(c, i);
    ExpectedKeys(c, i);
    TopologicalReady(c.g.nodes.Keys, c.g.edges, c.g.order, i);
  }

  function VisitIds(vs: seq<Visit>): (ids: seq<NodeId>)
    ensures |ids| == |vs| && forall i :: 0 <= i < |vs| ==> ids[i] == vs[i].id
  {
    seq(|vs|, i requires 0 <= i < |vs| => vs[i].id)
  }

  lemma {:induction false} VisitsDistinct(c: Config, k: nat)
    requires c.g.Valid() && Known(c.g) && k <= |c.g.order|
    ensures Distinct(VisitIds(Visits(c, k)))
    decreases k
  {
    if k > 0 {
      VisitsDistinct(c, k - 1);
      var before, after := Visits(c, k - 1), Visits(c, k);
      assert forall i :: 0 <= i < |before| ==> after[i] == before[i];
      forall i | 0 <= i < |before|
        ensures before[i].id != c.g.order[k - 1]
      {
        VisitsArePositions(c, k - 1, i);
      }
      assert forall i, j :: 0 <= i < j < |before| ==> VisitIds(before)[i] != VisitIds(before)[j];
    }
  }

  // ---- progress: outputs and executions

  ghost predicate Progress(c: Config, st: State)
    requires Known(c.g)
  {
    && st.step <= |c.g.order|
    && AllAnswered(c, st.step)
    && st.outputs == Expected(c, st.step)
    && st.ran == Visits(c, st.step)
  }

  /** The outcome fixes how long a prefix of the order the outputs cover. */
  ghost predicate OutputsFit(c: Config, r: RunResult)
    requires Known(c.g)
  {
    var n := |c.g.order|;
    match r
    case Ok(Finished(o, k)) => k == n && AllAnswered(c, n) && o == Expected(c, n)
    case Ok(BudgetPartial(o, k, _)) => k < n && AllAnswered(c, k + 1) && o == Expected(c, k)
    case Ok(PendingApproval(o, k, d)) =>
      && d.RequireApproval? && k <= n
      && ((AllAnswered(c, k) && o == Expected(c, k)) || (k > 0 && AllAnswered(c, k - 1) && o == Expected(c, k - 1)))
    case Ok(RolledBack(k, _, _)) => 1 <= k <= n && AllAnswered(c, k - 1) && Answer(c, k - 1).Err?
    case Err(_) => true
  }

  /** The executions are those of a prefix of the order; only the last one can have failed. */
  ghost predicate RanFit(c: Config, st: State)
    requires Known(c.g)
  {
    exists k :: 0 <= k <= |c.g.order| && st.ran == Visits(c, k) && AllAnswered(c, if k == 0 then 0 else k - 1)
  }

  /** The attempt at position k answers as predicted and extends the executions accordingly. */
  lemma AttemptAnswers(c: Config, st: State)
    requires Known(c.g) && Progress(c, st) && st.step < |c.g.order|
    ensures c.g.order[st.step] in c.g.nodes
    ensures Attempted(c, st).0 == Answer(c, st.step) && Attempted(c, st).1.ran == Visits(c, st.step + 1)
  {
  }

  lemma ProgressGo(c: Config, st: State, s: State)
    requires Known(c.g) && Progress(c, st) && st.step < |c.g.order| && Advanced(c, st, s)
    ensures Progress(c, s)
  {
    AttemptAnswers(c, st);
    var k := st.step;
    assert Answer(c, k).Ok?;
    assert Expected(c, k + 1) == st.outputs[c.g.order[k] := Answer(c, k).value];
  }

  lemma ProgressExit(c: Config, st: State, x: Exit)
    requires Known(c.g) && Progress(c, st) && st.step < |c.g.order|
    requires c.g.order[st.step] in c.g.nodes && StopsAt(c, st, x)
    ensures x.Closing? ==> OutputsFit(c, x.intended)
    ensures x.base.ran == Visits(c, if x.place == PreGate then st.step else st.step + 1)
  {
    AttemptAnswers(c, st);
    if Answer(c, st.step).Ok? { ExpectedNext(c, st.step); }
  }

  lemma ExpectedNext(c: Config, k: nat)
    requires Known(c.g) && k < |c.g.order| && AllAnswered(c, k) && Answer(c, k).Ok?
    ensures AllAnswered(c, k + 1) && Expected(c, k + 1) == Expected(c, k)[c.g.order[k] := Answer(c, k).value]
  {
  }

  lemma RanWitness(c: Config, st: State, end: State)
    requires Known(c.g) && st.step <= |c.g.order| && AllAnswered(c, st.step)
    requires end.ran == Visits(c, st.step) || (st.step < |c.g.order| && end.ran == Visits(c, st.step + 1))
    ensures RanFit(c, end)
  {
    var k := if end.ran == Visits(c, st.step) then st.step else st.step + 1;
    assert AllAnswered(c, if k == 0 then 0 else k - 1);
  }

  lemma {:induction false} ProgressRun(c: Config, st: State)
    requires Known(c.g) && Progress(c, st)
    ensures OutputsFit(c, RunFrom(c, st).result) && RanFit(c, RunFrom(c, st).st)
    decreases |c.g.order| - st.step
  {
    if st.step < |c.g.order| {
      StepCounts(c, st);
      match RunNode(c, st)
      case Go(s) =>
        IterationGoes(c, st);
        ProgressGo(c, st, s);
        ProgressRun(c, s);
      case Halt(e) =>
        var x := IterationStops(c, st);
        ProgressExit(c, st, x);
        RanWitness(c, st, e.st);
    } else {
      RanWitness(c, st, Finish(c, st).st);
    }
  }

  /** Every run: the outputs returned are exactly those of a prefix of the order whose length the outcome
      fixes; each node executes at most once, with the outputs of all its predecessors at hand; and in shadow
      mode no write-class node executes. */
  lemma EveryRunProgress(c: Config, budget: BudgetState, recorder: RecorderState)
    requires c.g.Valid()
    ensures Known(c.g)
    ensures var e := Run(c, budget, recorder);
            && OutputsFit(c, e.result)
            && Distinct(VisitIds(e.st.ran))
            && forall v :: v in e.st.ran ==>
                 && v.id in c.g.nodes
                 && (forall x :: x in c.g.edges && x.to == v.id ==> x.from in v.given)
                 && (c.shadow ==> !c.g.nodes[v.id].sideEffect.WriteClass())
  {
    ValidKnown(c.g);
    var e := Run(c, budget, recorder);
    RunFits(c, budget, recorder);
    var k :| 0 <= k <= |c.g.order| && e.st.ran == Visits(c, k) && AllAnswered(c, if k == 0 then 0 else k - 1);
    VisitsDistinct(c, k);
    forall v | v in e.st.ran
      ensures v.id in c.g.nodes
      ensures forall x :: x in c.g.edges && x.to == v.id ==> x.from in v.given
      ensures c.shadow ==> !c.g.nodes[v.id].sideEffect.WriteClass()
    {
      var j :| 0 <= j < |Visits(c, k)| && Visits(c, k)[j] == v;
      VisitsArePositions(c, k, j);
      VisitFed(c, k, v);
    }
  }

  /** The state after the trace was opened. */
  ghost function Opened(c: Config, budget: BudgetState, recorder: RecorderState): State {
    Call(Start(budget, recorder), Action.Open(c.intent.traceId, c.intent.intentId, c.w.openedAt, c.w.openStored)).0
  }

  lemma RunFits(c: Config, budget: BudgetState, recorder: RecorderState)
    requires Known(c.g)
    ensures OutputsFit(c, Run(c, budget, recorder).result) && RanFit(c, Run(c, budget, recorder).st)
  {
    var o := Opened(c, budget, recorder);
    assert Progress(c, o);
    ProgressRun(c, o);
    RanWitness(c, o, o);
    assert AllAnswered(c, 0);
  }
}
