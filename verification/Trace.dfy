/** Execution traces and the recorder that keeps them. The recorder stores clones of its documents, so a
    trace document is a value; the recorder itself is an object whose two maps are updated in place. */
module Trace {
  import opened Contracts

  type TraceId = string
  type IntentId = string

  datatype TraceStatus = Running | Completed | Failed | Cancelled | Partial

  datatype OutcomeStatus = Succeeded | OutcomeFailed | OutcomePartial | Escalated | OutcomeRolledBack

  /** The parts of an observation that some component reads again. */
  datatype Observation = Observation(
    traceId: TraceId, nodeId: string, step: nat, agent: string, reasoning: string, status: Option<OutcomeStatus>)

  datatype TraceStep = TraceStep(
    step: nat, nodeId: string, stepType: string, model: Option<string>,
    tokensIn: nat, tokensOut: nat, costUsd: real, durationMs: nat, observation: Observation)

  datatype ExecutionTrace = ExecutionTrace(
    traceId: TraceId, intentId: IntentId, startedAt: int, completedAt: Option<int>,
    totalCostUsd: real, status: TraceStatus, steps: seq<TraceStep>)
  {
    function Record(s: TraceStep): ExecutionTrace {
      this.(totalCostUsd := totalCostUsd + s.costUsd, steps := steps + [s])
    }

    function Close(st: TraceStatus, now: int): ExecutionTrace {
      this.(status := st, completedAt := Some(now))
    }

    /** The rolling total is the sum over the steps. */
    ghost predicate Balanced() {
      totalCostUsd == StepCost(steps)
    }
  }

  function OpenTrace(id: TraceId, intent: IntentId, now: int): ExecutionTrace {
    ExecutionTrace(id, intent, now, None, 0.0, Running, [])
  }

  function StepCost(steps: seq<TraceStep>): real {
    if steps == [] then 0.0 else StepCost(steps[..|steps| - 1]) + steps[|steps| - 1].costUsd
  }

  datatype RecorderError = Storage | AlreadyClosed | NotOpened(id: TraceId)

  datatype RecorderState = RecorderState(open: map<TraceId, ExecutionTrace>, store: map<TraceId, ExecutionTrace>)

  /** One recorder call. `stored` says whether the backing store accepted the document. */
  datatype Action =
    | Open(id: TraceId, intent: IntentId, now: int, stored: bool)
    | Record(entry: TraceStep, stored: bool)
    | Close(id: TraceId, status: TraceStatus, now: int, stored: bool)

  /** Put a snapshot into the store; a failed put leaves the store as it was. */
  function Put(s: RecorderState, t: ExecutionTrace, stored: bool): RecorderState {
    if stored then s.(store := s.store[t.traceId := t]) else s
  }

  function StorageResult(stored: bool): Option<RecorderError> {
    if stored then None else Some(Storage)
  }

  /** New state and error of one call. */
  function Step(s: RecorderState, a: Action): (RecorderState, Option<RecorderError>) {
    match a
    case Open(id, intent, now, stored) =>
      var t := OpenTrace(id, intent, now);
      if stored then (RecorderState(s.open[id := t], s.store[id := t]), None) else (s, Some(Storage))
    case Record(e, stored) =>
      var id := e.observation.traceId;
      if id !in s.open then (s, Some(NotOpened(id)))
      else if s.open[id].status != Running then (s, Some(AlreadyClosed))
      else
        var t := s.open[id].Record(e);
        (Put(s.(open := s.open[id := t]), t, stored), StorageResult(stored))
    case Close(id, status, now, stored) =>
      if id !in s.open then (s, Some(NotOpened(id)))
      else
        var t := s.open[id].Close(status, now);
        (Put(s.(open := s.open[id := t]), t, stored), StorageResult(stored))
  }

  class Recorder {
    var open: map<TraceId, ExecutionTrace>
    var store: map<TraceId, ExecutionTrace>

    ghost function State(): RecorderState
      reads this
    {
      RecorderState(open, store)
    }

    constructor ()
      ensures State() == RecorderState(map[], map[])
    {
      open, store := map[], map[];
    }

    /** `TraceStore::put`, whose backend may refuse. */
    method PutSnapshot(t: ExecutionTrace, stored: bool) returns (err: Option<RecorderError>)
      modifies this`store
      ensures State() == Put(old(State()), t, stored) && err == StorageResult(stored)
    {
      if !stored { return Some(Storage); }
      store := store[t.traceId := t];
      return None;
    }

    method OpenTraceFor(id: TraceId, intent: IntentId, now: int, stored: bool) returns (err: Option<RecorderError>)
      modifies this
      ensures (State(), err) == Step(old(State()), Open(id, intent, now, stored))
    {
      var t := OpenTrace(id, intent, now);
      err := PutSnapshot(t, stored);
      if err.Some? { return; }
      open := open[id := t];
    }

    method RecordStep(e: TraceStep, stored: bool) returns (err: Option<RecorderError>)
      modifies this
      ensures (State(), err) == Step(old(State()), Record(e, stored))
    {
      var id := e.observation.traceId;
      if id !in open { return Some(NotOpened(id)); }
      if open[id].status != Running { return Some(AlreadyClosed); }
      var t := open[id].Record(e);
      open := open[id := t];
      err := PutSnapshot(t, stored);
    }

    method CloseTrace(id: TraceId, status: TraceStatus, now: int, stored: bool) returns (err: Option<RecorderError>)
      modifies this
      ensures (State(), err) == Step(old(State()), Close(id, status, now, stored))
    {
      if id !in open { return Some(NotOpened(id)); }
      var t := open[id].Close(status, now);
      open := open[id := t];
      err := PutSnapshot(t, stored);
    }

    /** The open document wins over the stored one. */
    method Get(id: TraceId) returns (t: Option<ExecutionTrace>)
      ensures id in open ==> t == Some(open[id])
      ensures id !in open && id in store ==> t == Some(store[id])
      ensures t.None? <==> id !in open && id !in store
    {
      if id in open { return Some(open[id]); }
      if id in store { return Some(store[id]); }
      return None;
    }
  }

  // ---- whole histories of recorder calls

  function RunActions(s: RecorderState, actions: seq<Action>): RecorderState {
    if actions == [] then s
    else Step(RunActions(s, actions[..|actions| - 1]), actions[|actions| - 1]).0
  }

  /** Which error each call answers: an unknown trace first, then a closed one, then the store. */
  lemma ErrorsExactly(s: RecorderState, a: Action)
    ensures var err := Step(s, a).1;
            match a
            case Open(_, _, _, stored) => err == if stored then None else Some(Storage)
            case Record(e, stored) =>
              var id := e.observation.traceId;
              && (err == Some(NotOpened(id)) <==> id !in s.open)
              && (err == Some(AlreadyClosed) <==> id in s.open && s.open[id].status != Running)
              && (err == Some(Storage) <==> id in s.open && s.open[id].status == Running && !stored)
              && (err == None <==> id in s.open && s.open[id].status == Running && stored)
            case Close(id, _, _, stored) =>
              && (err == Some(NotOpened(id)) <==> id !in s.open)
              && (err == Some(Storage) <==> id in s.open && !stored)
              && (err == None <==> id in s.open && stored)
  {
  }

  /** Who opened a trace and when, and when it was closed, over a history of calls on it. */
  ghost function LastOpen(actions: seq<Action>, id: TraceId): Option<Action> {
    if actions == [] then None
    else
      var a := actions[|actions| - 1];
      if a.Open? && a.id == id && a.stored then Some(a) else LastOpen(actions[..|actions| - 1], id)
  }

  /** The last close since the trace was opened. */
  ghost function LastClose(actions: seq<Action>, id: TraceId): Option<Action> {
    if actions == [] then None
    else
      var a := actions[|actions| - 1];
      if a.Open? && a.id == id && a.stored then None
      else if a.Close? && a.id == id then Some(a)
      else LastClose(actions[..|actions| - 1], id)
  }

  /** After every history an open document carries the intent and time of the last accepted open, and the status and
      time of the last close since; without one it is running and has no end. */
  lemma {:induction false} HeaderExactly(actions: seq<Action>, id: TraceId)
    ensures var s := RunActions(RecorderState(map[], map[]), actions);
            match LastOpen(actions, id)
            case None => id !in s.open
            case Some(o) =>
              && o.Open? && id in s.open && s.open[id].traceId == id
              && s.open[id].intentId == o.intent && s.open[id].startedAt == o.now
              && match LastClose(actions, id)
                 case None => s.open[id].status == Running && s.open[id].completedAt == None
                 case Some(x) => x.Close? && s.open[id].status == x.status && s.open[id].completedAt == Some(x.now)
    decreases |actions|
  {
    if actions != [] { HeaderExactly(actions[..|actions| - 1], id); }
  }

  /** What every call keeps: documents sit under their own id, totals are sums, every open document was
      stored, and the store never runs ahead of the open document. */
  ghost predicate Sound(s: RecorderState) {
    forall id :: SoundAt(s, id)
  }

  ghost predicate SoundAt(s: RecorderState, id: TraceId) {
    && (id in s.open ==> s.open[id].traceId == id && s.open[id].Balanced())
    && (id in s.store ==> s.store[id].traceId == id && s.store[id].Balanced())
    && (id in s.open ==> id in s.store && s.store[id].steps <= s.open[id].steps)
  }

  lemma RecordBalanced(t: ExecutionTrace, e: TraceStep)
    requires t.Balanced()
    ensures t.Record(e).Balanced()
  {
    assert (t.steps + [e])[..|t.steps|] == t.steps;
  }

  lemma StepSound(s: RecorderState, a: Action)
    requires Sound(s)
    ensures Sound(Step(s, a).0)
  {
    forall id
      ensures SoundAt(Step(s, a).0, id)
    {
      StepSoundAt(s, a, id);
    }
  }

  lemma StepSoundAt(s: RecorderState, a: Action, id: TraceId)
    requires Sound(s)
    ensures SoundAt(Step(s, a).0, id)
  {
    assert SoundAt(s, id);
    match a
    case Open(x, _, _, _) => assert SoundAt(s, x);
    case Close(x, _, _, _) => assert SoundAt(s, x);
    case Record(e, _) =>
      var x := e.observation.traceId;
      assert SoundAt(s, x);
      if x in s.open { RecordBalanced(s.open[x], e); }
  }

  lemma {:induction false} HistorySound(actions: seq<Action>)
    ensures Sound(RunActions(RecorderState(map[], map[]), actions))
    decreases |actions|
  {
    if actions != [] {
      HistorySound(actions[..|actions| - 1]);
      StepSound(RunActions(RecorderState(map[], map[]), actions[..|actions| - 1]), actions[|actions| - 1]);
    }
  }

  lemma StepAgrees(s: RecorderState, a: Action)
    requires Sound(s) && s.open == s.store && a.stored
    ensures var t := Step(s, a).0; t.open == t.store
  {
    var id := if a.Record? then a.entry.observation.traceId else a.id;
    assert SoundAt(s, id);
  }

  /** While the store accepts every document, it agrees with the open map. */
  lemma {:induction false} StoreAgrees(actions: seq<Action>)
    requires forall i :: 0 <= i < |actions| ==> actions[i].stored
    ensures var s := RunActions(RecorderState(map[], map[]), actions); s.open == s.store
    decreases |actions|
  {
    if actions != [] {
      var init := actions[..|actions| - 1];
      assert forall i :: 0 <= i < |init| ==> init[i] == actions[i];
      StoreAgrees(init);
      HistorySound(init);
      StepAgrees(RunActions(RecorderState(map[], map[]), init), actions[|actions| - 1]);
    }
  }

  /** The calls that put a closed trace back into the running state. */
  predicate Reopens(a: Action, id: TraceId) {
    (a.Open? && a.id == id && a.stored) || (a.Close? && a.id == id && a.status == Running)
  }

  /** A closed trace is running after a call exactly when the call is one of these. */
  lemma ReopensExactly(s: RecorderState, a: Action, id: TraceId)
    requires id in s.open && s.open[id].status != Running
    ensures id in Step(s, a).0.open && (Step(s, a).0.open[id].status == Running <==> Reopens(a, id))
  {
  }

  /** Nothing is appended to a closed trace: its steps and total stay as they were at the close. */
  lemma {:induction false} ClosedStaysClosed(s: RecorderState, actions: seq<Action>, id: TraceId)
    requires id in s.open && s.open[id].status != Running
    requires forall i :: 0 <= i < |actions| ==> !Reopens(actions[i], id)
    ensures var t := RunActions(s, actions);
            && id in t.open && t.open[id].status != Running
            && t.open[id].steps == s.open[id].steps && t.open[id].totalCostUsd == s.open[id].totalCostUsd
    decreases |actions|
  {
    if actions != [] {
      var init := actions[..|actions| - 1];
      assert forall i :: 0 <= i < |init| ==> init[i] == actions[i];
      ClosedStaysClosed(s, init, id);
      ReopensExactly(RunActions(s, init), actions[|actions| - 1], id);
    }
  }

  /** The exception is real: closing with the status `Running` lets later steps in again. */
  lemma CloseRunningReopens(s: RecorderState, id: TraceId, e: TraceStep)
    requires id in s.open && e.observation.traceId == id
    ensures var t := Step(s, Close(id, Running, 0, true)).0;
            Step(t, Record(e, true)).1.None? && Step(t, Record(e, true)).0.open[id].steps == s.open[id].steps + [e]
  {
  }
}
