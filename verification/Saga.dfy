/** The agentic saga: recovery rules, retries, pauses and compensation in reverse. */
module Saga {
  import opened Contracts
  import opened Numerals
  import opened Ordering

  const U32_MAX: nat := 0xFFFF_FFFF

  datatype CompensationType = Mandatory | BestEffort | NoCompensation

  datatype RecoveryAction = PauseAndAskUser | RetryWithAlternative | PartialCompensation | FullCompensation | Skip

  datatype RecoveryRule = RecoveryRule(condition: string, action: RecoveryAction, preserve: seq<string>)

  datatype OnFailure = OnFailure(strategy: string, rules: seq<RecoveryRule>)

  datatype SagaStep = SagaStep(
    step: nat, name: string, capability: string, compensation: Option<string>,
    compensationType: CompensationType, onFailure: Option<OnFailure>)

  datatype SagaState =
    | Initiated | Running | StepFailed | Analyzing | RecoverySelected | PartialCompensating
    | WaitingForInput | Resumed | FullCompensating | SagaFailed | SagaCompleted

  datatype StepResult = StepOk | FailedWithTag(tag: string)

  datatype SagaOutcome =
    | Completed(completed: seq<nat>)
    | Failed(failedAt: nat, recovery: RecoveryAction, compensated: seq<nat>, preserved: seq<nat>)
    | PendingUser(step: nat)

  datatype SagaError = MandatoryCompensationFailed(step: nat)

  datatype RecoveryDecision = Apply(rule: RecoveryRule) | Fallback(action: RecoveryAction) {
    function Action(): RecoveryAction {
      match this
      case Apply(r) => r.action
      case Fallback(a) => a
    }

    function Preserve(): set<nat> {
      match this
      case Apply(r) => ParsedSteps(r.preserve)
      case Fallback(_) => {}
    }
  }

  // ---- recovery selection

  ghost predicate FirstMatch(rules: seq<RecoveryRule>, tag: string, i: nat) {
    i < |rules| && rules[i].condition == tag && forall j :: 0 <= j < i ==> rules[j].condition != tag
  }

  function FindRule(rules: seq<RecoveryRule>, tag: string): Option<RecoveryRule> {
    if rules == [] then None
    else if rules[0].condition == tag then Some(rules[0])
    else FindRule(rules[1..], tag)
  }

  /** The first rule naming the failure tag, else full compensation. */
  function Decide(tag: string, onFailure: Option<OnFailure>): RecoveryDecision {
    match onFailure
    case None => Fallback(FullCompensation)
    case Some(f) =>
      match FindRule(f.rules, tag)
      case Some(r) => Apply(r)
      case None => Fallback(FullCompensation)
  }

  /** Exactly the first matching rule is applied; without one the saga falls back to full compensation. */
  lemma {:induction false} DecideFirstMatch(tag: string, f: OnFailure)
    ensures Decide(tag, None) == Fallback(FullCompensation)
    ensures var d := Decide(tag, Some(f));
            if exists r :: r in f.rules && r.condition == tag then
              d.Apply? && exists i: nat :: FirstMatch(f.rules, tag, i) && f.rules[i] == d.rule
            else d == Fallback(FullCompensation)
  {
    FindRuleFirst(f.rules, tag);
  }

  lemma {:induction false} FindRuleFirst(rules: seq<RecoveryRule>, tag: string)
    ensures match FindRule(rules, tag)
            case Some(r) => exists i: nat :: FirstMatch(rules, tag, i) && rules[i] == r
            case None => forall i :: 0 <= i < |rules| ==> rules[i].condition != tag
    decreases |rules|
  {
    if rules == [] {
    } else if rules[0].condition == tag {
      assert FirstMatch(rules, tag, 0);
    } else {
      FindRuleFirst(rules[1..], tag);
      if FindRule(rules[1..], tag).Some? {
        var i: nat :| FirstMatch(rules[1..], tag, i) && rules[1..][i] == FindRule(rules, tag).value;
        assert FirstMatch(rules, tag, i + 1) && rules[i + 1] == rules[1..][i];
      }
    }
  }

  // ---- `str::parse::<u32>`

  predicate IsDigit(c: char) {
    '0' <= c <= '9'
  }

  /** Decimal value, or nothing when a character is no digit or the value exceeds 32 bits. */
  function Digits(s: string): Option<nat> {
    if s == [] then Some(0)
    else
      var c := s[|s| - 1];
      var init := Digits(s[..|s| - 1]);
      if init.None? || !IsDigit(c) then None
      else
        var v := init.value * 10 + (c as int - '0' as int);
        if v <= U32_MAX then Some(v) else None
  }

  /** A leading plus sign is accepted, a minus sign or an empty numeral is not. */
  function ParseU32(s: string): Option<nat> {
    var body := if s != [] && s[0] == '+' then s[1..] else s;
    if body == [] then None else Digits(body)
  }

  lemma {:induction false} DigitsOfDecimal(n: nat)
    ensures Digits(Decimal(n)) == if n <= U32_MAX then Some(n) else None
  {
    var d := Decimal(n);
    if n >= 10 {
      DigitsOfDecimal(n / 10);
      assert d[..|d| - 1] == Decimal(n / 10);
    } else {
      assert d[..0] == [];
    }
  }

  /** Parsing undoes printing for every 32-bit step number, with or without a plus sign, and refuses larger ones. */
  lemma ParsePrinted(n: nat)
    ensures ParseU32(Decimal(n)) == (if n <= U32_MAX then Some(n) else None)
    ensures ParseU32("+" + Decimal(n)) == ParseU32(Decimal(n)) && ParseU32("-" + Decimal(n)) == None
  {
    DigitsOfDecimal(n);
    var d := Decimal(n);
    assert ("+" + d)[1..] == d;
    DigitsOnly("-" + d, 0);
  }

  /** Leading zeros do not matter; a lone sign or nothing at all is no number. */
  lemma ParseLeadingZero(s: string)
    requires s != [] && s[0] != '+'
    ensures ParseU32("0" + s) == ParseU32(s)
    ensures ParseU32("") == None && ParseU32("+") == None
  {
    ZeroInFront(s);
    assert "+"[1..] == "";
  }

  lemma {:induction false} ZeroInFront(s: string)
    ensures Digits("0" + s) == Digits(s)
    decreases |s|
  {
    var z := "0" + s;
    if s != [] {
      ZeroInFront(s[..|s| - 1]);
      assert z[..|z| - 1] == "0" + s[..|s| - 1] && z[|z| - 1] == s[|s| - 1];
    } else {
      assert z[..0] == [];
    }
  }

  lemma {:induction false} DigitsOnly(s: string, i: nat)
    requires i < |s| && !IsDigit(s[i])
    ensures Digits(s) == None
    decreases |s|
  {
    if i < |s| - 1 { DigitsOnly(s[..|s| - 1], i); }
  }

  function ParsedSteps(names: seq<string>): (r: set<nat>)
    ensures forall n :: n in r <==> exists s :: s in names && ParseU32(s) == Some(n)
  {
    if names == [] then {}
    else
      var last := names[|names| - 1];
      var rest := ParsedSteps(names[..|names| - 1]);
      assert names == names[..|names| - 1] + [last];
      var p := ParseU32(last);
      if p.Some? then rest + {p.value} else rest
  }

  // ---- what each step of a definition comes to

  /** Answers of the step closure (position, attempt) and of the compensation closure (position among the
      completed steps, step). */
  datatype World = World(run: (nat, nat) -> StepResult, undo: (nat, SagaStep) -> bool)

  datatype Verdict =
    | Done
    | Skipped
    | Paused
    | RetryFailed
    | Undo(action: RecoveryAction, preserve: set<nat>)
  {
    predicate Continues() {
      Done? || Skipped?
    }
  }

  function VerdictOf(steps: seq<SagaStep>, w: World, i: nat): Verdict
    requires i < |steps|
  {
    match w.run(i, 0)
    case StepOk => Done
    case FailedWithTag(tag) =>
      var d := Decide(tag, steps[i].onFailure);
      match d.Action()
      case PauseAndAskUser => Paused
      case RetryWithAlternative => if w.run(i, 1) == StepOk then Done else RetryFailed
      case Skip => Skipped
      case FullCompensation => Undo(FullCompensation, d.Preserve())
      case PartialCompensation => Undo(PartialCompensation, d.Preserve())
  }

  /** Step numbers completed by the first k positions, in order. */
  function CompletedBy(steps: seq<SagaStep>, w: World, k: nat): seq<nat>
    requires k <= |steps|
  {
    if k == 0 then []
    else CompletedBy(steps, w, k - 1) + if VerdictOf(steps, w, k - 1).Done? then [steps[k - 1].step] else []
  }

  /** The position whose verdict ends the saga, or the number of steps. */
  function StopAt(steps: seq<SagaStep>, w: World, k: nat): (n: nat)
    requires k <= |steps|
    ensures k <= n <= |steps|
    decreases |steps| - k
  {
    if k < |steps| && VerdictOf(steps, w, k).Continues() then StopAt(steps, w, k + 1) else k
  }

  lemma {:induction false} StopAtFirst(steps: seq<SagaStep>, w: World, k: nat, i: nat)
    requires k <= i < |steps|
    ensures i < StopAt(steps, w, k) ==> VerdictOf(steps, w, i).Continues()
    ensures i == StopAt(steps, w, k) ==> !VerdictOf(steps, w, i).Continues()
    decreases |steps| - k
  {
    if VerdictOf(steps, w, k).Continues() && k < i {
      StopAtFirst(steps, w, k + 1, i);
    }
  }

  /** The step that a completed number refers to. */
  function FindStep(steps: seq<SagaStep>, n: nat): Option<SagaStep> {
    if steps == [] then None
    else if steps[0].step == n then Some(steps[0])
    else FindStep(steps[1..], n)
  }

  lemma {:induction false} FindStepFinds(steps: seq<SagaStep>, s: SagaStep)
    requires s in steps
    ensures FindStep(steps, s.step).Some? && FindStep(steps, s.step).value.step == s.step
    decreases |steps|
  {
    if steps[0].step != s.step {
      assert steps == [steps[0]] + steps[1..];
      FindStepFinds(steps[1..], s);
    }
  }

  /** The lookup of a completed step always succeeds. */
  lemma {:induction false} CompletedKnown(steps: seq<SagaStep>, w: World, k: nat, n: nat)
    requires k <= |steps| && n in CompletedBy(steps, w, k)
    ensures FindStep(steps, n).Some?
    decreases k
  {
    if n in CompletedBy(steps, w, k - 1) {
      CompletedKnown(steps, w, k - 1, n);
    } else {
      FindStepFinds(steps, steps[k - 1]);
    }
  }

  // ---- compensation

  datatype Fate = Preserved | Compensated | Uncompensated | MandatoryFailure

  /** What happens to the completed step at position j when compensation reaches it. */
  function FateOf(steps: seq<SagaStep>, w: World, completed: seq<nat>, v: Verdict, j: nat): Fate
    requires j < |completed| && v.Undo?
  {
    var n := completed[j];
    if v.action == PartialCompensation && n in v.preserve then Preserved
    else
      match FindStep(steps, n)
      case None => Compensated
      case Some(s) =>
        if s.compensation.None? || w.undo(j, s) then Compensated
        else if s.compensationType == Mandatory then MandatoryFailure
        else Uncompensated
  }

  /** The completed steps from position `from` on that meet a fate, last completed first. */
  function Select(steps: seq<SagaStep>, w: World, completed: seq<nat>, v: Verdict, from: nat, f: Fate): seq<nat>
    requires from <= |completed| && v.Undo?
    decreases |completed| - from
  {
    if from == |completed| then []
    else
      Select(steps, w, completed, v, from + 1, f)
      + if FateOf(steps, w, completed, v, from) == f then [completed[from]] else []
  }

  /** The last completed step whose mandatory compensation fails; -1 when there is none. */
  function Breaks(steps: seq<SagaStep>, w: World, completed: seq<nat>, v: Verdict, upTo: nat): (j: int)
    requires upTo <= |completed| && v.Undo?
    ensures -1 <= j < upTo
  {
    if upTo == 0 then -1
    else if FateOf(steps, w, completed, v, upTo - 1) == MandatoryFailure then upTo - 1
    else Breaks(steps, w, completed, v, upTo - 1)
  }

  lemma {:induction false} BreaksLast(steps: seq<SagaStep>, w: World, completed: seq<nat>, v: Verdict, upTo: nat, i: nat)
    requires i < upTo <= |completed| && v.Undo?
    ensures i == Breaks(steps, w, completed, v, upTo) ==> FateOf(steps, w, completed, v, i) == MandatoryFailure
    ensures i > Breaks(steps, w, completed, v, upTo) ==> FateOf(steps, w, completed, v, i) != MandatoryFailure
    decreases upTo
  {
    if i < upTo - 1 {
      BreaksLast(steps, w, completed, v, upTo - 1, i);
    }
  }

  /** Step numbers handed to the compensation closure, in order, down to position `from`. */
  function Calls(steps: seq<SagaStep>, w: World, completed: seq<nat>, v: Verdict, from: nat): seq<nat>
    requires from <= |completed| && v.Undo?
    decreases |completed| - from
  {
    if from == |completed| then []
    else
      var s := FindStep(steps, completed[from]);
      Calls(steps, w, completed, v, from + 1)
      + if FateOf(steps, w, completed, v, from) != Preserved && s.Some? && s.value.compensation.Some?
        then [completed[from]] else []
  }

  /** The outcome of compensating `completed` after position k failed. */
  function UndoResult(steps: seq<SagaStep>, w: World, k: nat, v: Verdict): Result<SagaOutcome, SagaError>
    requires k < |steps| && v.Undo?
  {
    var completed := CompletedBy(steps, w, k);
    var j := Breaks(steps, w, completed, v, |completed|);
    if j >= 0 then Err(MandatoryCompensationFailed(completed[j]))
    else Ok(Failed(steps[k].step, v.action,
                   Select(steps, w, completed, v, 0, Compensated), Select(steps, w, completed, v, 0, Preserved)))
  }

  /** Outcome and final state when position k ends the saga. */
  function Stopped(steps: seq<SagaStep>, w: World, k: nat): (Result<SagaOutcome, SagaError>, SagaState)
    requires k < |steps|
  {
    var v := VerdictOf(steps, w, k);
    match v
    case Undo(action, _) =>
      var r := UndoResult(steps, w, k, v);
      (r, if r.Ok? then SagaFailed else if action == FullCompensation then FullCompensating else PartialCompensating)
    case Paused => (Ok(PendingUser(steps[k].step)), WaitingForInput)
    case _ => (Ok(Failed(steps[k].step, RetryWithAlternative, [], [])), SagaFailed)
  }

  /** Compensation calls made when position k ends the saga. */
  function StopCalls(steps: seq<SagaStep>, w: World, k: nat): seq<nat>
    requires k < |steps|
  {
    var v := VerdictOf(steps, w, k);
    if !v.Undo? then []
    else
      var completed := CompletedBy(steps, w, k);
      var j := Breaks(steps, w, completed, v, |completed|);
      Calls(steps, w, completed, v, if j >= 0 then j else 0)
  }

  /** The whole saga, without its loop: outcome and final state. */
  function Outcome(steps: seq<SagaStep>, w: World): (Result<SagaOutcome, SagaError>, SagaState) {
    var k := StopAt(steps, w, 0);
    if k == |steps| then (Ok(Completed(CompletedBy(steps, w, k))), SagaCompleted) else Stopped(steps, w, k)
  }

  /** Positions handed to the step closure by the first k positions. */
  function RunsBy(steps: seq<SagaStep>, w: World, k: nat): seq<nat>
    requires k <= |steps|
  {
    if k == 0 then [] else RunsBy(steps, w, k - 1) + if Retried(steps, w, k - 1) then [k - 1, k - 1] else [k - 1]
  }

  predicate Retried(steps: seq<SagaStep>, w: World, i: nat)
    requires i < |steps|
  {
    match w.run(i, 0)
    case StepOk => false
    case FailedWithTag(tag) => Decide(tag, steps[i].onFailure).Action() == RetryWithAlternative
  }

  class SagaExecutor {
    var state: SagaState

    constructor ()
      ensures state == Initiated
    {
      state := Initiated;
    }

    /** Walk the completed steps backwards, compensating those that are not preserved. */
    method Compensate(steps: seq<SagaStep>, w: World, completed: seq<nat>, action: RecoveryAction, preserve: set<nat>)
      returns (compensated: seq<nat>, preserved: seq<nat>, broken: Option<nat>, ghost calls: seq<nat>)
      requires forall n :: n in completed ==> FindStep(steps, n).Some?
      ensures var v := Undo(action, preserve);
              var j := Breaks(steps, w, completed, v, |completed|);
              if j >= 0 then
                broken == Some(completed[j]) && calls == Calls(steps, w, completed, v, j)
              else
                && broken == None && calls == Calls(steps, w, completed, v, 0)
                && compensated == Select(steps, w, completed, v, 0, Compensated)
                && preserved == Select(steps, w, completed, v, 0, Preserved)
    {
      ghost var v := Undo(action, preserve);
      compensated, preserved, broken, calls := [], [], None, [];
      var j := |completed|;
      while j > 0
        invariant 0 <= j <= |completed|
        invariant compensated == Select(steps, w, completed, v, j, Compensated)
        invariant preserved == Select(steps, w, completed, v, j, Preserved)
        invariant calls == Calls(steps, w, completed, v, j)
        invariant Breaks(steps, w, completed, v, |completed|) == Breaks(steps, w, completed, v, j)
      {
        j := j - 1;
        var done := completed[j];
        assert done in completed;
        if action == PartialCompensation && done in preserve {
          preserved := preserved + [done];
          continue;
        }
        var doneStep := FindStep(steps, done).value;
        if doneStep.compensation.Some? {
          calls := calls + [done];
        }
        if doneStep.compensation.Some? && !w.undo(j, doneStep) {
          if doneStep.compensationType == Mandatory {
            broken := Some(done);
            return;
          }
        } else {
          compensated := compensated + [done];
        }
      }
    }

    /** Analyse a failed step and act on the selected recovery; `None` lets the saga go on. */
    method Recover(steps: seq<SagaStep>, w: World, i: nat, completed: seq<nat>, tag: string)
      returns (stop: Option<Result<SagaOutcome, SagaError>>, done: bool, ghost retried: bool, ghost calls: seq<nat>)
      requires i < |steps| && completed == CompletedBy(steps, w, i) && w.run(i, 0) == FailedWithTag(tag)
      modifies this
      ensures stop.None? <==> VerdictOf(steps, w, i).Continues()
      ensures stop.None? ==> (done <==> VerdictOf(steps, w, i).Done?) && calls == []
      ensures stop.Some? ==> (stop.value, state) == Stopped(steps, w, i) && calls == StopCalls(steps, w, i)
      ensures retried == Retried(steps, w, i)
    {
      state := StepFailed;
      state := Analyzing;
      var decision := Decide(tag, steps[i].onFailure);
      state := RecoverySelected;
      var action := decision.Action();
      var preserve := decision.Preserve();
      stop, done, retried, calls := None, false, false, [];
      match action
      case FullCompensation | PartialCompensation =>
        state := if action == FullCompensation then FullCompensating else PartialCompensating;
        forall n | n in completed
          ensures FindStep(steps, n).Some?
        {
          CompletedKnown(steps, w, i, n);
        }
        var compensated, preserved, broken;
        compensated, preserved, broken, calls := Compensate(steps, w, completed, action, preserve);
        if broken.Some? {
          stop := Some(Err(MandatoryCompensationFailed(broken.value)));
        } else {
          state := SagaFailed;
          stop := Some(Ok(Failed(steps[i].step, action, compensated, preserved)));
        }
      case PauseAndAskUser =>
        state := WaitingForInput;
        stop := Some(Ok(PendingUser(steps[i].step)));
      case RetryWithAlternative =>
        retried := true;
        if w.run(i, 1) == StepOk {
          done := true;
        } else {
          state := SagaFailed;
          stop := Some(Ok(Failed(steps[i].step, action, [], [])));
        }
      case Skip =>
    }

    method Run(steps: seq<SagaStep>, w: World)
      returns (r: Result<SagaOutcome, SagaError>, ghost runs: seq<nat>, ghost calls: seq<nat>)
      modifies this
      ensures (r, state) == Outcome(steps, w)
      ensures var k := StopAt(steps, w, 0);
              if k < |steps| then runs == RunsBy(steps, w, k + 1) && calls == StopCalls(steps, w, k)
              else runs == RunsBy(steps, w, k) && calls == []
    {
      state := Running;
      var completed: seq<nat> := [];
      runs, calls := [], [];
      for i := 0 to |steps|
        invariant calls == []
        invariant completed == CompletedBy(steps, w, i) && runs == RunsBy(steps, w, i)
        invariant StopAt(steps, w, 0) == StopAt(steps, w, i)
      {
        ghost var earlier := runs;
        runs := runs + [i];
        match w.run(i, 0)
        case StepOk =>
          completed := completed + [steps[i].step];
        case FailedWithTag(tag) =>
          var stop, done;
          ghost var retried;
          stop, done, retried, calls := Recover(steps, w, i, completed, tag);
          if retried {
            assert runs + [i] == earlier + [i, i];
            runs := runs + [i];
          }
          if stop.Some? {
            return stop.value, runs, calls;
          }
          if done {
            completed := completed + [steps[i].step];
          }
      }
      state := SagaCompleted;
      return Ok(Completed(completed)), runs, calls;
    }
  }

  // ---- what the outcome means

  /** How often a position occurs in a list, counted from its end; the multiset says the same in one word. */
  function Times(s: seq<nat>, n: nat): nat {
    if s == [] then 0 else Times(s[..|s| - 1], n) + if s[|s| - 1] == n then 1 else 0
  }

  /** Nothing beyond the stopping position runs; a step before it runs once, or twice when it is retried. */
  function RunsExpected(steps: seq<SagaStep>, w: World, k: nat, i: nat): (n: nat)
    requires k <= |steps|
    ensures n <= 2
  {
    if i >= k then 0 else if Retried(steps, w, i) then 2 else 1
  }

  // ---- what a position comes to, over the step closure and the first matching rule alone

  /** The action and the preserved steps selected for a failure: those of the first rule with its tag, or full
      compensation of everything. */
  ghost predicate Selects(f: Option<OnFailure>, tag: string, action: RecoveryAction, preserve: set<nat>) {
    || (exists i: nat :: f.Some? && FirstMatch(f.value.rules, tag, i)
                         && action == f.value.rules[i].action && preserve == ParsedSteps(f.value.rules[i].preserve))
    || ((f.None? || forall j :: 0 <= j < |f.value.rules| ==> f.value.rules[j].condition != tag)
        && action == FullCompensation && preserve == {})
  }

  /** Exactly one action with its preserved steps is selected, and it is the one decided. */
  lemma DecidesExactly(f: Option<OnFailure>, tag: string, action: RecoveryAction, preserve: set<nat>)
    ensures Selects(f, tag, action, preserve) <==>
            action == Decide(tag, f).Action() && preserve == Decide(tag, f).Preserve()
  {
    if f.Some? {
      FindRuleFirst(f.value.rules, tag);
      var rules := f.value.rules;
      forall i: nat, j: nat | FirstMatch(rules, tag, i) && FirstMatch(rules, tag, j)
        ensures i == j
      {
        FirstMatchUnique(rules, tag, i, j);
      }
    }
  }

  lemma FirstMatchUnique(rules: seq<RecoveryRule>, tag: string, i: nat, j: nat)
    requires FirstMatch(rules, tag, i) && FirstMatch(rules, tag, j)
    ensures i == j
  {
  }

  /** The step fails at first and the given action is selected for it. */
  ghost predicate Answered(steps: seq<SagaStep>, w: World, i: nat, action: RecoveryAction, preserve: set<nat>)
    requires i < |steps|
  {
    w.run(i, 0).FailedWithTag? && Selects(steps[i].onFailure, w.run(i, 0).tag, action, preserve)
  }

  /** The step succeeds, at once or when it is run again on a retry. */
  ghost predicate Succeeds(steps: seq<SagaStep>, w: World, i: nat)
    requires i < |steps|
  {
    w.run(i, 0) == StepOk || (w.run(i, 1) == StepOk && exists p :: Answered(steps, w, i, RetryWithAlternative, p))
  }

  ghost predicate GoesOn(steps: seq<SagaStep>, w: World, i: nat)
    requires i < |steps|
  {
    Succeeds(steps, w, i) || exists p :: Answered(steps, w, i, Skip, p)
  }

  lemma AnsweredExactly(steps: seq<SagaStep>, w: World, i: nat, action: RecoveryAction, preserve: set<nat>)
    requires i < |steps|
    ensures Answered(steps, w, i, action, preserve) <==>
            && w.run(i, 0).FailedWithTag?
            && action == Decide(w.run(i, 0).tag, steps[i].onFailure).Action()
            && preserve == Decide(w.run(i, 0).tag, steps[i].onFailure).Preserve()
  {
    if w.run(i, 0).FailedWithTag? { DecidesExactly(steps[i].onFailure, w.run(i, 0).tag, action, preserve); }
  }

  /** Each verdict, exactly: completed when the step succeeds, skipped, paused, a failed retry, or an undoing with the
      rule's preserved steps. */
  lemma VerdictExactly(steps: seq<SagaStep>, w: World, i: nat)
    requires i < |steps|
    ensures VerdictOf(steps, w, i).Done? <==> Succeeds(steps, w, i)
    ensures VerdictOf(steps, w, i).Skipped? <==> exists p :: Answered(steps, w, i, Skip, p)
    ensures VerdictOf(steps, w, i).Paused? <==> exists p :: Answered(steps, w, i, PauseAndAskUser, p)
    ensures VerdictOf(steps, w, i).RetryFailed? <==>
            w.run(i, 1) != StepOk && exists p :: Answered(steps, w, i, RetryWithAlternative, p)
    ensures forall action, p :: VerdictOf(steps, w, i) == Undo(action, p) <==>
            (action == FullCompensation || action == PartialCompensation) && Answered(steps, w, i, action, p)
  {
    forall action, p
      ensures Answered(steps, w, i, action, p) <==>
              && w.run(i, 0).FailedWithTag?
              && action == Decide(w.run(i, 0).tag, steps[i].onFailure).Action()
              && p == Decide(w.run(i, 0).tag, steps[i].onFailure).Preserve()
    {
      AnsweredExactly(steps, w, i, action, p);
    }
    if w.run(i, 0).FailedWithTag? {
      var d := Decide(w.run(i, 0).tag, steps[i].onFailure);
      assert Answered(steps, w, i, d.Action(), d.Preserve());
    }
  }

  /** The completed numbers are those of the positions that succeed, in order. */
  lemma CompletesExactly(steps: seq<SagaStep>, w: World, k: nat)
    requires k < |steps|
    ensures CompletedBy(steps, w, 0) == []
    ensures CompletedBy(steps, w, k + 1) ==
            CompletedBy(steps, w, k) + if Succeeds(steps, w, k) then [steps[k].step] else []
  {
    VerdictExactly(steps, w, k);
  }

  /** The saga stops at the first position that does not go on. */
  lemma StopsExactly(steps: seq<SagaStep>, w: World, k: nat)
    requires k <= |steps|
    ensures k == StopAt(steps, w, 0) <==>
            && (forall i :: 0 <= i < k ==> GoesOn(steps, w, i))
            && (k < |steps| ==> !GoesOn(steps, w, k))
  {
    var n := StopAt(steps, w, 0);
    forall i | 0 <= i < |steps| && i <= n
      ensures GoesOn(steps, w, i) <==> i < n
    {
      StopAtFirst(steps, w, 0, i);
      VerdictExactly(steps, w, i);
    }
    assert n < |steps| ==> !GoesOn(steps, w, n);
    assert k < n ==> GoesOn(steps, w, k);
  }

  /** Outcome and final state when the saga stops at k without compensating, and when it does not stop. */
  lemma OutcomeExactly(steps: seq<SagaStep>, w: World, k: nat)
    requires k <= |steps| && (forall i :: 0 <= i < k ==> GoesOn(steps, w, i)) && (k < |steps| ==> !GoesOn(steps, w, k))
    ensures k == |steps| ==> Outcome(steps, w) == (Ok(Completed(CompletedBy(steps, w, k))), SagaCompleted)
    ensures k < |steps| ==> forall p ::
              && (Answered(steps, w, k, PauseAndAskUser, p) ==>
                    Outcome(steps, w) == (Ok(PendingUser(steps[k].step)), WaitingForInput))
              && (Answered(steps, w, k, RetryWithAlternative, p) ==>
                    Outcome(steps, w) == (Ok(Failed(steps[k].step, RetryWithAlternative, [], [])), SagaFailed))
              && (Answered(steps, w, k, FullCompensation, p) ==>
                    Outcome(steps, w) == Undone(steps, w, k, FullCompensation, p))
              && (Answered(steps, w, k, PartialCompensation, p) ==>
                    Outcome(steps, w) == Undone(steps, w, k, PartialCompensation, p))
  {
    StopsExactly(steps, w, k);
    if k < |steps| { VerdictExactly(steps, w, k); }
  }

  /** The outcome of a compensation: the first mandatory failure met walking back, in the compensating state, or the
      compensated and the preserved steps. */
  ghost function Undone(steps: seq<SagaStep>, w: World, k: nat, action: RecoveryAction, preserve: set<nat>)
    : (Result<SagaOutcome, SagaError>, SagaState)
    requires k < |steps|
  {
    var completed, v := CompletedBy(steps, w, k), Undo(action, preserve);
    var j := Breaks(steps, w, completed, v, |completed|);
    if j >= 0 then
      (Err(MandatoryCompensationFailed(completed[j])),
       if action == FullCompensation then FullCompensating else PartialCompensating)
    else
      (Ok(Failed(steps[k].step, action, Select(steps, w, completed, v, 0, Compensated),
                 Select(steps, w, completed, v, 0, Preserved))), SagaFailed)
  }

  /** What happens to one completed step: preserved when the partial rule names it; compensated when it has no
      compensation or its compensation succeeds; otherwise its type decides between breaking the saga and carrying
      on. The step is the first one with its number. */
  lemma FateExactly(steps: seq<SagaStep>, w: World, completed: seq<nat>, v: Verdict, j: nat, i: nat)
    requires j < |completed| && v.Undo?
    requires i < |steps| && steps[i].step == completed[j] && forall m :: 0 <= m < i ==> steps[m].step != completed[j]
    ensures var f := FateOf(steps, w, completed, v, j);
            var kept := v.action == PartialCompensation && completed[j] in v.preserve;
            var fails := steps[i].compensation.Some? && !w.undo(j, steps[i]);
            && (f == Preserved <==> kept)
            && (f == Compensated <==> !kept && !fails)
            && (f == MandatoryFailure <==> !kept && fails && steps[i].compensationType.Mandatory?)
            && (f == Uncompensated <==> !kept && fails && !steps[i].compensationType.Mandatory?)
  {
    FindStepFirst(steps, completed[j], i);
  }

  lemma {:induction false} FindStepFirst(steps: seq<SagaStep>, n: nat, i: nat)
    requires i < |steps| && steps[i].step == n && forall m :: 0 <= m < i ==> steps[m].step != n
    ensures FindStep(steps, n) == Some(steps[i])
    decreases |steps|
  {
    if i > 0 {
      var rest := steps[1..];
      assert forall m :: 0 <= m < i - 1 ==> rest[m] == steps[m + 1];
      FindStepFirst(rest, n, i - 1);
    }
  }

  /** A step is run again exactly when a retry is selected for its first failure. */
  lemma RetriedExactly(steps: seq<SagaStep>, w: World, i: nat)
    requires i < |steps|
    ensures Retried(steps, w, i) <==> exists p :: Answered(steps, w, i, RetryWithAlternative, p)
  {
    if w.run(i, 0).FailedWithTag? {
      var d := Decide(w.run(i, 0).tag, steps[i].onFailure);
      AnsweredExactly(steps, w, i, d.Action(), d.Preserve());
      forall p | Answered(steps, w, i, RetryWithAlternative, p)
        ensures d.Action() == RetryWithAlternative
      {
        AnsweredExactly(steps, w, i, RetryWithAlternative, p);
      }
    }
  }

  /** At most two runs per step, the second one only as a retry; none beyond the stopping position. */
  lemma RunsAtMostTwice(steps: seq<SagaStep>, w: World, k: nat, i: nat)
    requires k <= |steps|
    ensures multiset(RunsBy(steps, w, k))[i] == RunsExpected(steps, w, k, i)
  {
    RunsCounted(steps, w, k, i);
    TimesIsCount(RunsBy(steps, w, k), i);
  }

  lemma {:induction false} RunsCounted(steps: seq<SagaStep>, w: World, k: nat, i: nat)
    requires k <= |steps|
    ensures Times(RunsBy(steps, w, k), i) == RunsExpected(steps, w, k, i)
    decreases k
  {
    if k > 0 {
      RunsCounted(steps, w, k - 1, i);
      RunsStep(steps, w, k - 1, i);
      assert RunsExpected(steps, w, k, i) == RunsExpected(steps, w, k - 1, i) + RunsAt(steps, w, k - 1, i);
    }
  }

  function RunsAt(steps: seq<SagaStep>, w: World, k: nat, i: nat): nat
    requires k < |steps|
  {
    if i != k then 0 else if Retried(steps, w, k) then 2 else 1
  }

  lemma RunsStep(steps: seq<SagaStep>, w: World, k: nat, i: nat)
    requires k < |steps|
    ensures Times(RunsBy(steps, w, k + 1), i) ==
            Times(RunsBy(steps, w, k), i) + RunsAt(steps, w, k, i)
  {
    var before, twice := RunsBy(steps, w, k), Retried(steps, w, k);
    assert RunsBy(steps, w, k + 1) == before + if twice then [k, k] else [k];
    CountRuns(before, k, twice, i);
  }

  lemma CountRuns(s: seq<nat>, x: nat, twice: bool, n: nat)
    ensures Times(s + if twice then [x, x] else [x], n) ==
            Times(s, n) + if n != x then 0 else if twice then 2 else 1
  {
    CountAppend(s, x, n);
    CountAppend(s + [x], x, n);
    assert s + [x, x] == s + [x] + [x];
  }

  lemma CountAppend(s: seq<nat>, x: nat, n: nat)
    ensures Times(s + [x], n) == Times(s, n) + if x == n then 1 else 0
  {
    assert (s + [x])[..|s|] == s;
  }

  /** Selecting by fate picks exactly the positions with that fate. */
  lemma {:induction false} SelectMembers(steps: seq<SagaStep>, w: World, completed: seq<nat>, v: Verdict, from: nat, f: Fate, n: nat)
    requires from <= |completed| && v.Undo?
    ensures n in Select(steps, w, completed, v, from, f) <==>
            exists j :: from <= j < |completed| && completed[j] == n && FateOf(steps, w, completed, v, j) == f
    decreases |completed| - from
  {
    if from < |completed| {
      SelectMembers(steps, w, completed, v, from + 1, f, n);
    }
  }

  ghost predicate Later(completed: seq<nat>, from: nat, a: nat, b: nat) {
    exists p, q :: from <= p < q < |completed| && completed[p] == b && completed[q] == a
  }

  /** Reverse completion order: what is selected earlier was completed later. */
  lemma {:induction false} SelectReversed(steps: seq<SagaStep>, w: World, completed: seq<nat>, v: Verdict, from: nat, f: Fate,
                                          a: nat, b: nat)
    requires from <= |completed| && v.Undo? && a < b < |Select(steps, w, completed, v, from, f)|
    ensures Later(completed, from, Select(steps, w, completed, v, from, f)[a], Select(steps, w, completed, v, from, f)[b])
    decreases |completed| - from
  {
    var rest := Select(steps, w, completed, v, from + 1, f);
    if b < |rest| {
      SelectReversed(steps, w, completed, v, from + 1, f, a, b);
    } else {
      assert rest[a] in rest;
      SelectMembers(steps, w, completed, v, from + 1, f, rest[a]);
    }
  }

  /** How often `n` is completed from position `from` on, and how often with a given fate. */
  ghost function Occurrences(completed: seq<nat>, from: nat, n: nat): nat
    requires from <= |completed|
    decreases |completed| - from
  {
    if from == |completed| then 0 else Occurrences(completed, from + 1, n) + if completed[from] == n then 1 else 0
  }

  ghost function Count(steps: seq<SagaStep>, w: World, completed: seq<nat>, v: Verdict, from: nat, f: Fate, n: nat): nat
    requires from <= |completed| && v.Undo?
    decreases |completed| - from
  {
    if from == |completed| then 0
    else
      Count(steps, w, completed, v, from + 1, f, n)
      + if FateOf(steps, w, completed, v, from) == f && completed[from] == n then 1 else 0
  }

  lemma {:induction false} OccurrencesCount(completed: seq<nat>, from: nat, n: nat)
    requires from <= |completed|
    ensures Occurrences(completed, from, n) == multiset(completed[from..])[n]
    decreases |completed| - from
  {
    if from < |completed| {
      OccurrencesCount(completed, from + 1, n);
      assert completed[from..] == [completed[from]] + completed[from + 1..];
    }
  }

  lemma {:induction false} SelectTimes(steps: seq<SagaStep>, w: World, completed: seq<nat>, v: Verdict, from: nat, f: Fate, n: nat)
    requires from <= |completed| && v.Undo?
    ensures Count(steps, w, completed, v, from, f, n) == Times(Select(steps, w, completed, v, from, f), n)
    decreases |completed| - from
  {
    if from < |completed| {
      SelectTimes(steps, w, completed, v, from + 1, f, n);
      var rest := Select(steps, w, completed, v, from + 1, f);
      CountAppend(rest, completed[from], n);
      assert rest + [] == rest;
    }
  }

  /** A compensation that does not break splits the completed steps into compensated, preserved and
      best-effort failures, each completed step in exactly one of them. */
  lemma {:induction false} Partition(steps: seq<SagaStep>, w: World, completed: seq<nat>, v: Verdict, from: nat, n: nat)
    requires from <= |completed| && v.Undo?
    requires forall i :: from <= i < |completed| ==> FateOf(steps, w, completed, v, i) != MandatoryFailure
    ensures Count(steps, w, completed, v, from, Compensated, n)
            + Count(steps, w, completed, v, from, Preserved, n)
            + Count(steps, w, completed, v, from, Uncompensated, n) == Occurrences(completed, from, n)
    decreases |completed| - from
  {
    if from < |completed| {
      Partition(steps, w, completed, v, from + 1, n);
    }
  }

  /** The preserved steps are the completed ones named by the rule, and only under partial compensation. */
  lemma PreservedExactly(steps: seq<SagaStep>, w: World, completed: seq<nat>, v: Verdict, n: nat)
    requires v.Undo?
    ensures n in Select(steps, w, completed, v, 0, Preserved) <==>
            v.action == PartialCompensation && n in completed && n in v.preserve
  {
    SelectMembers(steps, w, completed, v, 0, Preserved, n);
  }

  /** The reading that partial compensation undoes the listed steps and keeps the others holds exactly when nothing was
      completed. */
  lemma UndoesListedExactly(steps: seq<SagaStep>, w: World, completed: seq<nat>, v: Verdict)
    requires v.Undo? && v.action == PartialCompensation
    ensures (forall n :: n in completed ==> (n in Select(steps, w, completed, v, 0, Preserved) <==> n !in v.preserve))
            <==> completed == []
  {
    if completed != [] {
      assert completed[0] in completed;
      PreservedExactly(steps, w, completed, v, completed[0]);
    }
  }

  /** A saga whose second step fails and whose rule lists the first: the listed step is kept, nothing is undone. */
  lemma ListedStepIsKept(first: SagaStep, second: SagaStep, w: World, strategy: string)
    requires first.step <= U32_MAX && w.run(0, 0) == StepOk && w.run(1, 0) == FailedWithTag("t")
    requires second.onFailure == Some(OnFailure(strategy, [RecoveryRule("t", PartialCompensation, [Decimal(first.step)])]))
    ensures Outcome([first, second], w).0 == Ok(Failed(second.step, PartialCompensation, [], [first.step]))
  {
    var steps := [first, second];
    var rules := second.onFailure.value.rules;
    assert FindRule(rules, "t") == Some(rules[0]);
    var names := [Decimal(first.step)];
    ParsePrinted(first.step);
    assert names[0] in names && first.step in ParsedSteps(names);
    assert VerdictOf(steps, w, 0) == Done;
    var v := VerdictOf(steps, w, 1);
    assert v == Undo(PartialCompensation, ParsedSteps(names));
    assert StopAt(steps, w, 1) == 1 && StopAt(steps, w, 0) == 1;
    assert CompletedBy(steps, w, 0) == [] && CompletedBy(steps, w, 1) == [first.step];
    OneKept(steps, w, first.step, v);
  }

  lemma OneKept(steps: seq<SagaStep>, w: World, n: nat, v: Verdict)
    requires v.Undo? && v.action == PartialCompensation && n in v.preserve
    ensures Breaks(steps, w, [n], v, 1) == -1
    ensures Select(steps, w, [n], v, 0, Compensated) == [] && Select(steps, w, [n], v, 0, Preserved) == [n]
  {
    assert FateOf(steps, w, [n], v, 0) == Preserved;
    assert Breaks(steps, w, [n], v, 0) == -1;
    assert Select(steps, w, [n], v, 1, Compensated) == [] && Select(steps, w, [n], v, 1, Preserved) == [];
  }

  /** The compensation closure is called only on completed steps from `from` on, and never on a preserved one. */
  lemma {:induction false} CallsSpare(steps: seq<SagaStep>, w: World, completed: seq<nat>, v: Verdict, from: nat, n: nat)
    requires from <= |completed| && v.Undo? && n in Calls(steps, w, completed, v, from)
    ensures n in completed[from..]
    ensures !(v.action == PartialCompensation && n in v.preserve)
    decreases |completed| - from
  {
    if n in Calls(steps, w, completed, v, from + 1) {
      CallsSpare(steps, w, completed, v, from + 1, n);
      assert completed[from..] == [completed[from]] + completed[from + 1..];
    }
  }

  /** The compensation closure is called exactly on the completed steps, from `from` on, that are not preserved and have
      a compensation. */
  lemma {:induction false} CallsExactly(steps: seq<SagaStep>, w: World, completed: seq<nat>, v: Verdict, from: nat, n: nat)
    requires from <= |completed| && v.Undo?
    ensures n in Calls(steps, w, completed, v, from) <==>
            && n in completed[from..] && !(v.action == PartialCompensation && n in v.preserve)
            && FindStep(steps, n).Some? && FindStep(steps, n).value.compensation.Some?
    decreases |completed| - from
  {
    if from < |completed| {
      CallsExactly(steps, w, completed, v, from + 1, n);
      assert completed[from..] == [completed[from]] + completed[from + 1..];
    }
  }

  ghost predicate DistinctNumbers(steps: seq<SagaStep>) {
    forall i, j :: 0 <= i < j < |steps| ==> steps[i].step != steps[j].step
  }

  lemma {:induction false} CompletedPositions(steps: seq<SagaStep>, w: World, k: nat, n: nat)
    requires k <= |steps|
    ensures n in CompletedBy(steps, w, k) <==>
            exists i :: 0 <= i < k && steps[i].step == n && VerdictOf(steps, w, i).Done?
    decreases k
  {
    if k > 0 {
      CompletedPositions(steps, w, k - 1, n);
    }
  }

  lemma {:induction false} CompletedDistinct(steps: seq<SagaStep>, w: World, k: nat)
    requires k <= |steps| && DistinctNumbers(steps)
    ensures Distinct(CompletedBy(steps, w, k))
    decreases k
  {
    if k > 0 {
      CompletedDistinct(steps, w, k - 1);
      CompletedPositions(steps, w, k - 1, steps[k - 1].step);
    }
  }

  lemma {:induction false} TimesIsCount(s: seq<nat>, n: nat)
    ensures Times(s, n) == multiset(s)[n]
    decreases |s|
  {
    if s != [] {
      TimesIsCount(s[..|s| - 1], n);
      assert s == s[..|s| - 1] + [s[|s| - 1]];
    }
  }

  lemma SelectCount(steps: seq<SagaStep>, w: World, completed: seq<nat>, v: Verdict, f: Fate, n: nat)
    requires v.Undo?
    ensures Count(steps, w, completed, v, 0, f, n) == multiset(Select(steps, w, completed, v, 0, f))[n]
  {
    SelectTimes(steps, w, completed, v, 0, f, n);
    TimesIsCount(Select(steps, w, completed, v, 0, f), n);
  }

  lemma PartitionAll(steps: seq<SagaStep>, w: World, completed: seq<nat>, v: Verdict)
    requires v.Undo? && forall i :: 0 <= i < |completed| ==> FateOf(steps, w, completed, v, i) != MandatoryFailure
    ensures multiset(Select(steps, w, completed, v, 0, Compensated))
            + multiset(Select(steps, w, completed, v, 0, Preserved))
            + multiset(Select(steps, w, completed, v, 0, Uncompensated)) == multiset(completed)
  {
    var a := multiset(Select(steps, w, completed, v, 0, Compensated));
    var b := multiset(Select(steps, w, completed, v, 0, Preserved));
    var c := multiset(Select(steps, w, completed, v, 0, Uncompensated));
    assert completed[0..] == completed;
    forall n: nat
      ensures a[n] + b[n] + c[n] == multiset(completed)[n]
    {
      Partition(steps, w, completed, v, 0, n);
      OccurrencesCount(completed, 0, n);
      SelectCount(steps, w, completed, v, Compensated, n);
      SelectCount(steps, w, completed, v, Preserved, n);
      SelectCount(steps, w, completed, v, Uncompensated, n);
    }
  }

  /** A failing saga with distinct step numbers, all together: the reported lists are disjoint and duplicate
      free, together with the best-effort failures they are exactly the completed steps, and no preserved step
      was handed to the compensation closure. */
  lemma FailedSaga(steps: seq<SagaStep>, w: World, k: nat)
    requires DistinctNumbers(steps) && k < |steps| && k == StopAt(steps, w, 0) && VerdictOf(steps, w, k).Undo?
    requires Outcome(steps, w).0.Ok?
    ensures var v := VerdictOf(steps, w, k);
            var completed := CompletedBy(steps, w, k);
            var lost := Select(steps, w, completed, v, 0, Uncompensated);
            var o := Outcome(steps, w).0.value;
            && o.Failed? && o.failedAt == steps[k].step && o.recovery == v.action && Outcome(steps, w).1 == SagaFailed
            && multiset(o.compensated) + multiset(o.preserved) + multiset(lost) == multiset(completed)
            && Elems(o.compensated) !! Elems(o.preserved) !! Elems(lost)
            && (forall n :: n in o.preserved <==> v.action == PartialCompensation && n in completed && n in v.preserve)
            && (forall n :: n in StopCalls(steps, w, k) ==> n in completed && n !in o.preserved)
  {
    var v := VerdictOf(steps, w, k);
    var completed := CompletedBy(steps, w, k);
    assert completed[0..] == completed;
    var lost := Select(steps, w, completed, v, 0, Uncompensated);
    var o := Outcome(steps, w).0.value;
    forall i | 0 <= i < |completed|
      ensures FateOf(steps, w, completed, v, i) != MandatoryFailure
    {
      BreaksLast(steps, w, completed, v, |completed|, i);
    }
    PartitionAll(steps, w, completed, v);
    CompletedDistinct(steps, w, k);
    forall n
      ensures n in Select(steps, w, completed, v, 0, Preserved) <==>
              v.action == PartialCompensation && n in completed && n in v.preserve
    {
      PreservedExactly(steps, w, completed, v, n);
    }
    FatesDisjoint(steps, w, completed, v);
    forall n | n in StopCalls(steps, w, k)
      ensures n in completed && !(v.action == PartialCompensation && n in v.preserve)
    {
      CallsSpare(steps, w, completed, v, 0, n);
    }
  }

  lemma FatesDisjoint(steps: seq<SagaStep>, w: World, completed: seq<nat>, v: Verdict)
    requires v.Undo? && Distinct(completed)
    ensures Elems(Select(steps, w, completed, v, 0, Compensated))
            !! Elems(Select(steps, w, completed, v, 0, Preserved))
            !! Elems(Select(steps, w, completed, v, 0, Uncompensated))
  {
    forall f, g, n | f != g && n in Select(steps, w, completed, v, 0, f)
      ensures n !in Select(steps, w, completed, v, 0, g)
    {
      SelectMembers(steps, w, completed, v, 0, f, n);
      SelectMembers(steps, w, completed, v, 0, g, n);
    }
  }

  ghost predicate BrokeAt(steps: seq<SagaStep>, w: World, k: nat, completed: seq<nat>, j: nat)
    requires k < |steps| && j < |completed| && VerdictOf(steps, w, k).Undo?
  {
    && Outcome(steps, w).0 == Err(MandatoryCompensationFailed(completed[j]))
    && FateOf(steps, w, completed, VerdictOf(steps, w, k), j) == MandatoryFailure
    && forall i :: 0 <= i < j ==> completed[i] !in StopCalls(steps, w, k)
  }

  /** A mandatory failure stops the unwinding: with distinct numbers no step completed before it was touched. */
  lemma BrokenSaga(steps: seq<SagaStep>, w: World, k: nat) returns (j: nat)
    requires DistinctNumbers(steps) && k < |steps| && k == StopAt(steps, w, 0) && VerdictOf(steps, w, k).Undo?
    requires Outcome(steps, w).0.Err?
    ensures j < |CompletedBy(steps, w, k)| && BrokeAt(steps, w, k, CompletedBy(steps, w, k), j)
  {
    var v := VerdictOf(steps, w, k);
    var completed := CompletedBy(steps, w, k);
    assert Outcome(steps, w).0 == UndoResult(steps, w, k, v);
    j := Breaks(steps, w, completed, v, |completed|);
    BreaksLast(steps, w, completed, v, |completed|, j);
    CompletedDistinct(steps, w, k);
    forall i | 0 <= i < j
      ensures completed[i] !in StopCalls(steps, w, k)
    {
      if completed[i] in Calls(steps, w, completed, v, j) {
        CallsSpare(steps, w, completed, v, j, completed[i]);
        assert false;
      }
    }
  }

  /** The saga ends in a terminal state exactly when it completed or reported a failure. */
  lemma TerminalExactly(steps: seq<SagaStep>, w: World)
    ensures var (r, s) := Outcome(steps, w);
            s == SagaCompleted || s == SagaFailed <==> r.Ok? && !r.value.PendingUser?
  {
    var k := StopAt(steps, w, 0);
    if k < |steps| { StopAtFirst(steps, w, 0, k); }
  }
}
