/** The circuit breaker: a timed three-state machine over a pruned list of failure times. */
module CircuitBreaker {
  import opened Contracts

  datatype BreakerState = Closed | Open | HalfOpen

  /** Durations and times are integers in one unit. */
  datatype BreakerConfig = BreakerConfig(failureThreshold: nat, window: int, cooldown: int)

  datatype Breaker = Breaker(
    state: BreakerState, config: BreakerConfig, failures: seq<int>, openedAt: Option<int>, reason: Option<string>)

  function NewBreaker(config: BreakerConfig): Breaker {
    Breaker(Closed, config, [], None, None)
  }

  /** Times strictly after the cutoff, in order. */
  function After(times: seq<int>, cutoff: int): seq<int> {
    if times == [] then []
    else
      var t := times[|times| - 1];
      After(times[..|times| - 1], cutoff) + if t > cutoff then [t] else []
  }

  /** One call on the breaker; a probe is `allows` or a snapshot, both of which resolve the effective state. */
  datatype Op =
    | Failure(now: int, why: Option<string>)
    | Success(now: int)
    | Probe(now: int)
    | ForceOpen(now: int, because: string)
    | ForceClose(now: int)

  function Pruned(b: Breaker, now: int): Breaker {
    b.(failures := After(b.failures, now - b.config.window))
  }

  function Reset(b: Breaker): Breaker {
    b.(state := Closed, failures := [], openedAt := None, reason := None)
  }

  function Tripped(b: Breaker, now: int, why: Option<string>): Breaker {
    b.(state := Open, openedAt := Some(now), reason := why)
  }

  function Step(b: Breaker, op: Op): Breaker {
    match op
    case Failure(now, why) =>
      var p := Pruned(b, now);
      var f := p.(failures := p.failures + [now]);
      if f.state == HalfOpen || (f.state == Closed && |f.failures| >= f.config.failureThreshold)
      then Tripped(f, now, why) else f
    case Success(now) =>
      var p := Pruned(b, now);
      if p.state == HalfOpen then Reset(p) else p
    case Probe(now) =>
      if b.state == Open && b.openedAt.Some? && now - b.openedAt.value >= b.config.cooldown
      then b.(state := HalfOpen) else b
    case ForceOpen(now, because) => Tripped(b, now, Some(because))
    case ForceClose(_) => Reset(b)
  }

  /** The answer of `allows`. */
  predicate Allowed(b: Breaker, now: int) {
    Step(b, Probe(now)).state != Open
  }

  class BreakerInner {
    var state: BreakerState
    const config: BreakerConfig
    var failures: seq<int>
    var openedAt: Option<int>
    var reason: Option<string>

    ghost function Value(): Breaker
      reads this
    {
      Breaker(state, config, failures, openedAt, reason)
    }

    constructor (config: BreakerConfig)
      ensures Value() == NewBreaker(config)
    {
      this.config := config;
      state, failures, openedAt, reason := Closed, [], None, None;
    }

    /** `Vec::retain` with a strict comparison against the cutoff. */
    method Prune(now: int)
      modifies this`failures
      ensures Value() == Pruned(old(Value()), now)
    {
      var cutoff := now - config.window;
      var kept: seq<int> := [];
      for i := 0 to |failures|
        invariant kept == After(failures[..i], cutoff)
        invariant failures == old(failures)
      {
        assert failures[..i + 1][..i] == failures[..i] && failures[..i + 1][i] == failures[i];
        if failures[i] > cutoff { kept := kept + [failures[i]]; }
      }
      assert failures[..|failures|] == failures;
      failures := kept;
    }

    method RecordFailure(now: int, why: Option<string>) returns (tripped: bool)
      modifies this
      ensures Value() == Step(old(Value()), Failure(now, why))
      ensures tripped <==> old(state) != Open && state == Open
    {
      Prune(now);
      failures := failures + [now];
      if state == HalfOpen {
        state, openedAt, reason := Open, Some(now), why;
        return true;
      }
      if |failures| >= config.failureThreshold && state == Closed {
        state, openedAt, reason := Open, Some(now), why;
        return true;
      }
      return false;
    }

    method RecordSuccess(now: int)
      modifies this
      ensures Value() == Step(old(Value()), Success(now))
    {
      Prune(now);
      if state == HalfOpen {
        state, failures, openedAt, reason := Closed, [], None, None;
      }
    }

    /** Even asking can move the breaker from open to half-open. */
    method EffectiveState(now: int) returns (s: BreakerState)
      modifies this
      ensures Value() == Step(old(Value()), Probe(now)) && s == state
    {
      if state == Open {
        if openedAt.Some? && now - openedAt.value >= config.cooldown {
          state := HalfOpen;
        }
      }
      return state;
    }

    method Allows(now: int) returns (ok: bool)
      modifies this
      ensures Value() == Step(old(Value()), Probe(now)) && (ok <==> Allowed(old(Value()), now))
    {
      var s := EffectiveState(now);
      ok := s != Open;
    }

    method Force(open: bool, now: int, because: string)
      modifies this
      ensures Value() == Step(old(Value()), if open then ForceOpen(now, because) else ForceClose(now))
    {
      if open {
        state, openedAt, reason := Open, Some(now), Some(because);
      } else {
        state, failures, openedAt, reason := Closed, [], None, None;
      }
    }
  }

  // ---- runs

  function RunFrom(b: Breaker, ops: seq<Op>): Breaker {
    if ops == [] then b else Step(RunFrom(b, ops[..|ops| - 1]), ops[|ops| - 1])
  }

  function RunOps(config: BreakerConfig, ops: seq<Op>): Breaker {
    RunFrom(NewBreaker(config), ops)
  }

  /** The clock does not run backwards. */
  ghost predicate Monotone(ops: seq<Op>) {
    forall i, j :: 0 <= i < j < |ops| ==> ops[i].now <= ops[j].now
  }

  // ---- the naive reference: the complete failure history since the last reset

  /** A reset is a forced close, or a success while half-open. */
  function Resets(config: BreakerConfig, ops: seq<Op>, op: Op): bool {
    op.ForceClose? || (op.Success? && RunOps(config, ops).state == HalfOpen)
  }

  function History(config: BreakerConfig, ops: seq<Op>): seq<int> {
    if ops == [] then []
    else
      var init, op := ops[..|ops| - 1], ops[|ops| - 1];
      if Resets(config, init, op) then []
      else History(config, init) + if op.Failure? then [op.now] else []
  }

  /** Time of the last recorded result, when pruning last happened. */
  function LastResult(ops: seq<Op>): Option<int> {
    if ops == [] then None
    else
      var op := ops[|ops| - 1];
      if op.Failure? || op.Success? then Some(op.now) else LastResult(ops[..|ops| - 1])
  }

  /** The kept list is the given history restricted to the window before the last result. */
  ghost predicate Agrees(b: Breaker, history: seq<int>, last: Option<int>) {
    match last
    case None => history == [] && b.failures == []
    case Some(t) => b.failures == After(history, t - b.config.window)
  }

  /** The kept list is the complete history restricted to the latest window. */
  ghost predicate Faithful(config: BreakerConfig, ops: seq<Op>) {
    Agrees(RunOps(config, ops), History(config, ops), LastResult(ops))
  }

  lemma {:induction false} AfterAfter(times: seq<int>, c0: int, c1: int)
    requires c0 <= c1
    ensures After(After(times, c0), c1) == After(times, c1)
    decreases |times|
  {
    if times != [] {
      var init, t := times[..|times| - 1], times[|times| - 1];
      AfterAfter(init, c0, c1);
      var kept := After(init, c0);
      if t > c0 { AfterAppend(kept, t, c1); } else { assert kept + [] == kept; }
    }
  }

  lemma AfterAppend(times: seq<int>, t: int, cutoff: int)
    ensures After(times + [t], cutoff) == After(times, cutoff) + if t > cutoff then [t] else []
  {
    assert (times + [t])[..|times|] == times;
  }

  /** The window keeps every time strictly after the cutoff, as often as it occurs, and no other. */
  lemma {:induction false} AfterCounts(times: seq<int>, cutoff: int, t: int)
    ensures multiset(After(times, cutoff))[t] == if t > cutoff then multiset(times)[t] else 0
    decreases |times|
  {
    if times != [] {
      var n := |times| - 1;
      AfterCounts(times[..n], cutoff, t);
      assert times == times[..n] + [times[n]];
    }
  }

  /** And keeps them in their order. */
  lemma {:induction false} AfterJoins(a: seq<int>, b: seq<int>, cutoff: int)
    ensures After(a + b, cutoff) == After(a, cutoff) + After(b, cutoff)
    decreases |b|
  {
    if b == [] {
      assert a + b == a && After(a, cutoff) + [] == After(a, cutoff);
    } else {
      var n := |b| - 1;
      AfterJoins(a, b[..n], cutoff);
      assert a + b == (a + b[..n]) + [b[n]];
      AfterAppend(a + b[..n], b[n], cutoff);
    }
  }

  lemma {:induction false} LastResultBefore(ops: seq<Op>, now: int)
    requires forall i :: 0 <= i < |ops| ==> ops[i].now <= now
    ensures LastResult(ops).Some? ==> LastResult(ops).value <= now
    decreases |ops|
  {
    if ops != [] {
      LastResultBefore(ops[..|ops| - 1], now);
    }
  }

  /** Pruning at a later time restricts the history to the later window. */
  lemma PruneAgrees(b: Breaker, history: seq<int>, last: Option<int>, now: int)
    requires Agrees(b, history, last) && (last.Some? ==> last.value <= now)
    ensures After(b.failures, now - b.config.window) == After(history, now - b.config.window)
  {
    if last.Some? {
      AfterAfter(history, last.value - b.config.window, now - b.config.window);
    }
  }

  lemma {:induction false} ConfigFixed(b: Breaker, ops: seq<Op>)
    ensures RunFrom(b, ops).config == b.config
    decreases |ops|
  {
    if ops != [] {
      ConfigFixed(b, ops[..|ops| - 1]);
    }
  }

  /** The effect of one more call on the machine and on the reference. */
  lemma OneMore(config: BreakerConfig, ops: seq<Op>, op: Op)
    ensures RunOps(config, ops + [op]) == Step(RunOps(config, ops), op)
    ensures History(config, ops + [op]) ==
            if Resets(config, ops, op) then [] else History(config, ops) + if op.Failure? then [op.now] else []
    ensures LastResult(ops + [op]) == if op.Failure? || op.Success? then Some(op.now) else LastResult(ops)
  {
    assert (ops + [op])[..|ops|] == ops;
  }

  lemma ResultAgrees(b: Breaker, history: seq<int>, last: Option<int>, op: Op)
    requires Agrees(b, history, last) && (last.Some? ==> last.value <= op.now)
    requires b.config.window > 0 && (op.Failure? || op.Success?)
    ensures var h := if op.Success? && b.state == HalfOpen then [] else history + if op.Failure? then [op.now] else [];
            Agrees(Step(b, op), h, Some(op.now))
  {
    PruneAgrees(b, history, last, op.now);
    if op.Failure? {
      FailureAgrees(b, history, op.now, op.why);
    } else {
      assert history + [] == history;
    }
  }

  lemma FailureAgrees(b: Breaker, history: seq<int>, now: int, why: Option<string>)
    requires After(b.failures, now - b.config.window) == After(history, now - b.config.window) && b.config.window > 0
    ensures Step(b, Failure(now, why)).failures == After(history + [now], now - b.config.window)
    ensures Step(b, Failure(now, why)).config == b.config
  {
    AfterAppend(history, now, now - b.config.window);
  }

  lemma FaithfulResult(config: BreakerConfig, ops: seq<Op>, op: Op)
    requires config.window > 0 && Faithful(config, ops) && (op.Failure? || op.Success?)
    requires LastResult(ops).Some? ==> LastResult(ops).value <= op.now
    ensures Faithful(config, ops + [op])
  {
    OneMore(config, ops, op);
    ConfigFixed(NewBreaker(config), ops);
    ResultAgrees(RunOps(config, ops), History(config, ops), LastResult(ops), op);
  }

  lemma FaithfulOther(config: BreakerConfig, ops: seq<Op>, op: Op)
    requires Faithful(config, ops) && !op.Failure? && !op.Success?
    ensures Faithful(config, ops + [op])
  {
    OneMore(config, ops, op);
    var h := History(config, ops);
    assert h + [] == h;
  }

  /** Under a clock that does not run backwards and a positive window, pruning loses nothing that counts. */
  lemma {:induction false} ListMatchesHistory(config: BreakerConfig, ops: seq<Op>)
    requires config.window > 0 && Monotone(ops)
    ensures Faithful(config, ops)
    decreases |ops|
  {
    if ops != [] {
      var init, op := ops[..|ops| - 1], ops[|ops| - 1];
      assert ops == init + [op];
      ListMatchesHistory(config, init);
      if op.Failure? || op.Success? {
        LastResultBefore(init, op.now);
        FaithfulResult(config, init, op);
      } else {
        FaithfulOther(config, init, op);
      }
    }
  }

  /** With no window to speak of, the failure just recorded is listed although no window contains it. */
  lemma EmptyWindowLists(config: BreakerConfig)
    requires config.window <= 0
    ensures !Faithful(config, [Failure(0, None)])
  {
    var op := Failure(0, None);
    OneMore(config, [], op);
    assert [] + [op] == [op];
    AfterAppend([], 0, -config.window);
    assert After([], -config.window) + [] == [];
    assert [] + [0] == [0];
    FirstFailureListed(config);
    assert History(config, [op]) == [0] && LastResult([op]) == Some(0);
  }

  lemma FirstFailureListed(config: BreakerConfig)
    ensures RunOps(config, [Failure(0, None)]).failures == [0]
    ensures RunOps(config, [Failure(0, None)]).config == config
  {
    var op := Failure(0, None);
    OneMore(config, [], op);
    assert [] + [op] == [op];
    assert After([], -config.window) == [];
  }

  /** The positive window is exactly what it takes. */
  lemma WindowExactly(config: BreakerConfig)
    ensures (forall ops :: Monotone(ops) ==> Faithful(config, ops)) <==> config.window > 0
  {
    if config.window > 0 {
      forall ops | Monotone(ops)
        ensures Faithful(config, ops)
      {
        ListMatchesHistory(config, ops);
      }
    } else {
      EmptyWindowLists(config);
      assert Monotone([Failure(0, None)]);
    }
  }

  lemma TripsOnCount(b: Breaker, history: seq<int>, last: Option<int>, now: int, why: Option<string>)
    requires b.state == Closed && Agrees(b, history, last) && (last.Some? ==> last.value <= now)
    requires b.config.window > 0
    ensures Step(b, Failure(now, why)).state == Open <==>
            |After(history + [now], now - b.config.window)| >= b.config.failureThreshold
  {
    PruneAgrees(b, history, last, now);
    AfterAppend(history, now, now - b.config.window);
  }

  /** A closed breaker trips on a failure exactly when the naive count over the complete history, the new
      failure included, reaches the threshold. */
  lemma TripsExactly(config: BreakerConfig, ops: seq<Op>, now: int, why: Option<string>)
    requires config.window > 0 && Monotone(ops) && (forall i :: 0 <= i < |ops| ==> ops[i].now <= now)
    requires RunOps(config, ops).state == Closed
    ensures Step(RunOps(config, ops), Failure(now, why)).state == Open <==>
            |After(History(config, ops) + [now], now - config.window)| >= config.failureThreshold
  {
    ListMatchesHistory(config, ops);
    ConfigFixed(NewBreaker(config), ops);
    LastResultBefore(ops, now);
    TripsOnCount(RunOps(config, ops), History(config, ops), LastResult(ops), now, why);
  }

  /** "Trips when the count exceeds the threshold" decides a failure as the code does exactly when the count is not
      the threshold itself. */
  lemma ExceedsExactly(config: BreakerConfig, ops: seq<Op>, now: int, why: Option<string>)
    requires config.window > 0 && Monotone(ops) && (forall i :: 0 <= i < |ops| ==> ops[i].now <= now)
    requires RunOps(config, ops).state == Closed
    ensures var count := |After(History(config, ops) + [now], now - config.window)|;
            (Step(RunOps(config, ops), Failure(now, why)).state == Open <==> count > config.failureThreshold)
            <==> count != config.failureThreshold
  {
    TripsExactly(config, ops, now, why);
  }

  ghost predicate BelowThreshold(b: Breaker) {
    b.state == Closed ==> |b.failures| < b.config.failureThreshold
  }

  lemma {:induction false} AfterShrinks(times: seq<int>, cutoff: int)
    ensures |After(times, cutoff)| <= |times|
    decreases |times|
  {
    if times != [] {
      AfterShrinks(times[..|times| - 1], cutoff);
    }
  }

  lemma {:induction false} ClosedBelow(config: BreakerConfig, ops: seq<Op>)
    requires config.failureThreshold >= 1
    ensures BelowThreshold(RunOps(config, ops))
    decreases |ops|
  {
    if ops != [] {
      var init, op := ops[..|ops| - 1], ops[|ops| - 1];
      ClosedBelow(config, init);
      ConfigFixed(NewBreaker(config), init);
      AfterShrinks(RunOps(config, init).failures, op.now - config.window);
    }
  }

  /** Closed means fewer listed failures than the threshold, on every run, exactly for a threshold of at least one. */
  lemma ThresholdExactly(config: BreakerConfig)
    ensures (forall ops :: BelowThreshold(RunOps(config, ops))) <==> config.failureThreshold >= 1
  {
    if config.failureThreshold >= 1 {
      forall ops
        ensures BelowThreshold(RunOps(config, ops))
      {
        ClosedBelow(config, ops);
      }
    } else {
      assert !BelowThreshold(RunOps(config, []));
    }
  }

  /** An opening time is kept exactly while the breaker is not closed. */
  lemma {:induction false} OpenedAtExactly(config: BreakerConfig, ops: seq<Op>)
    ensures RunOps(config, ops).openedAt.Some? <==> RunOps(config, ops).state != Closed
    decreases |ops|
  {
    if ops != [] {
      OpenedAtExactly(config, ops[..|ops| - 1]);
    }
  }

  /** Once open since t, no call before t + cooldown gets through, unless an operator closes the breaker. */
  lemma {:induction false} RefusedDuringCooldown(b: Breaker, t: int, ops: seq<Op>, now: int)
    requires b.state == Open && b.openedAt == Some(t)
    requires forall i :: 0 <= i < |ops| ==> !ops[i].ForceClose? && t <= ops[i].now < t + b.config.cooldown
    requires t <= now < t + b.config.cooldown
    ensures var s := RunFrom(b, ops);
            && s.state == Open && s.openedAt.Some? && s.openedAt.value >= t
            && !Allowed(s, now)
    decreases |ops|
  {
    ConfigFixed(b, ops);
    if ops != [] {
      var init, op := ops[..|ops| - 1], ops[|ops| - 1];
      assert forall i :: 0 <= i < |init| ==> init[i] == ops[i];
      RefusedDuringCooldown(b, t, init, op.now);
      ConfigFixed(b, init);
    }
  }

  /** Without an operator's close, an open breaker closes only by a success while half-open. */
  lemma {:induction false} ClosesThroughHalfOpen(b: Breaker, ops: seq<Op>) returns (j: nat)
    requires b.state != Closed && RunFrom(b, ops).state == Closed
    requires forall i :: 0 <= i < |ops| ==> !ops[i].ForceClose?
    ensures j < |ops| && ops[j].Success? && RunFrom(b, ops[..j]).state == HalfOpen
    decreases |ops|
  {
    var n := |ops| - 1;
    var init := ops[..n];
    assert forall i :: 0 <= i < |init| ==> init[i] == ops[i];
    if RunFrom(b, init).state == Closed {
      j := ClosesThroughHalfOpen(b, init);
      assert init[..j] == ops[..j];
    } else {
      j := n;
    }
  }

  /** And it becomes half-open only when a call asks after the cooldown. */
  lemma {:induction false} HalfOpensAfterCooldown(b: Breaker, ops: seq<Op>) returns (j: nat)
    requires b.state != HalfOpen && RunFrom(b, ops).state == HalfOpen
    ensures j < |ops| && ops[j].Probe?
    ensures var s := RunFrom(b, ops[..j]);
            s.state == Open && s.openedAt.Some? && ops[j].now >= s.openedAt.value + b.config.cooldown
    decreases |ops|
  {
    var n := |ops| - 1;
    var init := ops[..n];
    ConfigFixed(b, init);
    if RunFrom(b, init).state == HalfOpen {
      j := HalfOpensAfterCooldown(b, init);
      assert init[..j] == ops[..j];
    } else {
      j := n;
    }
  }

  /** Half-open lets every call through until a result arrives, not just one. */
  lemma {:induction false} HalfOpenAllowsEveryProbe(b: Breaker, ops: seq<Op>, now: int)
    requires b.state == HalfOpen && forall i :: 0 <= i < |ops| ==> ops[i].Probe?
    ensures RunFrom(b, ops) == b && Allowed(RunFrom(b, ops), now)
    decreases |ops|
  {
    if ops != [] {
      assert forall i :: 0 <= i < |ops| - 1 ==> ops[..|ops| - 1][i] == ops[i];
      HalfOpenAllowsEveryProbe(b, ops[..|ops| - 1], now);
    }
  }

  /** Under every configuration some history, on a clock that does not run backwards, lets any number of requests
      through while half-open. */
  lemma ManyProbesPass(config: BreakerConfig, probes: seq<Op>, now: int) returns (ops: seq<Op>)
    requires forall i :: 0 <= i < |probes| ==> probes[i].Probe?
    ensures Monotone(ops)
    ensures RunOps(config, ops).state == HalfOpen && Allowed(RunFrom(RunOps(config, ops), probes), now)
  {
    var trip, wait := ForceOpen(0, ""), Probe(if config.cooldown >= 0 then config.cooldown else 0);
    OneMore(config, [], trip);
    OneMore(config, [trip], wait);
    ops := [] + [trip] + [wait];
    assert [] + [trip] == [trip];
    ConfigFixed(NewBreaker(config), [trip]);
    HalfOpenAllowsEveryProbe(RunOps(config, ops), probes, now);
  }

  // ---- a failure that trips on reaching the threshold

  function Zeros(n: nat): (times: seq<int>)
    ensures |times| == n
  {
    if n == 0 then [] else Zeros(n - 1) + [0]
  }

  lemma {:induction false} ZerosCount(n: nat, cutoff: int)
    requires cutoff < 0
    ensures After(Zeros(n), cutoff) == Zeros(n)
  {
    if n > 0 {
      ZerosCount(n - 1, cutoff);
      AfterAppend(Zeros(n - 1), 0, cutoff);
    }
  }

  /** A history of n failures at time zero, too few to trip. */
  lemma {:induction false} SomeFailures(config: BreakerConfig, n: nat) returns (ops: seq<Op>)
    requires config.window > 0 && n < config.failureThreshold
    ensures forall i :: 0 <= i < |ops| ==> ops[i] == Failure(0, None)
    ensures Listed(config, ops, n)
    decreases n
  {
    if n == 0 {
      ops := [];
    } else {
      var before := SomeFailures(config, n - 1);
      FailureListed(config, before, n - 1);
      ops := before + [Failure(0, None)];
    }
  }

  /** The breaker is closed and lists n failures at time zero, as does the history. */
  ghost predicate Listed(config: BreakerConfig, ops: seq<Op>, n: nat) {
    var b := RunOps(config, ops);
    b.state == Closed && b.failures == Zeros(n) && b.config == config && History(config, ops) == Zeros(n)
  }

  lemma FailureListed(config: BreakerConfig, ops: seq<Op>, n: nat)
    requires config.window > 0 && n + 1 < config.failureThreshold && Listed(config, ops, n)
    ensures Listed(config, ops + [Failure(0, None)], n + 1)
  {
    OneMore(config, ops, Failure(0, None));
    NextFailureListed(RunOps(config, ops), n);
  }

  lemma NextFailureListed(b: Breaker, n: nat)
    requires b.state == Closed && b.failures == Zeros(n) && b.config.window > 0 && n + 1 < b.config.failureThreshold
    ensures Step(b, Failure(0, None)) == b.(failures := Zeros(n + 1))
  {
    ZerosCount(n, -b.config.window);
  }

  /** For every positive window and threshold some history brings the count exactly to the threshold, and the breaker
      trips although the count does not exceed it. */
  lemma TripsWithoutExceeding(config: BreakerConfig) returns (ops: seq<Op>)
    requires config.window > 0 && config.failureThreshold >= 1
    ensures Monotone(ops) && (forall i :: 0 <= i < |ops| ==> ops[i].now <= 0) && RunOps(config, ops).state == Closed
    ensures |After(History(config, ops) + [0], 0 - config.window)| == config.failureThreshold
    ensures Step(RunOps(config, ops), Failure(0, None)).state == Open
  {
    ops := SomeFailures(config, config.failureThreshold - 1);
    AllAtZero(ops);
    AtThreshold(config, ops);
  }

  lemma AllAtZero(ops: seq<Op>)
    requires forall i :: 0 <= i < |ops| ==> ops[i] == Failure(0, None)
    ensures Monotone(ops) && forall i :: 0 <= i < |ops| ==> ops[i].now <= 0
  {
  }

  lemma AtThreshold(config: BreakerConfig, ops: seq<Op>)
    requires config.window > 0 && config.failureThreshold >= 1 && Listed(config, ops, config.failureThreshold - 1)
    ensures RunOps(config, ops).state == Closed && Step(RunOps(config, ops), Failure(0, None)).state == Open
    ensures |After(History(config, ops) + [0], 0 - config.window)| == config.failureThreshold
  {
    var n := config.failureThreshold - 1;
    NextFailureTrips(RunOps(config, ops), n);
    CountsThere(History(config, ops), n, 0 - config.window);
  }

  lemma CountsThere(history: seq<int>, n: nat, cutoff: int)
    requires history == Zeros(n) && cutoff < 0
    ensures |After(history + [0], cutoff)| == n + 1
  {
    OneMoreCounts(n, cutoff);
  }

  lemma OneMoreCounts(n: nat, cutoff: int)
    requires cutoff < 0
    ensures |After(Zeros(n) + [0], cutoff)| == n + 1
  {
    ZerosCount(n, cutoff);
    AfterAppend(Zeros(n), 0, cutoff);
  }

  lemma NextFailureTrips(b: Breaker, n: nat)
    requires b.state == Closed && b.failures == Zeros(n) && b.config.window > 0 && b.config.failureThreshold == n + 1
    ensures Step(b, Failure(0, None)).state == Open
  {
    ZerosCount(n, -b.config.window);
  }

  // ---- every way out of every state, on every run

  ghost predicate OpenSince(b: Breaker, t: int, why: Option<string>) {
    b.state == Open && b.openedAt == Some(t) && b.reason == why
  }

  ghost predicate IsReset(b: Breaker) {
    b.state == Closed && b.failures == [] && b.openedAt == None && b.reason == None
  }

  /** From half-open a failure reopens with its own time and reason, a success or an operator's close resets, an
      operator's trip reopens, and a probe changes nothing. */
  lemma HalfOpenLeaves(config: BreakerConfig, ops: seq<Op>, op: Op)
    requires RunOps(config, ops).state == HalfOpen
    ensures var b := RunOps(config, ops + [op]);
            match op
            case Failure(now, why) => OpenSince(b, now, why)
            case Success(_) => IsReset(b)
            case Probe(_) => b == RunOps(config, ops)
            case ForceOpen(now, because) => OpenSince(b, now, Some(because))
            case ForceClose(_) => IsReset(b)
  {
    OneMore(config, ops, op);
  }

  /** After a failure while half-open every request before the cooldown has passed is refused, whatever happens in
      between short of an operator's close. */
  lemma HalfOpenFailureRefuses(config: BreakerConfig, ops: seq<Op>, t: int, why: Option<string>, rest: seq<Op>, now: int)
    requires RunOps(config, ops).state == HalfOpen
    requires forall i :: 0 <= i < |rest| ==> !rest[i].ForceClose? && t <= rest[i].now < t + config.cooldown
    requires t <= now < t + config.cooldown
    ensures !Allowed(RunFrom(RunOps(config, ops + [Failure(t, why)]), rest), now)
  {
    var b := RunOps(config, ops + [Failure(t, why)]);
    HalfOpenLeaves(config, ops, Failure(t, why));
    ConfigFixed(NewBreaker(config), ops + [Failure(t, why)]);
    RefusedDuringCooldown(b, t, rest, now);
  }

  /** From open an operator's close resets, an operator's trip starts over, a probe after the cooldown half-opens, and
      nothing else moves the state, the opening time or the reason. */
  lemma OpenLeaves(config: BreakerConfig, ops: seq<Op>, op: Op)
    requires RunOps(config, ops).state == Open
    ensures var a, b := RunOps(config, ops), RunOps(config, ops + [op]);
            && a.openedAt.Some?
            && match op
               case ForceClose(_) => IsReset(b)
               case ForceOpen(now, because) => OpenSince(b, now, Some(because))
               case Probe(now) =>
                 && b.state == (if now >= a.openedAt.value + config.cooldown then HalfOpen else Open)
                 && b.openedAt == a.openedAt && b.reason == a.reason && b.failures == a.failures
               case _ => OpenSince(b, a.openedAt.value, a.reason)
  {
    OneMore(config, ops, op);
    OpenedAtExactly(config, ops);
    ConfigFixed(NewBreaker(config), ops);
  }

  /** From closed a failure that brings the count over the complete history to the threshold opens with its own time
      and reason, an operator's trip opens, and everything else leaves the breaker closed without opening time or
      reason. */
  lemma ClosedLeaves(config: BreakerConfig, ops: seq<Op>, op: Op)
    requires config.window > 0 && Monotone(ops) && (forall i :: 0 <= i < |ops| ==> ops[i].now <= op.now)
    requires RunOps(config, ops).state == Closed
    ensures var b := RunOps(config, ops + [op]);
            match op
            case Failure(now, why) =>
              if |After(History(config, ops) + [now], now - config.window)| >= config.failureThreshold
              then OpenSince(b, now, why)
              else b.state == Closed && b.openedAt == None && b.reason == None
            case ForceOpen(now, because) => OpenSince(b, now, Some(because))
            case _ => b.state == Closed && b.openedAt == None && b.reason == None
  {
    OneMore(config, ops, op);
    ClosedHasNoReason(config, ops);
    if op.Failure? { TripsExactly(config, ops, op.now, op.why); }
  }

  lemma {:induction false} ClosedHasNoReason(config: BreakerConfig, ops: seq<Op>)
    ensures RunOps(config, ops).state == Closed ==> RunOps(config, ops).openedAt == None && RunOps(config, ops).reason == None
    decreases |ops|
  {
    if ops != [] { ClosedHasNoReason(config, ops[..|ops| - 1]); }
  }
}
