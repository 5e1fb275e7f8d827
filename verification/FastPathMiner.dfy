/** Mining recurring agent-assisted patterns into proposed fast-path rules. */
module FastPathMiner {
  import opened Contracts
  import opened Numerals
  import opened Ordering
  import Trace
  import Executor
  import GraphValidation
  import RuntimeTypes

  datatype MinerConfig = MinerConfig(threshold: nat, minDistinctSessions: nat)

  datatype PatternKey = PatternKey(intentType: string, domain: string, constraintKeys: seq<string>)

  datatype PatternEvidence = PatternEvidence(intentIds: seq<string>, sessions: set<string>)

  datatype LearnedRule = LearnedRule(id: string, evidence: seq<string>, scope: string)

  predicate Contains(s: string, t: string) {
    exists i :: 0 <= i <= |s| - |t| && s[i..][..|t|] == t
  }

  predicate Mined(o: Trace.Observation) {
    o.status == Some(Trace.Succeeded) && Contains(o.reasoning, "Agent")
  }

  function KeyOf(o: Trace.Observation): PatternKey {
    PatternKey("AgentAssisted", o.agent, [o.nodeId])
  }

  function RuleId(items: nat, sessions: nat): string {
    "lr-fp-" + Decimal(items) + "-" + Decimal(sessions)
  }

  function Propose(ids: seq<string>): LearnedRule
    requires ids != []
  {
    LearnedRule(RuleId(|ids|, |Elems(ids)|), ids, ids[0])
  }

  // ---- one observation on a simple state: pending trace ids per pattern, no session sets

  datatype MinerState = MinerState(pending: map<PatternKey, seq<string>>, proposals: seq<LearnedRule>) {
    function At(k: PatternKey): seq<string> {
      if k in pending then pending[k] else []
    }
  }

  /** Enough items from enough distinct sessions. */
  predicate Mature(c: MinerConfig, ids: seq<string>) {
    |ids| >= c.threshold && |Elems(ids)| >= c.minDistinctSessions
  }

  function Step(c: MinerConfig, s: MinerState, o: Trace.Observation): MinerState {
    if !Mined(o) then s
    else
      var k := KeyOf(o);
      var ids := s.At(k) + [o.traceId];
      if Mature(c, ids) then MinerState(s.pending[k := []], s.proposals + [Propose(ids)])
      else s.(pending := s.pending[k := ids])
  }

  /** The pending ids behind the evidence. */
  ghost function IdsOf(patterns: map<PatternKey, PatternEvidence>): map<PatternKey, seq<string>> {
    map k | k in patterns :: patterns[k].intentIds
  }

  lemma FiledIds(patterns: map<PatternKey, PatternEvidence>, k: PatternKey, evidence: PatternEvidence)
    ensures IdsOf(patterns[k := evidence]) == IdsOf(patterns)[k := evidence.intentIds]
  {
  }

  /** An observation changes nothing exactly unless it succeeded and its text names an agent. */
  lemma IgnoredExactly(c: MinerConfig, s: MinerState, o: Trace.Observation)
    ensures Step(c, s, o) == s <==> o.status != Some(Trace.Succeeded) || !Contains(o.reasoning, "Agent")
  {
    var k := KeyOf(o);
    var ids := s.At(k) + [o.traceId];
    if o.status == Some(Trace.Succeeded) && Contains(o.reasoning, "Agent") {
      assert |Step(c, s, o).proposals| > |s.proposals| || |Step(c, s, o).At(k)| > |s.At(k)|;
    }
  }

  /** Two observations belong to one pattern exactly when agent and node agree. */
  lemma PatternExactly(a: Trace.Observation, b: Trace.Observation)
    ensures KeyOf(a) == KeyOf(b) <==> a.agent == b.agent && a.nodeId == b.nodeId
  {
    assert [a.nodeId][0] == a.nodeId && [b.nodeId][0] == b.nodeId;
  }

  class FastPathMiner {
    const config: MinerConfig
    var patterns: map<PatternKey, PatternEvidence>
    var proposals: seq<LearnedRule>

    /** The session set repeats the pending ids without their order. */
    ghost predicate Valid()
      reads this
    {
      forall k :: k in patterns ==> patterns[k].sessions == Elems(patterns[k].intentIds)
    }

    ghost function State(): MinerState
      reads this
    {
      MinerState(IdsOf(patterns), proposals)
    }

    constructor (config: MinerConfig)
      ensures Valid() && this.config == config && State() == MinerState(map[], [])
    {
      this.config, patterns, proposals := config, map[], [];
    }

    method OnObservation(o: Trace.Observation)
      requires Valid()
      modifies this
      ensures Valid() && State() == Step(config, old(State()), o)
    {
      if o.status != Some(Trace.Succeeded) { return; }
      if !Contains(o.reasoning, "Agent") { return; }
      var k := KeyOf(o);
      var evidence := if k in patterns then patterns[k] else PatternEvidence([], {});
      evidence := PatternEvidence(evidence.intentIds + [o.traceId], evidence.sessions + {o.traceId});
      assert evidence.sessions == Elems(evidence.intentIds);
      if |evidence.intentIds| >= config.threshold && |evidence.sessions| >= config.minDistinctSessions {
        var id := RuleId(|evidence.intentIds|, |evidence.sessions|);
        proposals := proposals + [LearnedRule(id, evidence.intentIds, evidence.intentIds[0])];
        evidence := PatternEvidence([], {});
      }
      FiledIds(patterns, k, evidence);
      patterns := patterns[k := evidence];
    }

    /** Feed a whole stream of observations. */
    method Observe(stream: seq<Trace.Observation>)
      requires Valid() && State() == MinerState(map[], [])
      modifies this
      ensures Valid() && State() == Run(config, stream)
    {
      assert stream[..0] == [];
      for i := 0 to |stream|
        invariant Valid() && State() == Run(config, stream[..i])
      {
        assert stream[..i + 1] == stream[..i] + [stream[i]];
        RunStep(config, stream[..i], stream[i]);
        OnObservation(stream[i]);
      }
      assert stream[..|stream|] == stream;
    }
  }

  // ---- whole streams

  function Run(c: MinerConfig, h: seq<Trace.Observation>): MinerState {
    if h == [] then MinerState(map[], []) else Step(c, Run(c, h[..|h| - 1]), h[|h| - 1])
  }

  lemma RunStep(c: MinerConfig, h: seq<Trace.Observation>, o: Trace.Observation)
    ensures Run(c, h + [o]) == Step(c, Run(c, h), o)
  {
    assert (h + [o])[..|h|] == h;
  }

  /** Trace ids of the mined observations of one pattern, in order. */
  function MinedFor(h: seq<Trace.Observation>, k: PatternKey): seq<string> {
    if h == [] then []
    else
      var o := h[|h| - 1];
      MinedFor(h[..|h| - 1], k) + if Mined(o) && KeyOf(o) == k then [o.traceId] else []
  }

  /** The pattern each proposal was made for. */
  function Origins(c: MinerConfig, h: seq<Trace.Observation>): (r: seq<PatternKey>)
    ensures |r| == |Run(c, h).proposals|
  {
    if h == [] then []
    else
      var o := h[|h| - 1];
      var before := Run(c, h[..|h| - 1]);
      Origins(c, h[..|h| - 1]) + if Mined(o) && Mature(c, before.At(KeyOf(o)) + [o.traceId]) then [KeyOf(o)] else []
  }

  /** Evidence of the proposals made for one pattern, joined in order. */
  function EvidenceFor(proposals: seq<LearnedRule>, origins: seq<PatternKey>, k: PatternKey): seq<string>
    requires |proposals| == |origins|
  {
    if proposals == [] then []
    else
      var n := |proposals| - 1;
      EvidenceFor(proposals[..n], origins[..n], k) + if origins[n] == k then proposals[n].evidence else []
  }

  lemma EvidenceAppend(proposals: seq<LearnedRule>, origins: seq<PatternKey>, p: LearnedRule, q: PatternKey, k: PatternKey)
    requires |proposals| == |origins|
    ensures EvidenceFor(proposals + [p], origins + [q], k) ==
            EvidenceFor(proposals, origins, k) + if q == k then p.evidence else []
  {
    assert (proposals + [p])[..|proposals|] == proposals && (origins + [q])[..|origins|] == origins;
  }

  /** Pending ids of a pattern after a mined observation of it. */
  function Cut(c: MinerConfig, ids: seq<string>): seq<string> {
    if Mature(c, ids) then [] else ids
  }

  lemma StepAt(c: MinerConfig, s: MinerState, o: Trace.Observation, k: PatternKey)
    ensures Step(c, s, o).At(k) ==
            if Mined(o) && KeyOf(o) == k then Cut(c, s.At(k) + [o.traceId]) else s.At(k)
  {
  }

  lemma OriginsStep(c: MinerConfig, h: seq<Trace.Observation>, k: PatternKey)
    requires h != []
    ensures var init, o := h[..|h| - 1], h[|h| - 1];
            var ids := Run(c, init).At(KeyOf(o)) + [o.traceId];
            EvidenceFor(Run(c, h).proposals, Origins(c, h), k) ==
            EvidenceFor(Run(c, init).proposals, Origins(c, init), k)
            + if Mined(o) && KeyOf(o) == k && Mature(c, ids) then ids else []
  {
    var init, o := h[..|h| - 1], h[|h| - 1];
    var s, os := Run(c, init), Origins(c, init);
    var ids := s.At(KeyOf(o)) + [o.traceId];
    var e := EvidenceFor(s.proposals, os, k);
    assert e + [] == e;
    if Mined(o) && Mature(c, ids) {
      assert Run(c, h).proposals == s.proposals + [Propose(ids)];
      assert Origins(c, h) == os + [KeyOf(o)];
      EvidenceAppend(s.proposals, os, Propose(ids), KeyOf(o), k);
    } else {
      assert os + [] == os;
      assert Run(c, h).proposals == s.proposals && Origins(c, h) == os;
      assert EvidenceFor(Run(c, h).proposals, Origins(c, h), k) == e;
    }
  }

  lemma Joined(e: seq<string>, p: seq<string>, id: string)
    ensures (e + p) + [id] == e + (p + [id]) == (e + (p + [id])) + []
    ensures e + [] == e
  {
  }

  /** For each pattern, what was mined is what its proposals carry followed by what is pending, in order. */
  lemma {:induction false} PatternConserved(c: MinerConfig, h: seq<Trace.Observation>, k: PatternKey)
    ensures MinedFor(h, k) == EvidenceFor(Run(c, h).proposals, Origins(c, h), k) + Run(c, h).At(k)
    decreases |h|
  {
    if h != [] {
      var init, o := h[..|h| - 1], h[|h| - 1];
      PatternConserved(c, init, k);
      OriginsStep(c, h, k);
      StepAt(c, Run(c, init), o, k);
      Joined(EvidenceFor(Run(c, init).proposals, Origins(c, init), k), Run(c, init).At(k), o.traceId);
    }
  }

  /** How one pattern's ids are cut into proposals: as soon as the ids since the last cut are mature. */
  function Greedy(c: MinerConfig, ids: seq<string>): seq<string> {
    if ids == [] then []
    else
      Cut(c, Greedy(c, ids[..|ids| - 1]) + [ids[|ids| - 1]])
  }

  lemma GreedyAppend(c: MinerConfig, ids: seq<string>, id: string)
    ensures Greedy(c, ids + [id]) == Cut(c, Greedy(c, ids) + [id])
  {
    assert (ids + [id])[..|ids|] == ids;
  }

  /** What is pending for a pattern depends on that pattern's own observations alone. */
  lemma {:induction false} PatternsIndependent(c: MinerConfig, h: seq<Trace.Observation>, k: PatternKey)
    ensures Run(c, h).At(k) == Greedy(c, MinedFor(h, k))
    decreases |h|
  {
    if h != [] {
      var init, o := h[..|h| - 1], h[|h| - 1];
      PatternsIndependent(c, init, k);
      StepAt(c, Run(c, init), o, k);
      var ids := MinedFor(init, k);
      assert ids + [] == ids;
      GreedyAppend(c, ids, o.traceId);
    }
  }

  // ---- conservation over all patterns together

  /** Trace ids of all mined observations. */
  function AllMined(h: seq<Trace.Observation>): multiset<string> {
    if h == [] then multiset{}
    else AllMined(h[..|h| - 1]) + if Mined(h[|h| - 1]) then multiset{h[|h| - 1].traceId} else multiset{}
  }

  /** Patterns in order of first appearance. */
  function SeenKeys(h: seq<Trace.Observation>): seq<PatternKey> {
    if h == [] then []
    else
      var seen, o := SeenKeys(h[..|h| - 1]), h[|h| - 1];
      if Mined(o) && KeyOf(o) !in seen then seen + [KeyOf(o)] else seen
  }

  function AllEvidence(proposals: seq<LearnedRule>): multiset<string> {
    if proposals == [] then multiset{}
    else AllEvidence(proposals[..|proposals| - 1]) + multiset(proposals[|proposals| - 1].evidence)
  }

  function AllPending(s: MinerState, keys: seq<PatternKey>): multiset<string> {
    if keys == [] then multiset{} else AllPending(s, keys[..|keys| - 1]) + multiset(s.At(keys[|keys| - 1]))
  }

  lemma {:induction false} SeenKeysExact(c: MinerConfig, h: seq<Trace.Observation>)
    ensures Distinct(SeenKeys(h)) && forall k :: k in SeenKeys(h) <==> k in Run(c, h).pending
    decreases |h|
  {
    if h != [] { SeenKeysExact(c, h[..|h| - 1]); }
  }

  lemma {:induction false} PendingOutside(s: MinerState, t: MinerState, keys: seq<PatternKey>)
    requires forall k :: k in keys ==> s.At(k) == t.At(k)
    ensures AllPending(s, keys) == AllPending(t, keys)
    decreases |keys|
  {
    if keys != [] {
      var n := |keys| - 1;
      assert keys[n] in keys && forall k :: k in keys[..n] ==> k in keys;
      PendingOutside(s, t, keys[..n]);
    }
  }

  /** Changing one pattern's pending ids changes the total by that difference. */
  lemma {:induction false} PendingChange(s: MinerState, t: MinerState, keys: seq<PatternKey>, k: PatternKey)
    requires Distinct(keys) && k in keys
    requires forall x :: x != k ==> s.At(x) == t.At(x)
    ensures AllPending(s, keys) + multiset(t.At(k)) == AllPending(t, keys) + multiset(s.At(k))
    decreases |keys|
  {
    var n := |keys| - 1;
    assert keys == keys[..n] + [keys[n]];
    if keys[n] == k {
      PendingOutside(s, t, keys[..n]);
    } else {
      PendingChange(s, t, keys[..n], k);
    }
  }

  /** Every mined trace id sits in exactly one proposal or is still pending; none is lost or used twice. */
  lemma {:induction false} AllConserved(c: MinerConfig, h: seq<Trace.Observation>)
    ensures AllMined(h) == AllEvidence(Run(c, h).proposals) + AllPending(Run(c, h), SeenKeys(h))
    decreases |h|
  {
    if h != [] {
      var init, o := h[..|h| - 1], h[|h| - 1];
      AllConserved(c, init);
      if Mined(o) {
        var s, t, k := Run(c, init), Run(c, h), KeyOf(o);
        var ids := s.At(k) + [o.traceId];
        SeenKeysExact(c, init);
        SeenKeysExact(c, h);
        PendingGrows(s, SeenKeys(init), k);
        PendingStep(c, s, o, SeenKeys(h));
        ProposalsStep(c, s, o);
        Balance(AllEvidence(s.proposals), AllPending(s, SeenKeys(init)), AllEvidence(t.proposals),
                AllPending(t, SeenKeys(h)), multiset(Cut(c, ids)), multiset(s.At(k)), multiset{o.traceId});
      }
    }
  }

  lemma Balance(e: multiset<string>, p: multiset<string>, e1: multiset<string>, p1: multiset<string>,
                cut: multiset<string>, at: multiset<string>, one: multiset<string>)
    requires p + cut == p1 + at && e1 + cut == e + (at + one)
    ensures e + p + one == e1 + p1
  {
    forall x
      ensures (e + p + one)[x] == (e1 + p1)[x]
    {
      assert (p + cut)[x] == (p1 + at)[x] && (e1 + cut)[x] == (e + (at + one))[x];
    }
  }

  lemma PendingStep(c: MinerConfig, s: MinerState, o: Trace.Observation, keys: seq<PatternKey>)
    requires Mined(o) && Distinct(keys) && KeyOf(o) in keys
    ensures AllPending(s, keys) + multiset(Cut(c, s.At(KeyOf(o)) + [o.traceId])) ==
            AllPending(Step(c, s, o), keys) + multiset(s.At(KeyOf(o)))
  {
    forall x
      ensures Step(c, s, o).At(x) == if x == KeyOf(o) then Cut(c, s.At(x) + [o.traceId]) else s.At(x)
    {
      StepAt(c, s, o, x);
    }
    PendingChange(s, Step(c, s, o), keys, KeyOf(o));
  }

  lemma ProposalsStep(c: MinerConfig, s: MinerState, o: Trace.Observation)
    requires Mined(o)
    ensures var ids := s.At(KeyOf(o)) + [o.traceId];
            AllEvidence(Step(c, s, o).proposals) + multiset(Cut(c, ids)) ==
            AllEvidence(s.proposals) + (multiset(s.At(KeyOf(o))) + multiset{o.traceId})
  {
    var ids := s.At(KeyOf(o)) + [o.traceId];
    assert (s.proposals + [Propose(ids)])[..|s.proposals|] == s.proposals;
  }

  lemma PendingGrows(s: MinerState, keys: seq<PatternKey>, k: PatternKey)
    requires k !in keys ==> s.At(k) == []
    ensures AllPending(s, if k in keys then keys else keys + [k]) == AllPending(s, keys)
  {
    assert (keys + [k])[..|keys|] == keys;
  }

  // ---- thresholds

  /** A rule is proposed at the first moment its evidence is mature. */
  ghost predicate Minimal(c: MinerConfig, r: LearnedRule) {
    && r.evidence != [] && Mature(c, r.evidence)
    && (forall n :: 0 < n < |r.evidence| ==> !Mature(c, r.evidence[..n]))
    && r.scope == r.evidence[0]
    && r.id == "lr-fp-" + Decimal(|r.evidence|) + "-" + Decimal(|Elems(r.evidence)|)
  }

  ghost predicate Growing(c: MinerConfig, ids: seq<string>) {
    forall n :: 0 < n <= |ids| ==> !Mature(c, ids[..n])
  }

  lemma GrowingExtends(c: MinerConfig, ids: seq<string>, id: string)
    requires Growing(c, ids)
    ensures if Mature(c, ids + [id]) then Minimal(c, Propose(ids + [id])) else Growing(c, ids + [id])
  {
    var next := ids + [id];
    forall n | 0 < n <= |ids|
      ensures next[..n] == ids[..n]
    {
    }
    assert next[..|next|] == next;
  }

  lemma {:induction false} ThresholdsHold(c: MinerConfig, h: seq<Trace.Observation>)
    ensures forall r :: r in Run(c, h).proposals ==> Minimal(c, r)
    ensures forall k :: k in Run(c, h).pending ==> Growing(c, Run(c, h).pending[k])
    decreases |h|
  {
    if h != [] {
      var init, o := h[..|h| - 1], h[|h| - 1];
      ThresholdsHold(c, init);
      GrowingExtends(c, Run(c, init).At(KeyOf(o)), o.traceId);
    }
  }

  /** No pending pattern is still mature, unless both thresholds are zero and something was mined. */
  lemma PendingImmatureExactly(c: MinerConfig, h: seq<Trace.Observation>)
    ensures (forall k :: k in Run(c, h).pending ==> !Mature(c, Run(c, h).pending[k])) <==>
            c.threshold >= 1 || c.minDistinctSessions >= 1 || forall o :: o in h ==> !Mined(o)
  {
    ThresholdsHold(c, h);
    NothingPending(c, h);
    var p := Run(c, h).pending;
    if c.threshold >= 1 || c.minDistinctSessions >= 1 {
      forall k | k in p
        ensures !Mature(c, p[k])
      {
        assert p[k][..|p[k]|] == p[k];
        assert p[k] == [] ==> Elems(p[k]) == {};
      }
    } else if p != map[] {
      var k :| k in p;
      assert Mature(c, p[k]);
    }
  }

  lemma NothingPending(c: MinerConfig, h: seq<Trace.Observation>)
    ensures Run(c, h).pending == map[] <==> forall o :: o in h ==> !Mined(o)
  {
    NothingSeen(h);
    SeenKeysExact(c, h);
    if SeenKeys(h) != [] { assert SeenKeys(h)[0] in SeenKeys(h); }
  }

  lemma {:induction false} NothingSeen(h: seq<Trace.Observation>)
    ensures SeenKeys(h) == [] <==> forall o :: o in h ==> !Mined(o)
    decreases |h|
  {
    if h != [] {
      var init, o := h[..|h| - 1], h[|h| - 1];
      NothingSeen(init);
      assert h == init + [o];
    }
  }

  lemma {:induction false} EvidenceIncludes(proposals: seq<LearnedRule>, origins: seq<PatternKey>, i: nat)
    requires |proposals| == |origins| && i < |proposals|
    ensures Elems(proposals[i].evidence) <= Elems(EvidenceFor(proposals, origins, origins[i]))
    decreases |proposals|
  {
    var n := |proposals| - 1;
    if i < n { EvidenceIncludes(proposals[..n], origins[..n], i); }
  }

  /** A pattern whose traffic comes from too few sessions is never proposed, however long it runs. */
  lemma FewSessionsProposeNothing(c: MinerConfig, h: seq<Trace.Observation>, k: PatternKey)
    requires |Elems(MinedFor(h, k))| < c.minDistinctSessions
    ensures k !in Origins(c, h)
  {
    var ps, os := Run(c, h).proposals, Origins(c, h);
    forall i | 0 <= i < |os|
      ensures os[i] != k
    {
      EvidenceIncludes(ps, os, i);
      PatternConserved(c, h, os[i]);
      ThresholdsHold(c, h);
      assert ps[i] in ps;
      SubsetCardinality(Elems(ps[i].evidence), Elems(MinedFor(h, os[i])));
    }
  }

  // ---- rule ids

  lemma FirstDash(p: string, q: string)
    requires '-' !in p
    ensures var x := p + "-" + q; x[|p|] == '-' && forall i :: 0 <= i < |p| ==> x[i] != '-'
  {
    assert forall i :: 0 <= i < |p| ==> (p + "-" + q)[i] == p[i];
  }

  lemma SplitAtDash(p: string, q: string, r: string, s: string)
    requires p + "-" + q == r + "-" + s && '-' !in p && '-' !in r
    ensures p == r && q == s
  {
    var x, y := p + "-" + q, r + "-" + s;
    FirstDash(p, q);
    FirstDash(r, s);
    assert |p| == |r|;
    assert p == x[..|p|] && r == y[..|r|];
    assert q == x[|p| + 1..] && s == y[|r| + 1..];
  }

  /** Rule ids name the two counts and nothing else, so two rules share an id exactly when their counts agree. */
  lemma RuleIdsCollideExactly(c: MinerConfig, h: seq<Trace.Observation>, i: nat, j: nat)
    requires i < |Run(c, h).proposals| && j < |Run(c, h).proposals|
    ensures var p, q := Run(c, h).proposals[i], Run(c, h).proposals[j];
            p.id == q.id <==> |p.evidence| == |q.evidence| && |Elems(p.evidence)| == |Elems(q.evidence)|
  {
    ThresholdsHold(c, h);
    var p, q := Run(c, h).proposals[i], Run(c, h).proposals[j];
    assert p in Run(c, h).proposals && q in Run(c, h).proposals;
    assert p.id == RuleId(|p.evidence|, |Elems(p.evidence)|) && q.id == RuleId(|q.evidence|, |Elems(q.evidence)|);
    if p.id == q.id {
      RuleIdInjective(|p.evidence|, |Elems(p.evidence)|, |q.evidence|, |Elems(q.evidence)|);
    }
  }

  lemma RuleIdInjective(a: nat, b: nat, m: nat, n: nat)
    requires RuleId(a, b) == RuleId(m, n)
    ensures a == m && b == n
  {
    assert RuleId(a, b)[6..] == Decimal(a) + "-" + Decimal(b);
    assert RuleId(m, n)[6..] == Decimal(m) + "-" + Decimal(n);
    SplitAtDash(Decimal(a), Decimal(b), Decimal(m), Decimal(n));
    DecimalInjective(a, m);
    DecimalInjective(b, n);
  }

  // ---- no configuration makes them unique

  ghost predicate UniqueIds(proposals: seq<LearnedRule>) {
    forall i, j :: 0 <= i < j < |proposals| ==> proposals[i].id != proposals[j].id
  }

  /** A successful agent observation of a node in the i-th of a series of traces. */
  function Seen(node: string, i: nat): Trace.Observation {
    Trace.Observation(Decimal(i), node, 1, "runtime", "Agent", Some(Trace.Succeeded))
  }

  function Feed(node: string, n: nat): seq<Trace.Observation> {
    if n == 0 then [] else Feed(node, n - 1) + [Seen(node, n - 1)]
  }

  function TraceIds(n: nat): (ids: seq<string>)
    ensures |ids| == n && forall i :: 0 <= i < n ==> ids[i] == Decimal(i)
  {
    if n == 0 then [] else TraceIds(n - 1) + [Decimal(n - 1)]
  }

  /** How many observations from different traces a pattern needs. */
  function Enough(c: MinerConfig): nat {
    var most := if c.threshold >= c.minDistinctSessions then c.threshold else c.minDistinctSessions;
    if most == 0 then 1 else most
  }

  lemma MatureAt(c: MinerConfig, n: nat)
    requires n >= 1
    ensures Mature(c, TraceIds(n)) <==> n >= Enough(c)
  {
    var ids := TraceIds(n);
    forall i, j | 0 <= i < j < n
      ensures ids[i] != ids[j]
    {
      if Decimal(i) == Decimal(j) { DecimalInjective(i, j); }
    }
    DistinctCardinality(ids);
  }

  lemma SeenIsMined(node: string, i: nat)
    ensures Mined(Seen(node, i)) && KeyOf(Seen(node, i)) == PatternKey("AgentAssisted", "runtime", [node])
  {
    assert "Agent"[0..][..5] == "Agent";
  }

  /** Fewer observations than needed stay pending. */
  lemma {:induction false} FeedPends(c: MinerConfig, h: seq<Trace.Observation>, node: string, n: nat)
    requires n < Enough(c) && Run(c, h).At(PatternKey("AgentAssisted", "runtime", [node])) == []
    ensures var k := PatternKey("AgentAssisted", "runtime", [node]);
            var s, t := Run(c, h), Run(c, h + Feed(node, n));
            t.proposals == s.proposals && t.At(k) == TraceIds(n) && forall x :: x != k ==> t.At(x) == s.At(x)
    decreases n
  {
    if n == 0 {
      assert h + [] == h;
    } else {
      FeedPends(c, h, node, n - 1);
      FeedOne(c, h, node, n - 1);
      MatureAt(c, n);
      OneMorePends(c, Run(c, h + Feed(node, n - 1)), node, n - 1);
    }
  }

  lemma OneMorePends(c: MinerConfig, s: MinerState, node: string, n: nat)
    requires s.At(PatternKey("AgentAssisted", "runtime", [node])) == TraceIds(n) && !Mature(c, TraceIds(n + 1))
    ensures var k := PatternKey("AgentAssisted", "runtime", [node]);
            var t := Step(c, s, Seen(node, n));
            t.proposals == s.proposals && t.At(k) == TraceIds(n + 1) && forall x :: x != k ==> t.At(x) == s.At(x)
  {
    SeenIsMined(node, n);
    assert TraceIds(n) + [Decimal(n)] == TraceIds(n + 1);
  }

  lemma FeedOne(c: MinerConfig, h: seq<Trace.Observation>, node: string, n: nat)
    ensures Run(c, h + Feed(node, n + 1)) == Step(c, Run(c, h + Feed(node, n)), Seen(node, n))
    ensures Mined(Seen(node, n)) && KeyOf(Seen(node, n)) == PatternKey("AgentAssisted", "runtime", [node])
  {
    SeenIsMined(node, n);
    assert h + Feed(node, n + 1) == (h + Feed(node, n)) + [Seen(node, n)];
    RunStep(c, h + Feed(node, n), Seen(node, n));
  }

  /** The last one needed turns them into a proposal. */
  lemma FeedProposes(c: MinerConfig, h: seq<Trace.Observation>, node: string)
    requires Run(c, h).At(PatternKey("AgentAssisted", "runtime", [node])) == []
    ensures var s, t := Run(c, h), Run(c, h + Feed(node, Enough(c)));
            && TraceIds(Enough(c)) != [] && t.proposals == s.proposals + [Propose(TraceIds(Enough(c)))]
            && forall x :: x != PatternKey("AgentAssisted", "runtime", [node]) ==> t.At(x) == s.At(x)
  {
    var n := Enough(c) - 1;
    FeedPends(c, h, node, n);
    FeedOne(c, h, node, n);
    MatureAt(c, n + 1);
    LastOne(c, Run(c, h), Run(c, h + Feed(node, n)), node, n);
  }

  lemma LastOne(c: MinerConfig, before: MinerState, s: MinerState, node: string, n: nat)
    requires s.At(PatternKey("AgentAssisted", "runtime", [node])) == TraceIds(n) && Mature(c, TraceIds(n + 1))
    requires s.proposals == before.proposals
    requires forall x :: x != PatternKey("AgentAssisted", "runtime", [node]) ==> s.At(x) == before.At(x)
    ensures var t := Step(c, s, Seen(node, n));
            && t.proposals == before.proposals + [Propose(TraceIds(n + 1))]
            && forall x :: x != PatternKey("AgentAssisted", "runtime", [node]) ==> t.At(x) == before.At(x)
  {
    SeenIsMined(node, n);
    assert TraceIds(n) + [Decimal(n)] == TraceIds(n + 1);
  }

  /** For every configuration some stream yields two rules with one id: two nodes observed in the same traces. */
  lemma IdsCollide(c: MinerConfig) returns (h: seq<Trace.Observation>)
    ensures |Run(c, h).proposals| == 2 && Run(c, h).proposals[0].id == Run(c, h).proposals[1].id
  {
    var first := [] + Feed("a", Enough(c));
    FeedProposes(c, [], "a");
    FeedProposes(c, first, "b");
    h := first + Feed("b", Enough(c));
  }

  /** So no configuration keeps rule ids unique on all streams. */
  lemma IdsNeverUnique(c: MinerConfig)
    ensures !forall h :: UniqueIds(Run(c, h).proposals)
  {
    var h := IdsCollide(c);
    assert !UniqueIds(Run(c, h).proposals);
  }

  // ---- what the executor's observations mean to the miner

  lemma ContainsLeft(s: string, t: string, x: string)
    requires Contains(s, t)
    ensures Contains(s + x, t)
  {
    var i :| 0 <= i <= |s| - |t| && s[i..][..|t|] == t;
    assert (s + x)[i..][..|t|] == t;
  }

  lemma ContainsRight(x: string, s: string, t: string)
    requires Contains(s, t)
    ensures Contains(x + s, t)
  {
    var i :| 0 <= i <= |s| - |t| && s[i..][..|t|] == t;
    var j := |x| + i;
    assert (x + s)[j..][..|t|] == t;
  }

  lemma SeparatorInside(a: string, sep: char, b: string, t: string, i: nat)
    requires var s := a + [sep] + b; i <= |s| - |t| && s[i..][..|t|] == t
    requires i <= |a| < i + |t|
    ensures sep in t
  {
    var s, j := a + [sep] + b, |a| - i;
    assert t[j] == s[i..][..|t|][j] == s[|a|] == sep;
  }

  /** A word without the separator that occurs in `a + [sep] + b` occurs in `a` or in `b`. */
  lemma ContainsAcross(a: string, sep: char, b: string, t: string)
    requires sep !in t && Contains(a + [sep] + b, t)
    ensures Contains(a, t) || Contains(b, t)
  {
    var s := a + [sep] + b;
    var i :| 0 <= i <= |s| - |t| && s[i..][..|t|] == t;
    if i + |t| <= |a| {
      assert a[i..][..|t|] == t;
    } else if i > |a| {
      var j := i - |a| - 1;
      assert b[j..][..|t|] == t;
    } else {
      SeparatorInside(a, sep, b, t, i);
    }
  }

  predicate Blank(s: string) {
    !Contains(s, "Agent")
  }

  lemma FixedWordsBlank(k: GraphValidation.NodeKind)
    ensures Blank("ran") && Blank("node") && Blank("of") && Blank("kind")
    ensures Blank(Executor.KindName(k)) <==> k != GraphValidation.Agent
  {
    NoCapital("ran");
    NoCapital("node");
    NoCapital("of");
    NoCapital("kind");
    var name := Executor.KindName(k);
    match k
    case Agent => assert name[0..][..5] == "Agent";
    case Approval =>
      forall i | 0 <= i <= |name| - 5
        ensures name[i..][..5] != "Agent"
      {
        assert name[i..][..5][1] != 'g';
      }
    case Deterministic => NoCapital(name);
    case Fork => NoCapital(name);
    case EventWait => NoCapital(name);
  }

  lemma NoCapital(s: string)
    requires 'A' !in s
    ensures Blank(s)
  {
    forall i | 0 <= i <= |s| - 5
      ensures s[i..][..5] != "Agent"
    {
      assert s[i..][..5][0] == s[i];
    }
  }

  /** The text the executor writes for a step. */
  function Reasoning(id: string, kind: string): string {
    "ran node " + id + " of kind " + kind
  }

  lemma AgentInReasoning(id: string, k: GraphValidation.NodeKind)
    requires k == GraphValidation.Agent || Contains(id, "Agent")
    ensures Contains(Reasoning(id, Executor.KindName(k)), "Agent")
  {
    var kind, head := Executor.KindName(k), "ran node " + id;
    if k == GraphValidation.Agent {
      FixedWordsBlank(k);
      ContainsRight(head + " of kind ", kind, "Agent");
    } else {
      ContainsRight("ran node ", id, "Agent");
      ContainsLeft(head, "Agent", " of kind ");
      ContainsLeft(head + " of kind ", "Agent", kind);
    }
  }

  lemma ReasoningWords(id: string, kind: string)
    requires Contains(Reasoning(id, kind), "Agent")
    requires Blank("ran") && Blank("node") && Blank("of") && Blank("kind")
    ensures Contains(id, "Agent") || Contains(kind, "Agent")
  {
    var end := "kind" + [' '] + kind;
    var tail := "of" + [' '] + end;
    var body := id + [' '] + tail;
    var rest := "node" + [' '] + body;
    assert Reasoning(id, kind) == "ran" + [' '] + rest;
    ContainsAcross("ran", ' ', rest, "Agent");
    ContainsAcross("node", ' ', body, "Agent");
    ContainsAcross(id, ' ', tail, "Agent");
    if !Contains(id, "Agent") {
      ContainsAcross("of", ' ', end, "Agent");
      ContainsAcross("kind", ' ', kind, "Agent");
    }
  }

  /** The kind is recognised in free text, so a node of any kind is mined when its id contains `Agent`. */
  lemma RuntimeMinedExactly(c: Executor.Config, step: nat, id: string, node: GraphValidation.Node,
                            o: RuntimeTypes.NodeOutput)
    ensures Mined(Executor.TraceEntry(c, step, id, node, o).observation) <==>
            node.kind == GraphValidation.Agent || Contains(id, "Agent")
  {
    var text := Reasoning(id, Executor.KindName(node.kind));
    FixedWordsBlank(node.kind);
    if Contains(text, "Agent") { ReasoningWords(id, Executor.KindName(node.kind)); }
    if node.kind == GraphValidation.Agent || Contains(id, "Agent") { AgentInReasoning(id, node.kind); }
  }
}
