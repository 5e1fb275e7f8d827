/** Levelising a validated graph: which nodes could run in parallel. */
module Scheduler {
  import opened Digraph
  import opened GraphValidation
  import opened Ordering

  /** A longest walk ending at `n` has exactly `k` edges. */
  ghost predicate Longest(edges: seq<Edge>, n: NodeId, k: nat) {
    && (exists p :: EndsAt(edges, p, n) && |p| == k + 1)
    && (forall p :: EndsAt(edges, p, n) ==> |p| <= k + 1)
  }

  ghost predicate EndsAt(edges: seq<Edge>, p: seq<NodeId>, n: NodeId) {
    IsPath(edges, p) && p[|p| - 1] == n
  }

  lemma LongestUnique(edges: seq<Edge>, n: NodeId, j: nat, k: nat)
    requires Longest(edges, n, j) && Longest(edges, n, k)
    ensures j == k
  {
    var p :| EndsAt(edges, p, n) && |p| == j + 1;
    var q :| EndsAt(edges, q, n) && |q| == k + 1;
  }

  lemma PathExtend(edges: seq<Edge>, p: seq<NodeId>, n: NodeId)
    requires IsPath(edges, p) && Edge(p[|p| - 1], n) in edges
    ensures IsPath(edges, p + [n])
  {
    var q := p + [n];
    forall i, j | 0 <= i && j == i + 1 && j < |q|
      ensures Edge(q[i], q[j]) in edges
    {
      if j < |p| { assert Edge(p[i], p[j]) in edges; }
    }
  }

  /** An edge climbs at least one level; so does any walk, once per edge. */
  lemma {:induction false} WalkClimbs(edges: seq<Edge>, p: seq<NodeId>, j: nat, k: nat)
    requires IsPath(edges, p)
    requires Longest(edges, p[0], j) && Longest(edges, p[|p| - 1], k)
    ensures j + |p| - 1 <= k
  {
    var q :| EndsAt(edges, q, p[0]) && |q| == j + 1;
    PathJoin(edges, q, p);
    assert EndsAt(edges, q + p[1..], p[|p| - 1]);
  }

  /** Level candidates: one more than the level of each source of an edge into `n`. */
  ghost predicate IsLevel(edges: seq<Edge>, level: map<NodeId, nat>, n: NodeId, lvl: nat) {
    && (forall e :: e in edges && e.to == n ==> At(level, e.from) + 1 <= lvl)
    && (lvl == 0 || exists e :: e in edges && e.to == n && At(level, e.from) + 1 == lvl)
  }

  function At(level: map<NodeId, nat>, n: NodeId): nat {
    if n in level then level[n] else 0
  }

  /** The inner maximum over incoming edges. */
  method LevelOf(edges: seq<Edge>, level: map<NodeId, nat>, n: NodeId) returns (lvl: nat)
    ensures IsLevel(edges, level, n, lvl)
  {
    lvl := 0;
    for i := 0 to |edges|
      invariant IsLevel(edges[..i], level, n, lvl)
    {
      assert edges[..i + 1] == edges[..i] + [edges[i]];
      assert edges[i] in edges[..i + 1];
      if edges[i].to == n && At(level, edges[i].from) + 1 > lvl {
        lvl := At(level, edges[i].from) + 1;
      }
    }
    assert edges[..|edges|] == edges;
  }

  lemma LevelAttained(edges: seq<Edge>, level: map<NodeId, nat>, n: NodeId, lvl: nat)
    requires IsLevel(edges, level, n, lvl)
    requires PredecessorsIn(edges, level.Keys, n) && LevelsSound(edges, level)
    ensures exists p :: EndsAt(edges, p, n) && |p| == lvl + 1
  {
    if lvl == 0 {
      assert EndsAt(edges, [n], n);
    } else {
      var e :| e in edges && e.to == n && At(level, e.from) + 1 == lvl;
      assert Longest(edges, e.from, level[e.from]);
      var q :| EndsAt(edges, q, e.from) && |q| == lvl;
      assert e == Edge(e.from, n);
      PathExtend(edges, q, n);
      assert EndsAt(edges, q + [n], n);
    }
  }

  lemma LevelBound(edges: seq<Edge>, level: map<NodeId, nat>, n: NodeId, lvl: nat, p: seq<NodeId>)
    requires IsLevel(edges, level, n, lvl)
    requires PredecessorsIn(edges, level.Keys, n) && LevelsSound(edges, level)
    requires EndsAt(edges, p, n)
    ensures |p| <= lvl + 1
  {
    if |p| >= 2 {
      var m := |p| - 1;
      var e := Edge(p[m - 1], p[m]);
      assert e in edges && e.to == n;
      PathSlice(edges, p, 0, m);
      assert EndsAt(edges, p[0..m], e.from);
      assert Longest(edges, e.from, level[e.from]);
    }
  }

  /** When the levels of all predecessors are longest-walk lengths, so is the level computed from them. */
  lemma LevelIsLongest(edges: seq<Edge>, level: map<NodeId, nat>, n: NodeId, lvl: nat)
    requires IsLevel(edges, level, n, lvl)
    requires PredecessorsIn(edges, level.Keys, n) && LevelsSound(edges, level)
    ensures Longest(edges, n, lvl)
  {
    LevelAttained(edges, level, n, lvl);
    forall p | EndsAt(edges, p, n)
      ensures |p| <= lvl + 1
    {
      LevelBound(edges, level, n, lvl, p);
    }
  }

  /** A node above level zero has a predecessor exactly one level down. */
  lemma LevelBelow(edges: seq<Edge>, n: NodeId, k: nat) returns (m: NodeId)
    requires Longest(edges, n, k + 1)
    ensures Edge(m, n) in edges && Longest(edges, m, k)
  {
    var p :| EndsAt(edges, p, n) && |p| == k + 2;
    m := p[k];
    assert Edge(p[k], p[k + 1]) in edges;
    PathSlice(edges, p, 0, k + 1);
    var init := p[0..k + 1];
    assert EndsAt(edges, init, m) && |init| == k + 1;
    forall q | EndsAt(edges, q, m)
      ensures |q| <= k + 1
    {
      PathExtend(edges, q, n);
      assert EndsAt(edges, q + [n], n);
    }
  }

  /** The levels partition the nodes by longest-walk length, each bucket non-empty and in ascending id order. */
  ghost predicate Levelled(g: Graph, levels: seq<seq<NodeId>>) {
    && (forall l, n :: 0 <= l < |levels| && n in levels[l] ==> n in g.nodes && Longest(g.edges, n, l))
    && (forall n :: n in g.nodes ==> InSomeLevel(levels, n))
    && (forall l :: 0 <= l < |levels| ==> levels[l] != [] && Distinct(levels[l]) && Ascending(levels[l]))
  }

  ghost predicate InSomeLevel(levels: seq<seq<NodeId>>, n: NodeId) {
    exists l :: 0 <= l < |levels| && n in levels[l]
  }

  ghost predicate LevelsSound(edges: seq<Edge>, level: map<NodeId, nat>) {
    forall n :: n in level ==> Longest(edges, n, level[n])
  }

  ghost predicate LevelsUpTo(g: Graph, level: map<NodeId, nat>, i: nat) {
    i <= |g.order| && level.Keys == Elems(g.order[..i]) && LevelsSound(g.edges, level)
  }

  lemma EarlierPredecessors(g: Graph, i: nat)
    requires g.Valid() && i < |g.order|
    ensures PredecessorsIn(g.edges, Elems(g.order[..i]), g.order[i])
    ensures Elems(g.order[..i + 1]) == Elems(g.order[..i]) + {g.order[i]}
  {
    TopologicalReady(g.nodes.Keys, g.edges, g.order, i);
    assert g.order[..i + 1] == g.order[..i] + [g.order[i]];
  }

  lemma NextLevel(g: Graph, level: map<NodeId, nat>, i: nat, lvl: nat)
    requires i < |g.order| && LevelsUpTo(g, level, i)
    requires PredecessorsIn(g.edges, Elems(g.order[..i]), g.order[i])
    requires Elems(g.order[..i + 1]) == Elems(g.order[..i]) + {g.order[i]}
    requires IsLevel(g.edges, level, g.order[i], lvl)
    ensures LevelsUpTo(g, level[g.order[i] := lvl], i + 1)
  {
    LevelIsLongest(g.edges, level, g.order[i], lvl);
  }

  /** First loop: walk the order, giving each node its level. */
  method AssignLevels(g: Graph) returns (level: map<NodeId, nat>)
    requires g.Valid()
    ensures level.Keys == g.nodes.Keys
    ensures LevelsSound(g.edges, level)
  {
    level := map[];
    for i := 0 to |g.order|
      invariant LevelsUpTo(g, level, i)
    {
      var n := g.order[i];
      var lvl := LevelOf(g.edges, level, n);
      EarlierPredecessors(g, i);
      NextLevel(g, level, i, lvl);
      level := level[n := lvl];
    }
    assert g.order[..|g.order|] == g.order;
  }

  /** The largest level in the map, zero when the map is empty. */
  method MaxLevel(level: map<NodeId, nat>) returns (top: nat)
    ensures forall n :: n in level ==> level[n] <= top
    ensures level != map[] ==> exists n :: n in level && level[n] == top
    ensures level == map[] ==> top == 0
  {
    top := 0;
    var rest := level.Keys;
    while rest != {}
      invariant rest <= level.Keys
      invariant forall n :: n in level.Keys - rest ==> level[n] <= top
      invariant top == 0 || exists n :: n in level.Keys - rest && level[n] == top
      decreases rest
    {
      var n :| n in rest;
      if level[n] > top { top := level[n]; }
      rest := rest - {n};
    }
    if level != map[] && top == 0 {
      var n :| n in level.Keys;
      assert level[n] == top;
    }
  }

  /** Second loop: push every node into its bucket, in hash-map order. */
  method FillBuckets(level: map<NodeId, nat>, top: nat) returns (levels: seq<seq<NodeId>>)
    requires forall n :: n in level ==> level[n] <= top
    ensures |levels| == top + 1
    ensures forall l :: 0 <= l <= top ==> Bucket(level, levels[l], l)
  {
    levels := seq(top + 1, i => []);
    var rest := level.Keys;
    while rest != {}
      invariant rest <= level.Keys && |levels| == top + 1
      invariant forall l :: 0 <= l <= top ==> Distinct(levels[l])
      invariant forall l, n :: 0 <= l <= top ==> (n in levels[l] <==> n in level.Keys - rest && level[n] == l)
      decreases rest
    {
      var n :| n in rest;
      var l := level[n];
      assert n !in levels[l];
      levels := levels[l := levels[l] + [n]];
      rest := rest - {n};
    }
    assert level.Keys - rest == level.Keys;
  }

  /** Every level up to the top one is inhabited. */
  lemma {:induction false} LevelsInhabited(g: Graph, level: map<NodeId, nat>, n: NodeId, l: nat)
    requires g.Valid() && level.Keys == g.nodes.Keys && n in level && l <= level[n]
    requires LevelsSound(g.edges, level)
    ensures exists m :: m in level && level[m] == l
    decreases level[n]
  {
    if l < level[n] {
      var m := LevelBelow(g.edges, n, level[n] - 1);
      assert Edge(m, n) in g.edges && Edge(m, n).from in g.nodes.Keys;
      LongestUnique(g.edges, m, level[m], level[n] - 1);
      LevelsInhabited(g, level, m, l);
    }
  }

  method ParallelLevels(g: Graph) returns (levels: seq<seq<NodeId>>)
    requires g.Valid()
    ensures Levelled(g, levels)
  {
    var level := AssignLevels(g);
    var top := MaxLevel(level);
    levels := FillBuckets(level, top);
    for i := 0 to |levels|
      invariant |levels| == top + 1
      invariant forall l :: 0 <= l <= top ==> Bucket(level, levels[l], l)
      invariant forall l :: 0 <= l < i ==> Ascending(levels[l])
    {
      SortBucket(level, levels[i], i);
      levels := levels[i := Sort(levels[i])];
    }
    assert g.nodes.Keys != {};
    BucketsInhabited(g, level, top, levels);
    BucketsLevelled(g, level, top, levels);
  }

  /** The nodes of level `l`, each once. */
  ghost predicate Bucket(level: map<NodeId, nat>, b: seq<NodeId>, l: nat) {
    Distinct(b) && forall n :: n in b <==> n in level && level[n] == l
  }

  lemma SortBucket(level: map<NodeId, nat>, b: seq<NodeId>, l: nat)
    requires Bucket(level, b, l)
    ensures Bucket(level, Sort(b), l)
  {
    SortElems(b);
    assert forall n :: n in b <==> n in Elems(b);
    assert forall n :: n in Sort(b) <==> n in Elems(Sort(b));
  }

  lemma BucketsInhabited(g: Graph, level: map<NodeId, nat>, top: nat, levels: seq<seq<NodeId>>)
    requires g.Valid() && level.Keys == g.nodes.Keys && LevelsSound(g.edges, level)
    requires |levels| == top + 1 && exists n :: n in level && level[n] == top
    requires forall l :: 0 <= l <= top ==> Bucket(level, levels[l], l)
    ensures forall l :: 0 <= l <= top ==> levels[l] != []
  {
    var n :| n in level && level[n] == top;
    forall l | 0 <= l <= top
      ensures levels[l] != []
    {
      BucketInhabited(g, level, n, levels[l], l);
    }
  }

  lemma BucketsLevelled(g: Graph, level: map<NodeId, nat>, top: nat, levels: seq<seq<NodeId>>)
    requires level.Keys == g.nodes.Keys && LevelsSound(g.edges, level)
    requires |levels| == top + 1 && forall n :: n in level ==> level[n] <= top
    requires forall l :: 0 <= l <= top ==> Bucket(level, levels[l], l) && Ascending(levels[l]) && levels[l] != []
    ensures Levelled(g, levels)
  {
    forall l, n | 0 <= l < |levels| && n in levels[l]
      ensures n in g.nodes && Longest(g.edges, n, l)
    {
      assert Bucket(level, levels[l], l);
    }
    forall m | m in g.nodes
      ensures InSomeLevel(levels, m)
    {
      assert Bucket(level, levels[level[m]], level[m]);
    }
  }

  lemma BucketInhabited(g: Graph, level: map<NodeId, nat>, n: NodeId, b: seq<NodeId>, l: nat)
    requires g.Valid() && level.Keys == g.nodes.Keys && LevelsSound(g.edges, level)
    requires n in level && l <= level[n] && Bucket(level, b, l)
    ensures b != []
  {
    LevelsInhabited(g, level, n, l);
    var m :| m in level && level[m] == l;
    assert m in b;
  }

  /** Nodes of one level are joined by no walk, and no node is in two levels. */
  lemma LevelsIndependent(g: Graph, levels: seq<seq<NodeId>>, l: nat, m: nat, a: NodeId, b: NodeId)
    requires Levelled(g, levels) && l < |levels| && m < |levels| && a in levels[l] && b in levels[m]
    ensures a == b ==> l == m
    ensures a != b && Reaches(g.edges, a, b) ==> l < m
  {
    if a == b { LongestUnique(g.edges, a, l, m); }
    if a != b && Reaches(g.edges, a, b) {
      var p :| PathBetween(g.edges, p, a, b);
      WalkClimbs(g.edges, p, l, m);
    }
  }

  function Concat(levels: seq<seq<NodeId>>): seq<NodeId> {
    if levels == [] then [] else Concat(levels[..|levels| - 1]) + levels[|levels| - 1]
  }

  ghost predicate Forward(edges: seq<Edge>, order: seq<NodeId>) {
    forall i, j :: 0 <= i < |order| && 0 <= j < |order| && Edge(order[i], order[j]) in edges ==> i < j
  }

  lemma {:induction false} ConcatMembers(levels: seq<seq<NodeId>>, n: NodeId)
    ensures n in Concat(levels) <==> InSomeLevel(levels, n)
    decreases |levels|
  {
    if levels != [] {
      var k := |levels| - 1;
      ConcatMembers(levels[..k], n);
      assert forall l :: 0 <= l < k ==> levels[..k][l] == levels[l];
      assert Concat(levels) == Concat(levels[..k]) + levels[k];
    }
  }

  lemma {:induction false} ConcatForward(g: Graph, levels: seq<seq<NodeId>>, k: nat)
    requires Levelled(g, levels) && k <= |levels|
    ensures Distinct(Concat(levels[..k])) && Forward(g.edges, Concat(levels[..k]))
    decreases k
  {
    if k > 0 {
      ConcatForward(g, levels, k - 1);
      var init, last := Concat(levels[..k - 1]), levels[k - 1];
      assert levels[..k][..k - 1] == levels[..k - 1];
      var all := Concat(levels[..k]);
      assert all == init + last;
      forall i, j | 0 <= i < |all| && 0 <= j < |all|
        ensures i < j ==> all[i] != all[j]
        ensures Edge(all[i], all[j]) in g.edges ==> i < j
      {
        var a := if i < |init| then LevelOfMember(levels, k - 1, all[i]) else k - 1;
        var b := if j < |init| then LevelOfMember(levels, k - 1, all[j]) else k - 1;
        assert i >= |init| ==> all[i] == last[i - |init|];
        assert j >= |init| ==> all[j] == last[j - |init|];
        assert i < |init| ==> all[i] == init[i];
        assert j < |init| ==> all[j] == init[j];
        LevelsIndependent(g, levels, a, b, all[i], all[j]);
        if Edge(all[i], all[j]) in g.edges {
          EdgeClimbs(g, levels, a, b, all[i], all[j]);
        }
      }
    }
  }

  lemma EdgeClimbs(g: Graph, levels: seq<seq<NodeId>>, l: nat, m: nat, a: NodeId, b: NodeId)
    requires Levelled(g, levels) && l < |levels| && m < |levels| && a in levels[l] && b in levels[m]
    requires Edge(a, b) in g.edges
    ensures l < m
  {
    assert IsPath(g.edges, [a, b]);
    WalkClimbs(g.edges, [a, b], l, m);
  }

  ghost function LevelOfMember(levels: seq<seq<NodeId>>, k: nat, n: NodeId): (l: nat)
    requires k <= |levels| && n in Concat(levels[..k])
    ensures l < k && n in levels[l]
  {
    ConcatMembers(levels[..k], n);
    var l :| 0 <= l < k && n in levels[..k][l];
    l
  }

  /** Running level after level is itself a topological order of the graph. */
  lemma LevelsTopological(g: Graph, levels: seq<seq<NodeId>>)
    requires Levelled(g, levels)
    ensures IsTopological(g.nodes.Keys, g.edges, Concat(levels))
  {
    assert levels[..|levels|] == levels;
    ConcatForward(g, levels, |levels|);
    forall n
      ensures n in Concat(levels) <==> n in g.nodes.Keys
    {
      ConcatMembers(levels, n);
    }
  }

  lemma LevelTransfers(g: Graph, s: seq<seq<NodeId>>, t: seq<seq<NodeId>>, l: nat, n: NodeId)
    requires Levelled(g, s) && Levelled(g, t) && l < |s| && n in s[l]
    ensures l < |t| && n in t[l]
  {
    assert InSomeLevel(t, n);
    var m :| 0 <= m < |t| && n in t[m];
    LongestUnique(g.edges, n, l, m);
  }

  lemma SameLevel(g: Graph, s: seq<seq<NodeId>>, t: seq<seq<NodeId>>, l: nat)
    requires Levelled(g, s) && Levelled(g, t) && l < |s|
    ensures l < |t| && s[l] == t[l]
  {
    LevelTransfers(g, s, t, l, s[l][0]);
    forall n
      ensures n in s[l] <==> n in t[l]
    {
      if n in s[l] { LevelTransfers(g, s, t, l, n); }
      if n in t[l] { LevelTransfers(g, t, s, l, n); }
    }
    AscendingUnique(s[l], t[l]);
  }

  /** The levels are determined by the graph, down to the order inside each level. */
  lemma LevelsUnique(g: Graph, s: seq<seq<NodeId>>, t: seq<seq<NodeId>>)
    requires Levelled(g, s) && Levelled(g, t)
    ensures s == t
  {
    forall l | 0 <= l < |s|
      ensures l < |t| && s[l] == t[l]
    {
      SameLevel(g, s, t, l);
    }
    if |s| < |t| { SameLevel(g, t, s, |s|); }
    if |t| < |s| { SameLevel(g, s, t, |t|); }
  }
}
