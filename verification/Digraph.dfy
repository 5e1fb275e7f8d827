/** Paths, cycles and topological orders of a directed graph given by an edge list. */
module Digraph {
  import opened Ordering

  type NodeId = string

  datatype Edge = Edge(from: NodeId, to: NodeId)

  /** A walk along the edges; a single node is a walk of length zero. */
  ghost predicate IsPath(edges: seq<Edge>, p: seq<NodeId>) {
    && |p| >= 1
    && forall i, j :: 0 <= i && j == i + 1 && j < |p| ==> Edge(p[i], p[j]) in edges
  }

  ghost predicate IsCycle(edges: seq<Edge>, p: seq<NodeId>) {
    IsPath(edges, p) && |p| >= 2 && p[0] == p[|p| - 1]
  }

  ghost predicate Acyclic(edges: seq<Edge>) {
    forall p :: !IsCycle(edges, p)
  }

  ghost predicate PathBetween(edges: seq<Edge>, p: seq<NodeId>, a: NodeId, b: NodeId) {
    IsPath(edges, p) && p[0] == a && p[|p| - 1] == b
  }

  ghost predicate Reaches(edges: seq<Edge>, a: NodeId, b: NodeId) {
    exists p :: PathBetween(edges, p, a, b)
  }

  ghost predicate OnCycle(edges: seq<Edge>, a: NodeId) {
    exists p :: IsCycle(edges, p) && p[0] == a
  }

  /** The node lies on a cycle or can be reached from one. */
  ghost predicate DownstreamOfCycle(edges: seq<Edge>, n: NodeId) {
    exists c :: OnCycle(edges, c) && Reaches(edges, c, n)
  }

  ghost predicate EndpointsIn(nodes: set<NodeId>, edges: seq<Edge>) {
    forall e :: e in edges ==> e.from in nodes && e.to in nodes
  }

  /** Every node once, every edge pointing forward. */
  ghost predicate IsTopological(nodes: set<NodeId>, edges: seq<Edge>, order: seq<NodeId>) {
    && Distinct(order)
    && Elems(order) == nodes
    && forall i, j :: 0 <= i < |order| && 0 <= j < |order| && Edge(order[i], order[j]) in edges ==> i < j
  }

  lemma PathSlice(edges: seq<Edge>, p: seq<NodeId>, lo: nat, hi: nat)
    requires IsPath(edges, p) && lo < hi <= |p|
    ensures IsPath(edges, p[lo..hi])
  {
    var q := p[lo..hi];
    forall i, j | 0 <= i && j == i + 1 && j < |q|
      ensures Edge(q[i], q[j]) in edges
    {
      assert q[i] == p[lo + i] && q[j] == p[lo + j];
    }
  }

  /** Two walks sharing an endpoint compose. */
  lemma PathJoin(edges: seq<Edge>, p: seq<NodeId>, q: seq<NodeId>)
    requires IsPath(edges, p) && IsPath(edges, q) && p[|p| - 1] == q[0]
    ensures IsPath(edges, p + q[1..])
    ensures (p + q[1..])[|p + q[1..]| - 1] == q[|q| - 1]
  {
    var r := p + q[1..];
    forall i, j | 0 <= i && j == i + 1 && j < |r|
      ensures Edge(r[i], r[j]) in edges
    {
      if j < |p| {
        assert r[i] == p[i] && r[j] == p[j];
      } else {
        assert r[j] == q[j - |p| + 1];
        assert r[i] == q[i - |p| + 1];
      }
    }
  }

  lemma ReachesTransitive(edges: seq<Edge>, a: NodeId, b: NodeId, c: NodeId)
    requires Reaches(edges, a, b) && Reaches(edges, b, c)
    ensures Reaches(edges, a, c)
  {
    var p :| PathBetween(edges, p, a, b);
    var q :| PathBetween(edges, q, b, c);
    PathJoin(edges, p, q);
    assert PathBetween(edges, p + q[1..], a, c);
  }

  lemma ReachesRefl(edges: seq<Edge>, a: NodeId)
    ensures Reaches(edges, a, a)
  {
    assert PathBetween(edges, [a], a, a);
  }

  lemma ReachesEdge(edges: seq<Edge>, a: NodeId, b: NodeId)
    requires Edge(a, b) in edges
    ensures Reaches(edges, a, b)
  {
    assert PathBetween(edges, [a, b], a, b);
  }

  /** Positions in a topological order strictly increase along a walk. */
  lemma {:induction false} PathForward(nodes: set<NodeId>, edges: seq<Edge>, order: seq<NodeId>,
                                       p: seq<NodeId>, i: nat, j: nat)
    requires IsTopological(nodes, edges, order) && EndpointsIn(nodes, edges)
    requires IsPath(edges, p)
    requires i < |order| && j < |order|
    requires p[0] == order[i] && p[|p| - 1] == order[j]
    ensures i + |p| - 1 <= j
    decreases |p|
  {
    if |p| == 1 {
      assert i == j;
    } else {
      var m := |p| - 1;
      assert Edge(p[m - 1], p[m]) in edges;
      assert p[m - 1] in Elems(order);
      var k :| 0 <= k < |order| && order[k] == p[m - 1];
      assert Edge(order[k], order[j]) in edges;
      PathSlice(edges, p, 0, m);
      PathForward(nodes, edges, order, p[..m], i, k);
    }
  }

  /** A graph with a topological order has no cycle. */
  lemma TopologicalAcyclic(nodes: set<NodeId>, edges: seq<Edge>, order: seq<NodeId>)
    requires IsTopological(nodes, edges, order) && EndpointsIn(nodes, edges)
    ensures Acyclic(edges)
  {
    forall p | IsCycle(edges, p)
      ensures false
    {
      assert Edge(p[0], p[1]) in edges;
      assert p[0] in Elems(order);
      var i :| 0 <= i < |order| && order[i] == p[0];
      PathForward(nodes, edges, order, p, i, i);
    }
  }

  /** Unvisited nodes all of whose predecessors were visited. */
  ghost function Ready(nodes: set<NodeId>, edges: seq<Edge>, done: set<NodeId>): set<NodeId> {
    set n | n in nodes && n !in done && PredecessorsIn(edges, done, n)
  }

  ghost predicate PredecessorsIn(edges: seq<Edge>, done: set<NodeId>, n: NodeId) {
    forall e :: e in edges && e.to == n ==> e.from in done
  }

  /** When nothing is ready, walks of any length inside the unvisited part end at every unvisited node. */
  lemma {:induction false} BackwardWalk(nodes: set<NodeId>, edges: seq<Edge>, done: set<NodeId>, n: NodeId, k: nat)
    returns (p: seq<NodeId>)
    requires EndpointsIn(nodes, edges) && Ready(nodes, edges, done) == {}
    requires n in nodes && n !in done
    ensures |p| == k + 1 && IsPath(edges, p) && p[k] == n
    ensures Elems(p) <= nodes - done
    decreases k
  {
    if k == 0 {
      p := [n];
    } else {
      assert n !in Ready(nodes, edges, done);
      assert !PredecessorsIn(edges, done, n);
      var e :| e in edges && e.to == n && e.from !in done;
      var q := BackwardWalk(nodes, edges, done, e.from, k - 1);
      assert Edge(e.from, n) == e;
      p := q + [n];
      forall i, j | 0 <= i && j == i + 1 && j < |p|
        ensures Edge(p[i], p[j]) in edges
      {
        if j < |q| { assert Edge(q[i], q[j]) in edges; }
      }
      assert Elems(p) == Elems(q) + {n};
    }
  }

  /** A stuck search proves a cycle: each unvisited node lies on one or downstream of one. */
  lemma StuckMeansCycle(nodes: set<NodeId>, edges: seq<Edge>, done: set<NodeId>, n: NodeId)
    requires EndpointsIn(nodes, edges) && Ready(nodes, edges, done) == {}
    requires n in nodes && n !in done
    ensures DownstreamOfCycle(edges, n)
    ensures !Acyclic(edges)
  {
    var rest := nodes - done;
    var p := BackwardWalk(nodes, edges, done, n, |rest|);
    var i, j := Pigeonhole(p, rest);
    PathSlice(edges, p, i, j + 1);
    var c := p[i..j + 1];
    assert IsCycle(edges, c) && c[0] == p[i];
    assert OnCycle(edges, p[i]);
    PathSlice(edges, p, i, |p|);
    assert p[i..|p|][|p| - i - 1] == n;
    assert PathBetween(edges, p[i..|p|], p[i], n);
    assert Reaches(edges, p[i], n);
  }

  /** `order` always takes the greatest ready node. */
  ghost predicate Greedy(nodes: set<NodeId>, edges: seq<Edge>, order: seq<NodeId>) {
    forall i :: 0 <= i < |order| ==> GreedyAt(nodes, edges, order, i)
  }

  ghost predicate GreedyAt(nodes: set<NodeId>, edges: seq<Edge>, order: seq<NodeId>, i: nat)
    requires i < |order|
  {
    var ready := Ready(nodes, edges, Elems(order[..i]));
    order[i] in ready && forall x :: x in ready ==> AtMost(x, order[i])
  }

  lemma GreedyPredecessor(nodes: set<NodeId>, edges: seq<Edge>, order: seq<NodeId>, j: nat, from: NodeId) returns (k: nat)
    requires Greedy(nodes, edges, order) && j < |order| && Edge(from, order[j]) in edges
    ensures k < j && order[k] == from
  {
    assert GreedyAt(nodes, edges, order, j);
    assert from in Elems(order[..j]);
    k :| 0 <= k < j && order[..j][k] == from;
  }

  /** A walk that ends at a visited node started at an earlier visited one. */
  lemma {:induction false} WalkBack(nodes: set<NodeId>, edges: seq<Edge>, order: seq<NodeId>, p: seq<NodeId>, j: nat)
    returns (i: nat)
    requires Greedy(nodes, edges, order) && IsPath(edges, p) && j < |order| && p[|p| - 1] == order[j]
    ensures i + |p| - 1 <= j && order[i] == p[0]
    decreases |p|
  {
    if |p| == 1 {
      i := j;
    } else {
      var m := |p| - 1;
      assert Edge(p[m - 1], p[m]) in edges;
      var k := GreedyPredecessor(nodes, edges, order, j, p[m - 1]);
      PathSlice(edges, p, 0, m);
      i := WalkBack(nodes, edges, order, p[..m], k);
    }
  }

  lemma GreedyDistinct(nodes: set<NodeId>, edges: seq<Edge>, order: seq<NodeId>)
    requires Greedy(nodes, edges, order)
    ensures Distinct(order)
  {
    forall i, j | 0 <= i < j < |order|
      ensures order[i] != order[j]
    {
      assert GreedyAt(nodes, edges, order, j);
      assert order[..j][i] == order[i];
      assert order[i] in Elems(order[..j]);
    }
  }

  lemma VisitedOffCycles(nodes: set<NodeId>, edges: seq<Edge>, order: seq<NodeId>, n: NodeId)
    requires Greedy(nodes, edges, order) && n in order
    ensures !DownstreamOfCycle(edges, n)
  {
    if DownstreamOfCycle(edges, n) {
      var c :| OnCycle(edges, c) && Reaches(edges, c, n);
      var p :| PathBetween(edges, p, c, n);
      var q :| IsCycle(edges, q) && q[0] == c;
      var j :| 0 <= j < |order| && order[j] == n;
      var i := WalkBack(nodes, edges, order, p, j);
      var k := WalkBack(nodes, edges, order, q, i);
      GreedyDistinct(nodes, edges, order);
    }
  }

  /** A stuck search has missed exactly the nodes on or downstream of a cycle. */
  lemma UnvisitedExactly(nodes: set<NodeId>, edges: seq<Edge>, order: seq<NodeId>, n: NodeId)
    requires EndpointsIn(nodes, edges) && Greedy(nodes, edges, order) && n in nodes
    requires Ready(nodes, edges, Elems(order)) == {}
    ensures n !in order <==> DownstreamOfCycle(edges, n)
  {
    if n in order {
      VisitedOffCycles(nodes, edges, order, n);
    } else {
      StuckMeansCycle(nodes, edges, Elems(order), n);
    }
  }

  /** Sequences of identifiers compared at their first difference. */
  ghost predicate LexAbove(s: seq<NodeId>, t: seq<NodeId>) {
    exists i: nat :: FirstDifference(s, t, i) && Less(t[i], s[i])
  }

  ghost predicate FirstDifference(s: seq<NodeId>, t: seq<NodeId>, i: nat) {
    i < |s| && i < |t| && s[i] != t[i] && forall k :: 0 <= k < i ==> s[k] == t[k]
  }

  /** A topological order that beats every other one in lexicographic comparison. */
  ghost predicate LexGreatest(nodes: set<NodeId>, edges: seq<Edge>, order: seq<NodeId>) {
    && IsTopological(nodes, edges, order)
    && forall t :: IsTopological(nodes, edges, t) && t != order ==> LexAbove(order, t)
  }

  lemma TopologicalReady(nodes: set<NodeId>, edges: seq<Edge>, t: seq<NodeId>, i: nat)
    requires IsTopological(nodes, edges, t) && EndpointsIn(nodes, edges) && i < |t|
    ensures t[i] in Ready(nodes, edges, Elems(t[..i]))
  {
    assert t[i] in Elems(t);
    forall e | e in edges && e.to == t[i]
      ensures e.from in Elems(t[..i])
    {
      assert e.from in Elems(t);
      var k :| 0 <= k < |t| && t[k] == e.from;
      assert Edge(t[k], t[i]) == e;
      assert t[..i][k] == t[k];
    }
    assert forall k :: 0 <= k < i ==> t[..i][k] == t[k] != t[i];
  }

  lemma GreedyTopological(nodes: set<NodeId>, edges: seq<Edge>, order: seq<NodeId>)
    requires Greedy(nodes, edges, order) && Elems(order) == nodes
    ensures IsTopological(nodes, edges, order)
  {
    GreedyDistinct(nodes, edges, order);
    forall i, j | 0 <= i < |order| && 0 <= j < |order| && Edge(order[i], order[j]) in edges
      ensures i < j
    {
      var k := GreedyPredecessor(nodes, edges, order, j, order[i]);
    }
  }

  lemma {:induction false} FindDifference(s: seq<NodeId>, t: seq<NodeId>) returns (i: nat)
    requires |s| == |t| && s != t
    ensures FirstDifference(s, t, i)
  {
    i := 0;
    while s[i] == t[i]
      invariant i < |s| && forall k :: 0 <= k < i ==> s[k] == t[k]
      decreases |s| - i
    {
      i := i + 1;
    }
  }

  lemma SameLength(nodes: set<NodeId>, edges: seq<Edge>, s: seq<NodeId>, t: seq<NodeId>)
    requires IsTopological(nodes, edges, s) && IsTopological(nodes, edges, t)
    ensures |s| == |t|
  {
    DistinctCardinality(s);
    DistinctCardinality(t);
  }

  /** Taking the greatest ready node first yields the lexicographically greatest topological order. */
  lemma GreedyLexGreatest(nodes: set<NodeId>, edges: seq<Edge>, order: seq<NodeId>)
    requires EndpointsIn(nodes, edges)
    requires Greedy(nodes, edges, order) && Elems(order) == nodes
    ensures LexGreatest(nodes, edges, order)
  {
    GreedyTopological(nodes, edges, order);
    forall t | IsTopological(nodes, edges, t) && t != order
      ensures LexAbove(order, t)
    {
      SameLength(nodes, edges, order, t);
      var i := FindDifference(order, t);
      TopologicalReady(nodes, edges, t, i);
      assert order[..i] == t[..i];
      assert GreedyAt(nodes, edges, order, i);
      assert AtMost(t[i], order[i]);
    }
  }

  /** Only the edge relation matters: repeats and list order of the edges do not. */
  lemma LexGreatestUnique(nodes: set<NodeId>, e1: seq<Edge>, e2: seq<Edge>, s: seq<NodeId>, t: seq<NodeId>)
    requires Elems(e1) == Elems(e2)
    requires LexGreatest(nodes, e1, s) && LexGreatest(nodes, e2, t)
    ensures s == t
  {
    assert forall e :: e in e1 <==> e in Elems(e1);
    assert forall e :: e in e2 <==> e in Elems(e2);
    if s != t {
      assert IsTopological(nodes, e1, t) && IsTopological(nodes, e2, s);
      var i: nat :| FirstDifference(s, t, i) && Less(t[i], s[i]);
      var k: nat :| FirstDifference(t, s, k) && Less(s[k], t[k]);
      assert i == k;
      LessAsymmetric(t[i], s[i]);
    }
  }
}
