/** Kahn's algorithm as the runtime runs it: a ready list re-sorted on every push and popped at its end. */
module GraphValidation {
  import opened Contracts
  import opened Digraph
  import opened Ordering

  datatype NodeKind = Deterministic | Agent | Approval | Fork | EventWait

  datatype Node = Node(id: NodeId, kind: NodeKind, sideEffect: SideEffect)

  datatype GraphValidationError = Cycle(node: NodeId) | MissingNode(name: string) | Empty

  datatype Graph = Graph(
    nodes: map<NodeId, Node>, edges: seq<Edge>, order: seq<NodeId>, compensators: map<NodeId, Node>)
  {
    /** What validation establishes about a graph. */
    ghost predicate Valid() {
      && nodes != map[]
      && EndpointsIn(nodes.Keys, edges)
      && compensators.Keys <= nodes.Keys
      && IsTopological(nodes.Keys, edges, order)
    }
  }

  /** Number of edges into `n` whose source is still outside `done`. */
  ghost function InDegree(edges: seq<Edge>, done: set<NodeId>, n: NodeId): nat {
    if edges == [] then 0
    else
      var e := edges[|edges| - 1];
      InDegree(edges[..|edges| - 1], done, n) + if e.to == n && e.from !in done then 1 else 0
  }

  /** Targets of the edges leaving `n`, in edge-list order, with repeats. */
  ghost function Targets(edges: seq<Edge>, n: NodeId): seq<NodeId> {
    if edges == [] then []
    else
      var e := edges[|edges| - 1];
      Targets(edges[..|edges| - 1], n) + if e.from == n then [e.to] else []
  }

  lemma {:induction false} InDegreeZero(edges: seq<Edge>, done: set<NodeId>, n: NodeId)
    ensures InDegree(edges, done, n) == 0 <==> PredecessorsIn(edges, done, n)
    decreases |edges|
  {
    if edges != [] {
      var init, e := edges[..|edges| - 1], edges[|edges| - 1];
      InDegreeZero(init, done, n);
      assert edges == init + [e];
    }
  }

  /** Visiting `n` lowers the in-degree of each target once per edge. */
  lemma {:induction false} InDegreeVisit(edges: seq<Edge>, done: set<NodeId>, n: NodeId, c: NodeId)
    requires n !in done
    ensures InDegree(edges, done, c) == InDegree(edges, done + {n}, c) + multiset(Targets(edges, n))[c]
    decreases |edges|
  {
    if edges != [] {
      InDegreeVisit(edges[..|edges| - 1], done, n, c);
    }
  }

  lemma {:induction false} TargetsAreEdges(edges: seq<Edge>, n: NodeId, c: NodeId)
    ensures c in Targets(edges, n) <==> Edge(n, c) in edges
    decreases |edges|
  {
    if edges != [] {
      var init, e := edges[..|edges| - 1], edges[|edges| - 1];
      TargetsAreEdges(init, n, c);
      assert edges == init + [e];
    }
  }

  /** The last entry of an ascending list bounds the rest, which stays ascending without it. */
  lemma PopGreatest(queue: seq<NodeId>)
    requires Ascending(queue) && Distinct(queue) && queue != []
    ensures var n, rest := queue[|queue| - 1], queue[..|queue| - 1];
            && Ascending(rest) && Distinct(rest) && n !in rest
            && Elems(queue) == Elems(rest) + {n}
            && forall x :: x in Elems(queue) ==> AtMost(x, n)
  {
    var n, rest := queue[|queue| - 1], queue[..|queue| - 1];
    assert queue == rest + [n];
    assert forall i :: 0 <= i < |rest| ==> rest[i] == queue[i];
  }

  lemma PushSorted(queue: seq<NodeId>, c: NodeId)
    requires Distinct(queue) && c !in queue
    ensures var q := Sort(queue + [c]); Ascending(q) && Distinct(q) && Elems(q) == Elems(queue) + {c}
  {
    SortElems(queue + [c]);
    assert Elems(queue + [c]) == Elems(queue) + {c};
  }

  /** The first two checks of validation; the error names the first endpoint missing from `nodes`. */
  method CheckReferences(nodes: map<NodeId, Node>, edges: seq<Edge>, compensators: map<NodeId, Node>)
    returns (missing: Option<string>)
    ensures missing.None? <==> EndpointsIn(nodes.Keys, edges) && compensators.Keys <= nodes.Keys
    ensures missing.Some? ==> MissingReported(nodes, edges, compensators, missing.value)
  {
    for i := 0 to |edges|
      invariant EndpointsIn(nodes.Keys, edges[..i])
    {
      var e := edges[i];
      assert e in edges;
      if e.from !in nodes {
        assert FirstBadEdge(nodes, edges, i);
        return Some(e.from);
      }
      if e.to !in nodes {
        assert FirstBadEdge(nodes, edges, i);
        return Some(e.to);
      }
      assert edges[..i + 1] == edges[..i] + [e];
    }
    assert edges[..|edges|] == edges;
    var rest := compensators.Keys;
    while rest != {}
      invariant rest <= compensators.Keys
      invariant compensators.Keys - rest <= nodes.Keys
      decreases rest
    {
      var k :| k in rest;
      if k !in nodes {
        return Some("compensator-for-" + k);
      }
      rest := rest - {k};
    }
    missing := None;
  }

  ghost predicate FirstBadEdge(nodes: map<NodeId, Node>, edges: seq<Edge>, i: nat) {
    i < |edges| && EndpointsIn(nodes.Keys, edges[..i]) && (edges[i].from !in nodes || edges[i].to !in nodes)
  }

  ghost predicate MissingReported(
    nodes: map<NodeId, Node>, edges: seq<Edge>, compensators: map<NodeId, Node>, name: string)
  {
    if EndpointsIn(nodes.Keys, edges) then
      exists k :: k in compensators.Keys - nodes.Keys && name == "compensator-for-" + k
    else
      exists i: nat ::
        FirstBadEdge(nodes, edges, i) && name == if edges[i].from !in nodes then edges[i].from else edges[i].to
  }

  /** In-degree and adjacency list of `n` count the given edges. */
  ghost predicate Counted(edges: seq<Edge>, indeg: map<NodeId, nat>, adj: map<NodeId, seq<NodeId>>, n: NodeId) {
    && (n in indeg ==> indeg[n] == InDegree(edges, {}, n))
    && Targets(edges, n) == if n in adj then adj[n] else []
  }

  lemma EdgeCounted(edges: seq<Edge>, e: Edge, indeg: map<NodeId, nat>, adj: map<NodeId, seq<NodeId>>, n: NodeId)
    requires Counted(edges, indeg, adj, n) && Counted(edges, indeg, adj, e.from) && e.to in indeg
    requires Counted(edges, indeg, adj, e.to)
    ensures Counted(edges + [e], indeg[e.to := indeg[e.to] + 1],
                    adj[e.from := (if e.from in adj then adj[e.from] else []) + [e.to]], n)
  {
    assert (edges + [e])[..|edges|] == edges;
  }

  /** In-degrees and adjacency lists, one entry per edge. */
  method BuildDegrees(nodes: map<NodeId, Node>, edges: seq<Edge>)
    returns (indeg: map<NodeId, nat>, adj: map<NodeId, seq<NodeId>>)
    requires EndpointsIn(nodes.Keys, edges)
    ensures indeg.Keys == nodes.Keys
    ensures forall n :: n in nodes ==> indeg[n] == InDegree(edges, {}, n)
    ensures forall n :: Targets(edges, n) == if n in adj then adj[n] else []
  {
    indeg := map n | n in nodes :: 0;
    adj := map[];
    for i := 0 to |edges|
      invariant indeg.Keys == nodes.Keys
      invariant forall n :: Counted(edges[..i], indeg, adj, n)
    {
      var e := edges[i];
      assert e in edges && edges[..i + 1] == edges[..i] + [e];
      ghost var indeg0, adj0 := indeg, adj;
      indeg := indeg[e.to := indeg[e.to] + 1];
      adj := adj[e.from := (if e.from in adj then adj[e.from] else []) + [e.to]];
      forall n
        ensures Counted(edges[..i] + [e], indeg, adj, n)
      {
        EdgeCounted(edges[..i], e, indeg0, adj0, n);
      }
    }
    assert edges[..|edges|] == edges;
    forall n
      ensures n in nodes ==> indeg[n] == InDegree(edges, {}, n)
      ensures Targets(edges, n) == if n in adj then adj[n] else []
    {
      assert Counted(edges, indeg, adj, n);
    }
  }

  /** The nodes of in-degree zero in hash-map order, then sorted. */
  method InitialReady(nodes: map<NodeId, Node>, edges: seq<Edge>, indeg: map<NodeId, nat>)
    returns (queue: seq<NodeId>)
    requires indeg.Keys == nodes.Keys
    requires forall n :: n in nodes ==> indeg[n] == InDegree(edges, {}, n)
    ensures Ascending(queue) && Distinct(queue)
    ensures Elems(queue) == Ready(nodes.Keys, edges, {})
  {
    queue := [];
    var rest := indeg.Keys;
    while rest != {}
      invariant rest <= indeg.Keys
      invariant Distinct(queue)
      invariant Elems(queue) == set n | n in indeg.Keys - rest && indeg[n] == 0
      decreases rest
    {
      var n :| n in rest;
      if indeg[n] == 0 {
        assert n !in Elems(queue);
        assert Elems(queue + [n]) == Elems(queue) + {n};
        queue := queue + [n];
      }
      rest := rest - {n};
    }
    SortElems(queue);
    queue := Sort(queue);
    forall n
      ensures n in Elems(queue) <==> n in Ready(nodes.Keys, edges, {})
    {
      InDegreeZero(edges, {}, n);
    }
  }

  /** Effect of decrementing once for each entry of `children`. */
  ghost predicate Released(children: seq<NodeId>, before: map<NodeId, nat>, ready: seq<NodeId>,
                           indeg: map<NodeId, nat>, queue: seq<NodeId>)
  {
    && indeg.Keys == before.Keys
    && (forall n :: n in before ==> indeg[n] + multiset(children)[n] == before[n])
    && Ascending(queue) && Distinct(queue)
    && (forall n :: n in queue <==> n in ready || (n in children && n in indeg && indeg[n] == 0))
  }

  /** One decrement; a child that reaches zero joins the ready list. */
  method ReleaseOne(ghost seen: seq<NodeId>, c: NodeId, ghost before: map<NodeId, nat>, ghost ready: seq<NodeId>,
                    indeg0: map<NodeId, nat>, queue0: seq<NodeId>)
    returns (indeg: map<NodeId, nat>, queue: seq<NodeId>)
    requires Released(seen, before, ready, indeg0, queue0)
    requires c in before && before[c] > multiset(seen)[c] && c !in ready
    ensures Released(seen + [c], before, ready, indeg, queue)
  {
    indeg, queue := indeg0, queue0;
    if c in indeg {
      indeg := indeg[c := indeg[c] - 1];
      if indeg[c] == 0 {
        PushSorted(queue, c);
        queue := Sort(queue + [c]);
        assert forall n :: n in queue <==> n in Elems(queue);
      }
    }
  }

  /** Decrement the in-degree of each child. No decrement can underflow. */
  method Release(children: seq<NodeId>, before: map<NodeId, nat>, ready: seq<NodeId>)
    returns (indeg: map<NodeId, nat>, queue: seq<NodeId>)
    requires forall c :: c in children ==> c in before && before[c] >= multiset(children)[c] && c !in ready
    requires Ascending(ready) && Distinct(ready)
    ensures Released(children, before, ready, indeg, queue)
  {
    indeg, queue := before, ready;
    for k := 0 to |children|
      invariant Released(children[..k], before, ready, indeg, queue)
    {
      var c := children[k];
      assert children == children[..k] + [c] + children[k + 1..];
      assert multiset(children)[c] == multiset(children[..k])[c] + 1 + multiset(children[k + 1..])[c];
      assert c in children;
      indeg, queue := ReleaseOne(children[..k], c, before, ready, indeg, queue);
      assert children[..k + 1] == children[..k] + [c];
    }
    assert children[..|children|] == children;
  }

  /** One visit keeps the ready list equal to the ready set. */
  lemma VisitReady(nodes: set<NodeId>, edges: seq<Edge>, done: set<NodeId>, n: NodeId, x: NodeId)
    requires EndpointsIn(nodes, edges) && Closed(edges, done) && n in Ready(nodes, edges, done)
    ensures x in Ready(nodes, edges, done + {n}) <==>
            || (x in Ready(nodes, edges, done) && x != n)
            || (x in Targets(edges, n) && InDegree(edges, done + {n}, x) == 0)
  {
    InDegreeZero(edges, done, x);
    InDegreeZero(edges, done + {n}, x);
    InDegreeVisit(edges, done, n, x);
    InDegreeZero(edges, done, n);
    InDegreeVisit(edges, done, n, n);
    TargetsAreEdges(edges, n, x);
    assert x in Targets(edges, n) <==> multiset(Targets(edges, n))[x] > 0;
    assert x in done ==> Edge(n, x) !in edges;
  }

  /** A visited set that contains the predecessors of its members. */
  ghost predicate Closed(edges: seq<Edge>, done: set<NodeId>) {
    forall v :: v in done ==> PredecessorsIn(edges, done, v)
  }

  /** The loop invariant of the search. */
  ghost predicate SearchInvariant(nodes: map<NodeId, Node>, edges: seq<Edge>, indeg: map<NodeId, nat>,
                                  queue: seq<NodeId>, order: seq<NodeId>, visited: set<NodeId>)
  {
    && visited == Elems(order) && visited <= nodes.Keys && Closed(edges, visited)
    && indeg.Keys == nodes.Keys
    && (forall n :: n in nodes ==> indeg[n] == InDegree(edges, visited, n))
    && Ascending(queue) && Distinct(queue)
    && Elems(queue) == Ready(nodes.Keys, edges, visited)
    && Greedy(nodes.Keys, edges, order)
  }

  lemma GreedyExtend(nodes: set<NodeId>, edges: seq<Edge>, order: seq<NodeId>, n: NodeId)
    requires Greedy(nodes, edges, order)
    requires n in Ready(nodes, edges, Elems(order))
    requires forall x :: x in Ready(nodes, edges, Elems(order)) ==> AtMost(x, n)
    ensures Greedy(nodes, edges, order + [n])
  {
    var next := order + [n];
    forall i | 0 <= i < |next|
      ensures GreedyAt(nodes, edges, next, i)
    {
      if i < |order| {
        assert GreedyAt(nodes, edges, order, i);
        assert next[..i] == order[..i];
      } else {
        assert next[..i] == order;
      }
    }
  }

  lemma ChildrenCounted(nodes: set<NodeId>, edges: seq<Edge>, done: set<NodeId>, n: NodeId, c: NodeId)
    requires EndpointsIn(nodes, edges) && n !in done && c in Targets(edges, n)
    ensures c in nodes && InDegree(edges, done, c) >= multiset(Targets(edges, n))[c]
    ensures c !in Ready(nodes, edges, done)
  {
    TargetsAreEdges(edges, n, c);
    InDegreeVisit(edges, done, n, c);
    assert Edge(n, c).to == c;
  }

  /** After releasing the children of `n`, the ready list holds the ready set of the enlarged visited set. */
  lemma ReleasedReady(nodes: set<NodeId>, edges: seq<Edge>, visited: set<NodeId>, n: NodeId, rest: seq<NodeId>,
                      before: map<NodeId, nat>, indeg: map<NodeId, nat>, queue: seq<NodeId>)
    requires EndpointsIn(nodes, edges) && Closed(edges, visited) && n in Ready(nodes, edges, visited)
    requires before.Keys == nodes && forall x :: x in nodes ==> before[x] == InDegree(edges, visited, x)
    requires forall x :: x in rest <==> x in Ready(nodes, edges, visited) && x != n
    requires Released(Targets(edges, n), before, rest, indeg, queue)
    ensures forall x :: x in nodes ==> indeg[x] == InDegree(edges, visited + {n}, x)
    ensures Elems(queue) == Ready(nodes, edges, visited + {n})
  {
    forall x | x in nodes
      ensures indeg[x] == InDegree(edges, visited + {n}, x)
    {
      InDegreeVisit(edges, visited, n, x);
    }
    forall x
      ensures x in queue <==> x in Ready(nodes, edges, visited + {n})
    {
      VisitReady(nodes, edges, visited, n, x);
      if x in Targets(edges, n) { ChildrenCounted(nodes, edges, visited, n, x); }
    }
  }

  /** The search state after releasing the children of `n` satisfies the invariant again. */
  lemma VisitInvariant(nodes: map<NodeId, Node>, edges: seq<Edge>, order: seq<NodeId>, visited: set<NodeId>, n: NodeId,
                       before: map<NodeId, nat>, rest: seq<NodeId>, indeg: map<NodeId, nat>, queue: seq<NodeId>)
    requires EndpointsIn(nodes.Keys, edges)
    requires visited == Elems(order) && visited <= nodes.Keys && Closed(edges, visited)
    requires before.Keys == nodes.Keys && forall x :: x in nodes ==> before[x] == InDegree(edges, visited, x)
    requires n in Ready(nodes.Keys, edges, visited)
    requires forall x :: x in rest <==> x in Ready(nodes.Keys, edges, visited) && x != n
    requires Released(Targets(edges, n), before, rest, indeg, queue)
    requires Greedy(nodes.Keys, edges, order + [n])
    ensures SearchInvariant(nodes, edges, indeg, queue, order + [n], visited + {n})
  {
    assert Elems(order + [n]) == visited + {n};
    ReleasedReady(nodes.Keys, edges, visited, n, rest, before, indeg, queue);
    ClosedExtend(nodes.Keys, edges, visited, n);
  }

  lemma ClosedExtend(nodes: set<NodeId>, edges: seq<Edge>, visited: set<NodeId>, n: NodeId)
    requires Closed(edges, visited) && n in Ready(nodes, edges, visited)
    ensures Closed(edges, visited + {n})
  {
    assert forall v :: v in visited ==> PredecessorsIn(edges, visited, v);
  }

  /** Visit the greatest ready node. */
  method Visit(nodes: map<NodeId, Node>, edges: seq<Edge>, adj: map<NodeId, seq<NodeId>>,
               indeg0: map<NodeId, nat>, queue0: seq<NodeId>, order0: seq<NodeId>, visited0: set<NodeId>)
    returns (indeg: map<NodeId, nat>, queue: seq<NodeId>, order: seq<NodeId>, visited: set<NodeId>)
    requires EndpointsIn(nodes.Keys, edges)
    requires forall n :: Targets(edges, n) == if n in adj then adj[n] else []
    requires SearchInvariant(nodes, edges, indeg0, queue0, order0, visited0) && queue0 != []
    ensures SearchInvariant(nodes, edges, indeg, queue, order, visited)
    ensures visited0 < visited && order == order0 + [queue0[|queue0| - 1]]
  {
    var n := queue0[|queue0| - 1];
    PopGreatest(queue0);
    var rest := queue0[..|queue0| - 1];
    assert n in Elems(queue0);
    order := order0 + [n];
    visited := visited0 + {n};
    GreedyExtend(nodes.Keys, edges, order0, n);
    var children := if n in adj then adj[n] else [];
    forall c | c in children
      ensures c in indeg0 && indeg0[c] >= multiset(children)[c] && c !in rest
    {
      ChildrenCounted(nodes.Keys, edges, visited0, n, c);
      assert c !in Elems(queue0);
    }
    indeg, queue := Release(children, indeg0, rest);
    assert forall x :: x in rest <==> x in Elems(rest);
    VisitInvariant(nodes, edges, order0, visited0, n, indeg0, rest, indeg, queue);
  }

  /** The search itself: it stops when no unvisited node is ready. */
  method Search(nodes: map<NodeId, Node>, edges: seq<Edge>)
    returns (order: seq<NodeId>, visited: set<NodeId>)
    requires EndpointsIn(nodes.Keys, edges)
    ensures visited == Elems(order) && visited <= nodes.Keys
    ensures Greedy(nodes.Keys, edges, order)
    ensures Ready(nodes.Keys, edges, visited) == {}
    ensures forall n :: n in nodes ==> (n !in visited <==> DownstreamOfCycle(edges, n))
  {
    var indeg, adj := BuildDegrees(nodes, edges);
    var queue := InitialReady(nodes, edges, indeg);
    order, visited := [], {};
    assert Elems(order) == {};
    while queue != []
      invariant SearchInvariant(nodes, edges, indeg, queue, order, visited)
      decreases nodes.Keys - visited
    {
      ghost var earlier := visited;
      indeg, queue, order, visited := Visit(nodes, edges, adj, indeg, queue, order, visited);
      assert nodes.Keys - visited < nodes.Keys - earlier;
    }
    assert Elems(queue) == {};
    forall n | n in nodes
      ensures n !in visited <==> DownstreamOfCycle(edges, n)
    {
      UnvisitedExactly(nodes.Keys, edges, order, n);
    }
  }

  /** The keys of a hash map in the order its iterator happens to yield them. */
  ghost predicate Iterates(keys: seq<NodeId>, ids: set<NodeId>) {
    Distinct(keys) && Elems(keys) == ids
  }

  /** The first key the search has missed. */
  function FindUnvisited(keys: seq<NodeId>, visited: set<NodeId>): Option<NodeId> {
    if keys == [] then None
    else if keys[0] !in visited then Some(keys[0])
    else FindUnvisited(keys[1..], visited)
  }

  /** The node a cycle error names: the first key on or downstream of a cycle. */
  ghost function Named(edges: seq<Edge>, keys: seq<NodeId>): (n: Option<NodeId>)
    ensures n.Some? ==> n.value in keys && DownstreamOfCycle(edges, n.value)
    ensures n.None? ==> forall k :: k in keys ==> !DownstreamOfCycle(edges, k)
  {
    if keys == [] then None
    else if DownstreamOfCycle(edges, keys[0]) then Some(keys[0])
    else Named(edges, keys[1..])
  }

  lemma {:induction false} FoundIsNamed(edges: seq<Edge>, keys: seq<NodeId>, visited: set<NodeId>)
    requires forall k :: k in keys ==> (k !in visited <==> DownstreamOfCycle(edges, k))
    ensures FindUnvisited(keys, visited) == Named(edges, keys)
    decreases |keys|
  {
    if keys != [] {
      assert keys[0] in keys;
      FoundIsNamed(edges, keys[1..], visited);
    }
  }

  ghost predicate ReferencesResolve(nodes: map<NodeId, Node>, edges: seq<Edge>, compensators: map<NodeId, Node>) {
    EndpointsIn(nodes.Keys, edges) && compensators.Keys <= nodes.Keys
  }

  /** What validation answers. It succeeds exactly on non-empty graphs whose references resolve and whose edges are
      acyclic, and the order is then the lexicographically greatest topological order; each error comes exactly in
      its case and names what it should. */
  ghost predicate Validated(nodes: map<NodeId, Node>, edges: seq<Edge>, compensators: map<NodeId, Node>,
                            keys: seq<NodeId>, r: Result<Graph, GraphValidationError>)
  {
    if nodes == map[] then r == Err(Empty)
    else if !ReferencesResolve(nodes, edges, compensators) then
      r.Err? && r.error.MissingNode? && MissingReported(nodes, edges, compensators, r.error.name)
    else if !Acyclic(edges) then
      Named(edges, keys).Some? && r == Err(Cycle(Named(edges, keys).value))
    else
      && r.Ok? && r.value == Graph(nodes, edges, r.value.order, compensators)
      && r.value.Valid() && LexGreatest(nodes.Keys, edges, r.value.order)
  }

  /** Validation, with the iteration order of the node map as `keys`. */
  method ValidateWithCompensators(nodes: map<NodeId, Node>, edges: seq<Edge>, compensators: map<NodeId, Node>,
                                  keys: seq<NodeId>)
    returns (r: Result<Graph, GraphValidationError>)
    requires Iterates(keys, nodes.Keys)
    ensures Validated(nodes, edges, compensators, keys, r)
  {
    if nodes == map[] {
      return Err(Empty);
    }
    var missing := CheckReferences(nodes, edges, compensators);
    if missing.Some? {
      return Err(MissingNode(missing.value));
    }
    var order, visited := Search(nodes, edges);
    SubsetCardinality(visited, nodes.Keys);
    if |visited| != |nodes.Keys| {
      assert nodes.Keys <= visited ==> visited == nodes.Keys;
      ghost var n :| n in nodes.Keys && n !in visited;
      StuckMeansCycle(nodes.Keys, edges, visited, n);
      assert n in Elems(keys);
      forall k | k in keys
        ensures k !in visited <==> DownstreamOfCycle(edges, k)
      {
        assert k in Elems(keys);
      }
      FoundIsNamed(edges, keys, visited);
      var bad := FindUnvisited(keys, visited);
      return Err(Cycle(if bad.Some? then bad.value else "unknown"));
    }
    GreedyLexGreatest(nodes.Keys, edges, order);
    TopologicalAcyclic(nodes.Keys, edges, order);
    return Ok(Graph(nodes, edges, order, compensators));
  }

  /** Validation without compensators. */
  method Validate(nodes: map<NodeId, Node>, edges: seq<Edge>, keys: seq<NodeId>)
    returns (r: Result<Graph, GraphValidationError>)
    requires Iterates(keys, nodes.Keys)
    ensures Validated(nodes, edges, map[], keys, r)
  {
    r := ValidateWithCompensators(nodes, edges, map[], keys);
  }

  class GraphBuilder {
    var nodes: map<NodeId, Node>
    var edges: seq<Edge>
    var compensators: map<NodeId, Node>

    constructor ()
      ensures nodes == map[] && edges == [] && compensators == map[]
    {
      nodes, edges, compensators := map[], [], map[];
    }

    /** Nodes are filed under their own ids. */
    ghost predicate Valid()
      reads this
    {
      forall k :: k in nodes ==> nodes[k].id == k
    }

    method AddNode(node: Node)
      requires Valid()
      modifies this`nodes
      ensures Valid() && nodes == old(nodes)[node.id := node]
    {
      nodes := nodes[node.id := node];
    }

    method AddEdge(from: NodeId, to: NodeId)
      modifies this`edges
      ensures edges == old(edges) + [Edge(from, to)]
    {
      edges := edges + [Edge(from, to)];
    }

    method AddCompensator(forStep: NodeId, compensator: Node)
      modifies this`compensators
      ensures compensators == old(compensators)[forStep := compensator]
    {
      compensators := compensators[forStep := compensator];
    }

    method Build(keys: seq<NodeId>) returns (r: Result<Graph, GraphValidationError>)
      requires Valid() && Iterates(keys, nodes.Keys)
      ensures Validated(nodes, edges, compensators, keys, r)
      ensures r.Ok? ==> forall id :: id in r.value.order ==> id in nodes && nodes[id].id == id
    {
      r := ValidateWithCompensators(nodes, edges, compensators, keys);
      assert r.Ok? ==> Elems(r.value.order) == nodes.Keys;
    }
  }

  /** Repeats and list order of the edges do not change the verdict either. */
  lemma SamePaths(e1: seq<Edge>, e2: seq<Edge>)
    requires Elems(e1) == Elems(e2)
    ensures Acyclic(e1) <==> Acyclic(e2)
  {
    assert forall e :: e in e1 <==> e in Elems(e1);
    assert forall e :: e in e2 <==> e in Elems(e2);
    assert forall p :: IsCycle(e1, p) <==> IsCycle(e2, p);
  }

  // ---- which node a cycle error names

  lemma {:induction false} CycleSpreads(edges: seq<Edge>, p: seq<NodeId>)
    requires IsPath(edges, p) && OnCycle(edges, p[0])
    requires forall e :: e in edges && OnCycle(edges, e.from) ==> OnCycle(edges, e.to)
    ensures OnCycle(edges, p[|p| - 1])
    decreases |p|
  {
    if |p| > 1 {
      var m := |p| - 1;
      PathSlice(edges, p, 0, m);
      CycleSpreads(edges, p[..m]);
      assert Edge(p[m - 1], p[m]) in edges;
    }
  }

  lemma {:induction false} SomeIteration(ids: set<NodeId>) returns (keys: seq<NodeId>)
    ensures Iterates(keys, ids)
    decreases ids
  {
    if ids == {} {
      keys := [];
      assert Elems(keys) == {};
    } else {
      var k :| k in ids;
      keys := SomeIterationFrom(ids, k);
    }
  }

  lemma {:induction false} SomeIterationFrom(ids: set<NodeId>, first: NodeId) returns (keys: seq<NodeId>)
    requires first in ids
    ensures Iterates(keys, ids) && keys[0] == first
    decreases ids, 0
  {
    var rest := SomeIteration(ids - {first});
    keys := [first] + rest;
    assert Elems(keys) == {first} + Elems(rest);
    assert first !in Elems(rest);
  }

  /** Whatever the iteration order, the node named lies on a cycle, exactly when no edge leads from a node on a
      cycle to a node on none. */
  lemma ReportOnCycleExactly(nodes: set<NodeId>, edges: seq<Edge>)
    requires EndpointsIn(nodes, edges)
    ensures (forall keys :: Iterates(keys, nodes) && Named(edges, keys).Some? ==> OnCycle(edges, Named(edges, keys).value))
            <==> (forall e :: e in edges && OnCycle(edges, e.from) ==> OnCycle(edges, e.to))
  {
    if forall e :: e in edges && OnCycle(edges, e.from) ==> OnCycle(edges, e.to) {
      forall keys | Iterates(keys, nodes) && Named(edges, keys).Some?
        ensures OnCycle(edges, Named(edges, keys).value)
      {
        var n := Named(edges, keys).value;
        var c :| OnCycle(edges, c) && Reaches(edges, c, n);
        var p :| PathBetween(edges, p, c, n);
        CycleSpreads(edges, p);
      }
    } else {
      var e :| e in edges && OnCycle(edges, e.from) && !OnCycle(edges, e.to);
      assert e == Edge(e.from, e.to);
      ReachesEdge(edges, e.from, e.to);
      var keys := SomeIterationFrom(nodes, e.to);
      assert Named(edges, keys) == Some(e.to);
    }
  }

  const TAILED_CYCLE: seq<Edge> := [Edge("a", "b"), Edge("b", "a"), Edge("b", "c")]

  lemma TailOffCycle()
    ensures DownstreamOfCycle(TAILED_CYCLE, "c") && !OnCycle(TAILED_CYCLE, "c")
  {
    var edges := TAILED_CYCLE;
    assert IsCycle(edges, ["b", "a", "b"]) && ["b", "a", "b"][0] == "b";
    assert OnCycle(edges, "b");
    ReachesEdge(edges, "b", "c");
    forall p | IsCycle(edges, p)
      ensures p[0] != "c"
    {
      assert Edge(p[0], p[1]) in edges;
    }
  }

  /** Validation does name a node that lies on no cycle. */
  method CycleReportMayBeDownstream(a: Node, b: Node, c: Node) returns (r: Result<Graph, GraphValidationError>)
    ensures r == Err(Cycle("c")) && !OnCycle(TAILED_CYCLE, "c")
  {
    TailOffCycle();
    var nodes: map<NodeId, Node> := map["a" := a, "b" := b, "c" := c];
    var keys := ["c", "a", "b"];
    assert Elems(keys) == nodes.Keys;
    CyclicWhenDownstream(TAILED_CYCLE, "c");
    assert "a" in nodes && ReferencesResolve(nodes, TAILED_CYCLE, map[]);
    assert keys[0] == "c" && Named(TAILED_CYCLE, keys) == Some("c");
    r := Validate(nodes, TAILED_CYCLE, keys);
  }

  lemma CyclicWhenDownstream(edges: seq<Edge>, n: NodeId)
    requires DownstreamOfCycle(edges, n)
    ensures !Acyclic(edges)
  {
    var c :| OnCycle(edges, c) && Reaches(edges, c, n);
    var p :| IsCycle(edges, p) && p[0] == c;
  }
}
