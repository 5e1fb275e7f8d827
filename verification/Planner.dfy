/** The planner's dependency sort: a depth-first post-order that also has to cope with cyclic declarations. */
module Planner {
  import opened Capabilities
  import opened Digraph
  import opened Ordering

  ghost function IdSet(caps: seq<Capability>): set<string> {
    Elems(Ids(caps))
  }

  /** The edges "depends on" inside the set: from a capability to each dependency that is in the set. */
  ghost function DependencyEdges(caps: seq<Capability>): seq<Edge> {
    EdgesOf(caps, IdSet(caps))
  }

  ghost function EdgesOf(caps: seq<Capability>, within: set<string>): seq<Edge> {
    if caps == [] then []
    else
      var c := caps[|caps| - 1];
      EdgesOf(caps[..|caps| - 1], within) + EdgesFrom(c.id, c.dependsOn, within)
  }

  ghost function EdgesFrom(id: string, deps: seq<string>, within: set<string>): seq<Edge> {
    if deps == [] then []
    else
      var d := deps[|deps| - 1];
      EdgesFrom(id, deps[..|deps| - 1], within) + if d in within then [Edge(id, d)] else []
  }

  lemma {:induction false} EdgesFromMembers(id: string, deps: seq<string>, within: set<string>, e: Edge)
    ensures e in EdgesFrom(id, deps, within) <==> e.from == id && e.to in deps && e.to in within
    decreases |deps|
  {
    if deps != [] {
      EdgesFromMembers(id, deps[..|deps| - 1], within, e);
      assert deps == deps[..|deps| - 1] + [deps[|deps| - 1]];
    }
  }

  lemma {:induction false} EdgesOfMembers(caps: seq<Capability>, within: set<string>, e: Edge)
    ensures e in EdgesOf(caps, within) <==>
            exists i :: 0 <= i < |caps| && e.from == caps[i].id && e.to in caps[i].dependsOn && e.to in within
    decreases |caps|
  {
    if caps != [] {
      var n := |caps| - 1;
      EdgesOfMembers(caps[..n], within, e);
      EdgesFromMembers(caps[n].id, caps[n].dependsOn, within, e);
    }
  }

  lemma DependencyEdge(caps: seq<Capability>, c: Capability, d: string)
    requires c in caps && d in c.dependsOn && d in IdSet(caps)
    ensures Edge(c.id, d) in DependencyEdges(caps)
  {
    var i :| 0 <= i < |caps| && caps[i] == c;
    EdgesOfMembers(caps, IdSet(caps), Edge(c.id, d));
  }

  /** The dependency `d` of the capability at position i comes earlier, unless it leads back to it. */
  ghost predicate DependencyPlaced(edges: seq<Edge>, order: seq<Capability>, i: nat, d: string)
    requires i < |order|
  {
    d in Ids(order)[..i] || Reaches(edges, d, order[i].id)
  }

  /** From position `from` on, every in-set dependency is placed. */
  ghost predicate Placed(edges: seq<Edge>, ids: set<string>, order: seq<Capability>, from: nat) {
    forall i, d :: from <= i < |order| && d in order[i].dependsOn && d in ids ==> DependencyPlaced(edges, order, i, d)
  }

  /** Visited but not yet emitted: the capabilities on the recursion stack. */
  ghost function Pending(visited: set<string>, order: seq<Capability>): set<string> {
    visited - Elems(Ids(order))
  }

  /** Everything on the stack leads to `id`. */
  ghost predicate StackReaches(edges: seq<Edge>, visited: set<string>, order: seq<Capability>, id: string) {
    forall g :: g in Pending(visited, order) ==> Reaches(edges, g, id)
  }

  /** What the search keeps: emitted ids are visited, distinct and come from the set. */
  ghost predicate SearchState(caps: seq<Capability>, visited: set<string>, order: seq<Capability>) {
    && visited <= IdSet(caps)
    && Elems(Ids(order)) <= visited
    && Distinct(Ids(order))
    && (forall x :: x in order ==> x in caps)
    && DependenciesVisited(IdSet(caps), visited, order)
  }

  ghost predicate DependenciesVisited(ids: set<string>, visited: set<string>, order: seq<Capability>) {
    forall x, d :: x in order && d in x.dependsOn && d in ids ==> d in visited
  }

  /** Everything emitted from position `from` on was needed by `id`. */
  ghost predicate NeededBy(edges: seq<Edge>, id: string, order: seq<Capability>, from: nat) {
    forall p :: from <= p < |order| ==> Reaches(edges, id, order[p].id)
  }

  lemma NeededThrough(caps: seq<Capability>, c: Capability, dep: string, before: seq<Capability>, order: seq<Capability>, from: nat)
    requires c in caps && dep in c.dependsOn && dep in IdSet(caps) && before <= order
    requires NeededBy(DependencyEdges(caps), c.id, before, from) && NeededBy(DependencyEdges(caps), dep, order, |before|)
    ensures NeededBy(DependencyEdges(caps), c.id, order, from)
  {
    DependencyEdge(caps, c, dep);
    ReachesEdge(DependencyEdges(caps), c.id, dep);
    forall p | from <= p < |order|
      ensures Reaches(DependencyEdges(caps), c.id, order[p].id)
    {
      if p < |before| {
        assert order[p] == before[p];
      } else {
        ReachesTransitive(DependencyEdges(caps), c.id, dep, order[p].id);
      }
    }
  }

  lemma NeededItself(edges: seq<Edge>, c: Capability, order: seq<Capability>, from: nat)
    requires NeededBy(edges, c.id, order, from)
    ensures NeededBy(edges, c.id, order + [c], from)
  {
    ReachesRefl(edges, c.id);
  }

  lemma PlacedPrefix(edges: seq<Edge>, ids: set<string>, order: seq<Capability>, longer: seq<Capability>, from: nat)
    requires Placed(edges, ids, order, from) && order <= longer && Placed(edges, ids, longer, |order|)
    ensures Placed(edges, ids, longer, from)
  {
    forall i, d | from <= i < |longer| && d in longer[i].dependsOn && d in ids
      ensures DependencyPlaced(edges, longer, i, d)
    {
      if i < |order| {
        assert DependencyPlaced(edges, order, i, d);
        assert Ids(order)[..i] == Ids(longer)[..i];
      }
    }
  }

  lemma PushState(caps: seq<Capability>, visited: set<string>, order: seq<Capability>, c: Capability)
    requires SearchState(caps, visited, order) && c in caps && c.id in visited && c.id !in Elems(Ids(order))
    requires forall d :: d in c.dependsOn && d in IdSet(caps) ==> d in visited
    ensures SearchState(caps, visited, order + [c])
    ensures Elems(Ids(order + [c])) == Elems(Ids(order)) + {c.id}
  {
    assert Ids(order + [c]) == Ids(order) + [c.id];
  }

  /** A visited dependency of the capability being emitted was emitted already or is on the stack. */
  lemma PushPlaced(caps: seq<Capability>, visited: set<string>, order: seq<Capability>, c: Capability)
    requires c in caps && StackReaches(DependencyEdges(caps), visited, order, c.id)
    requires forall d :: d in c.dependsOn && d in IdSet(caps) ==> d in visited
    ensures Placed(DependencyEdges(caps), IdSet(caps), order + [c], |order|)
  {
    var longer := order + [c];
    forall i, d | |order| <= i < |longer| && d in longer[i].dependsOn && d in IdSet(caps)
      ensures DependencyPlaced(DependencyEdges(caps), longer, i, d)
    {
      assert Ids(longer)[..i] == Ids(order);
    }
  }

  lemma StackDescends(caps: seq<Capability>, visited: set<string>, order: seq<Capability>, c: Capability, d: string)
    requires c in caps && d in c.dependsOn && d in IdSet(caps)
    requires StackReaches(DependencyEdges(caps), visited, order, c.id)
    ensures StackReaches(DependencyEdges(caps), visited, order, d)
  {
    DependencyEdge(caps, c, d);
    ReachesEdge(DependencyEdges(caps), c.id, d);
    forall g | g in Pending(visited, order)
      ensures Reaches(DependencyEdges(caps), g, d)
    {
      ReachesTransitive(DependencyEdges(caps), g, c.id, d);
    }
  }

  // ---- the order of discovery, without the mutable search state

  ghost predicate KeyedById(byId: map<string, Capability>) {
    forall k :: k in byId ==> byId[k].id == k
  }

  /** Depth-first post-order over a work list: what is visited afterwards and what is emitted. */
  ghost function Walk(byId: map<string, Capability>, todo: seq<string>, visited: set<string>)
    : (r: (set<string>, seq<Capability>))
    requires KeyedById(byId)
    ensures visited <= r.0
    decreases byId.Keys - visited, |todo|
  {
    if todo == [] then (visited, [])
    else
      var id := todo[0];
      if id !in byId || id in visited then Walk(byId, todo[1..], visited)
      else
        var inner := Walk(byId, byId[id].dependsOn, visited + {id});
        var rest := Walk(byId, todo[1..], inner.0);
        (rest.0, inner.1 + [byId[id]] + rest.1)
  }

  /** What an earlier part of a work list brings in is emitted before what the later part adds. */
  lemma {:induction false} WalkAppend(byId: map<string, Capability>, a: seq<string>, b: seq<string>, visited: set<string>)
    requires KeyedById(byId)
    ensures var x := Walk(byId, a, visited);
            var y := Walk(byId, b, x.0);
            Walk(byId, a + b, visited) == (y.0, x.1 + y.1)
    decreases byId.Keys - visited, |a|
  {
    if a == [] {
      assert [] + b == b && [] + Walk(byId, b, visited).1 == Walk(byId, b, visited).1;
    } else {
      var id := a[0];
      assert (a + b)[1..] == a[1..] + b;
      if id !in byId || id in visited {
        WalkAppend(byId, a[1..], b, visited);
      } else {
        var inner := Walk(byId, byId[id].dependsOn, visited + {id});
        WalkAppend(byId, a[1..], b, inner.0);
        var x := Walk(byId, a[1..], inner.0);
        var y := Walk(byId, b, x.0);
        assert inner.1 + [byId[id]] + (x.1 + y.1) == inner.1 + [byId[id]] + x.1 + y.1;
      }
    }
  }

  lemma WalkOne(byId: map<string, Capability>, id: string, visited: set<string>)
    requires KeyedById(byId)
    ensures Walk(byId, [id], visited) ==
            if id !in byId || id in visited then (visited, [])
            else
              var inner := Walk(byId, byId[id].dependsOn, visited + {id});
              (inner.0, inner.1 + [byId[id]])
  {
    assert [id][1..] == [];
    if id in byId && id !in visited {
      var inner := Walk(byId, byId[id].dependsOn, visited + {id});
      assert inner.1 + [byId[id]] + [] == inner.1 + [byId[id]];
    }
  }

  /** Under one root: what the first j declared dependencies bring in, then what the others add, then the root. */
  lemma DiscoveredUnderRoot(byId: map<string, Capability>, id: string, visited: set<string>, j: nat)
    requires KeyedById(byId) && id in byId && id !in visited && j <= |byId[id].dependsOn|
    ensures var deps := byId[id].dependsOn;
            var first := Walk(byId, deps[..j], visited + {id});
            Walk(byId, [id], visited).1 == first.1 + Walk(byId, deps[j..], first.0).1 + [byId[id]]
  {
    var deps := byId[id].dependsOn;
    WalkOne(byId, id, visited);
    WalkAppend(byId, deps[..j], deps[j..], visited + {id});
    assert deps[..j] + deps[j..] == deps;
  }

  /** The search state has followed the work list. */
  ghost predicate Followed(byId: map<string, Capability>, todo: seq<string>, visited0: set<string>, order0: seq<Capability>,
                           visited: set<string>, order: seq<Capability>)
    requires KeyedById(byId)
  {
    var w := Walk(byId, todo, visited0);
    visited == w.0 && order == order0 + w.1
  }

  lemma FollowOne(byId: map<string, Capability>, todo: seq<string>, id: string, visited0: set<string>, order0: seq<Capability>,
                  visited1: set<string>, order1: seq<Capability>, visited: set<string>, order: seq<Capability>)
    requires KeyedById(byId) && Followed(byId, todo, visited0, order0, visited1, order1)
    requires Followed(byId, [id], visited1, order1, visited, order)
    ensures Followed(byId, todo + [id], visited0, order0, visited, order)
  {
    WalkAppend(byId, todo, [id], visited0);
    assert order0 + (Walk(byId, todo, visited0).1 + Walk(byId, [id], visited1).1)
        == order0 + Walk(byId, todo, visited0).1 + Walk(byId, [id], visited1).1;
  }

  lemma FollowNothing(byId: map<string, Capability>, id: string, visited: set<string>, order: seq<Capability>)
    requires KeyedById(byId) && (id !in byId || id in visited)
    ensures Followed(byId, [id], visited, order, visited, order)
  {
    WalkOne(byId, id, visited);
    assert order + [] == order;
  }

  lemma FollowStart(byId: map<string, Capability>, c: Capability, visited: set<string>, order: seq<Capability>)
    requires KeyedById(byId)
    ensures Followed(byId, c.dependsOn[..0], visited, order, visited, order)
  {
    assert c.dependsOn[..0] == [] && order + [] == order;
  }

  lemma FollowEmit(byId: map<string, Capability>, c: Capability, visited0: set<string>, order0: seq<Capability>,
                   visited: set<string>, order: seq<Capability>)
    requires KeyedById(byId) && c.id in byId && byId[c.id] == c && c.id !in visited0
    requires Followed(byId, c.dependsOn, visited0 + {c.id}, order0, visited, order)
    ensures Followed(byId, [c.id], visited0, order0, visited, order + [c])
  {
    WalkOne(byId, c.id, visited0);
    var inner := Walk(byId, c.dependsOn, visited0 + {c.id});
    assert order0 + (inner.1 + [c]) == order0 + inner.1 + [c];
  }

  /** What one visit does: it emits the capability last, unless it was visited before, after everything of its that
      was not; it leaves the recursion stack as it was, places every in-set dependency of what it emits, emits only
      what the capability needs, and follows the order of discovery. */
  ghost predicate VisitedOnce(caps: seq<Capability>, c: Capability, byId: map<string, Capability>,
                              visited0: set<string>, order0: seq<Capability>, visited: set<string>, order: seq<Capability>)
  {
    && SearchState(caps, visited, order)
    && visited0 + {c.id} <= visited && order0 <= order
    && Pending(visited, order) == Pending(visited0, order0)
    && Placed(DependencyEdges(caps), IdSet(caps), order, |order0|)
    && NeededBy(DependencyEdges(caps), c.id, order, |order0|)
    && (KeyedById(byId) && c.id in byId && byId[c.id] == c ==> Followed(byId, [c.id], visited0, order0, visited, order))
    && (c.id in visited0 ==> visited == visited0 && order == order0)
    && (c.id !in visited0 ==>
          && |order| > |order0| && order[|order| - 1] == c
          && (order == order0 + [c] <==> forall d :: d in c.dependsOn && d in IdSet(caps) ==> d in visited0 + {c.id}))
  }

  /** The first k dependencies of the capability on top of the stack have been visited. */
  ghost predicate Visiting(caps: seq<Capability>, c: Capability, byId: map<string, Capability>, k: nat,
                           visited0: set<string>, order0: seq<Capability>, visited: set<string>, order: seq<Capability>)
    requires k <= |c.dependsOn| && KeyedById(byId)
  {
    && SearchState(caps, visited, order)
    && visited0 + {c.id} <= visited && order0 <= order
    && Pending(visited, order) == Pending(visited0, order0) + {c.id}
    && StackReaches(DependencyEdges(caps), visited, order, c.id)
    && Placed(DependencyEdges(caps), IdSet(caps), order, |order0|)
    && NeededBy(DependencyEdges(caps), c.id, order, |order0|)
    && Followed(byId, c.dependsOn[..k], visited0 + {c.id}, order0, visited, order)
    && (forall d :: d in c.dependsOn[..k] && d in IdSet(caps) ==> d in visited)
    && (order == order0 ==> visited == visited0 + {c.id})
    && (order == order0 <==> forall d :: d in c.dependsOn[..k] && d in IdSet(caps) ==> d in visited0 + {c.id})
  }

  lemma VisitingStarts(caps: seq<Capability>, c: Capability, byId: map<string, Capability>, visited0: set<string>,
                       order0: seq<Capability>)
    requires KeyedById(byId) && c in caps && c.id in IdSet(caps) && c.id !in visited0
    requires SearchState(caps, visited0, order0) && StackReaches(DependencyEdges(caps), visited0, order0, c.id)
    ensures Visiting(caps, c, byId, 0, visited0, order0, visited0 + {c.id}, order0)
  {
    ReachesRefl(DependencyEdges(caps), c.id);
    FollowStart(byId, c, visited0 + {c.id}, order0);
  }

  /** A dependency outside the set changes nothing. */
  lemma VisitingSkips(caps: seq<Capability>, c: Capability, byId: map<string, Capability>, k: nat, visited0: set<string>,
                      order0: seq<Capability>, visited: set<string>, order: seq<Capability>)
    requires k < |c.dependsOn| && KeyedById(byId) && byId.Keys == IdSet(caps) && c.dependsOn[k] !in IdSet(caps)
    requires Visiting(caps, c, byId, k, visited0, order0, visited, order)
    ensures Visiting(caps, c, byId, k + 1, visited0, order0, visited, order)
  {
    var dep := c.dependsOn[k];
    assert c.dependsOn[..k + 1] == c.dependsOn[..k] + [dep];
    FollowNothing(byId, dep, visited, order);
    FollowOne(byId, c.dependsOn[..k], dep, visited0 + {c.id}, order0, visited, order, visited, order);
  }

  lemma VisitingNext(caps: seq<Capability>, c: Capability, byId: map<string, Capability>, k: nat, visited0: set<string>,
                     order0: seq<Capability>, visited1: set<string>, order1: seq<Capability>, visited: set<string>,
                     order: seq<Capability>)
    requires k < |c.dependsOn| && KeyedById(byId) && c in caps && byId.Keys == IdSet(caps) && c.dependsOn[k] in byId
    requires Visiting(caps, c, byId, k, visited0, order0, visited1, order1)
    requires VisitedOnce(caps, byId[c.dependsOn[k]], byId, visited1, order1, visited, order)
    ensures Visiting(caps, c, byId, k + 1, visited0, order0, visited, order)
  {
    var dep := c.dependsOn[k];
    assert c.dependsOn[..k + 1] == c.dependsOn[..k] + [dep];
    PlacedPrefix(DependencyEdges(caps), IdSet(caps), order1, order, |order0|);
    NeededThrough(caps, c, dep, order1, order, |order0|);
    FollowOne(byId, c.dependsOn[..k], dep, visited0 + {c.id}, order0, visited1, order1, visited, order);
  }

  lemma VisitingEnds(caps: seq<Capability>, c: Capability, byId: map<string, Capability>, visited0: set<string>,
                     order0: seq<Capability>, visited: set<string>, order: seq<Capability>)
    requires KeyedById(byId) && c in caps && c.id !in visited0
    requires Visiting(caps, c, byId, |c.dependsOn|, visited0, order0, visited, order)
    ensures VisitedOnce(caps, c, byId, visited0, order0, visited, order + [c])
  {
    assert c.dependsOn[..|c.dependsOn|] == c.dependsOn;
    assert c.id in Pending(visited, order);
    PushState(caps, visited, order, c);
    PushPlaced(caps, visited, order, c);
    PlacedPrefix(DependencyEdges(caps), IdSet(caps), order, order + [c], |order0|);
    NeededItself(DependencyEdges(caps), c, order, |order0|);
    if c.id in byId && byId[c.id] == c { FollowEmit(byId, c, visited0, order0, visited, order); }
    assert Pending(visited, order + [c]) == Pending(visited, order) - {c.id};
    assert c.id !in Pending(visited0, order0);
  }

  lemma VisitedBefore(caps: seq<Capability>, c: Capability, byId: map<string, Capability>, visited: set<string>,
                      order: seq<Capability>)
    requires KeyedById(byId) && SearchState(caps, visited, order) && c.id in visited
    ensures VisitedOnce(caps, c, byId, visited, order, visited, order)
  {
    FollowNothing(byId, c.id, visited, order);
  }

  /** The recursive call may be made, on a larger visited set. */
  lemma VisitingDescends(caps: seq<Capability>, c: Capability, byId: map<string, Capability>, k: nat, visited0: set<string>,
                         order0: seq<Capability>, visited: set<string>, order: seq<Capability>)
    requires k < |c.dependsOn| && KeyedById(byId) && c in caps && byId.Keys == IdSet(caps) && c.dependsOn[k] in byId
    requires c.id in IdSet(caps) && c.id !in visited0 && Visiting(caps, c, byId, k, visited0, order0, visited, order)
    ensures SearchState(caps, visited, order) && StackReaches(DependencyEdges(caps), visited, order, c.dependsOn[k])
    ensures IdSet(caps) - visited < IdSet(caps) - visited0
  {
    StackDescends(caps, visited, order, c, c.dependsOn[k]);
    assert c.id in IdSet(caps) - visited0 && c.id !in IdSet(caps) - visited;
  }

  /** What the search is given and never changes. */
  ghost predicate Setting(caps: seq<Capability>, byId: map<string, Capability>, idSet: set<string>) {
    idSet == IdSet(caps) && Indexes(byId, caps)
  }

  /** One recursive visit. */
  method Visit(ghost caps: seq<Capability>, c: Capability, byId: map<string, Capability>, idSet: set<string>,
               visited0: set<string>, order0: seq<Capability>)
    returns (visited: set<string>, order: seq<Capability>)
    requires Setting(caps, byId, idSet) && c in caps && c.id in idSet
    requires SearchState(caps, visited0, order0)
    requires StackReaches(DependencyEdges(caps), visited0, order0, c.id)
    ensures VisitedOnce(caps, c, byId, visited0, order0, visited, order)
    decreases idSet - visited0, 2
  {
    if c.id in visited0 {
      VisitedBefore(caps, c, byId, visited0, order0);
      return visited0, order0;
    }
    VisitingStarts(caps, c, byId, visited0, order0);
    visited, order := VisitDependencies(caps, c, byId, idSet, visited0, order0);
    VisitingEnds(caps, c, byId, visited0, order0, visited, order);
    order := order + [c];
  }

  /** The loop over the declared dependencies. */
  method VisitDependencies(ghost caps: seq<Capability>, c: Capability, byId: map<string, Capability>, idSet: set<string>,
                           visited0: set<string>, order0: seq<Capability>)
    returns (visited: set<string>, order: seq<Capability>)
    requires Setting(caps, byId, idSet) && c in caps && c.id in idSet && c.id !in visited0
    requires Visiting(caps, c, byId, 0, visited0, order0, visited0 + {c.id}, order0)
    ensures Visiting(caps, c, byId, |c.dependsOn|, visited0, order0, visited, order)
    decreases idSet - visited0, 1
  {
    visited, order := visited0 + {c.id}, order0;
    for k := 0 to |c.dependsOn|
      invariant Visiting(caps, c, byId, k, visited0, order0, visited, order)
    {
      visited, order := VisitDependency(caps, c, byId, idSet, k, visited0, order0, visited, order);
    }
  }

  /** One dependency: visited if it belongs to the set. */
  method VisitDependency(ghost caps: seq<Capability>, c: Capability, byId: map<string, Capability>, idSet: set<string>, k: nat,
                         ghost visited0: set<string>, ghost order0: seq<Capability>, visited1: set<string>, order1: seq<Capability>)
    returns (visited: set<string>, order: seq<Capability>)
    requires Setting(caps, byId, idSet) && c in caps && c.id in idSet && c.id !in visited0 && k < |c.dependsOn|
    requires Visiting(caps, c, byId, k, visited0, order0, visited1, order1)
    ensures Visiting(caps, c, byId, k + 1, visited0, order0, visited, order)
    decreases idSet - visited0, 0
  {
    visited, order := visited1, order1;
    var dep := c.dependsOn[k];
    if dep in idSet {
      if dep in byId {
        VisitingDescends(caps, c, byId, k, visited0, order0, visited1, order1);
        visited, order := Visit(caps, byId[dep], byId, idSet, visited1, order1);
        VisitingNext(caps, c, byId, k, visited0, order0, visited1, order1, visited, order);
      }
    } else {
      VisitingSkips(caps, c, byId, k, visited0, order0, visited1, order1);
    }
  }

  /** A map from ids to capabilities of the list, covering all its ids. */
  ghost predicate Indexes(byId: map<string, Capability>, caps: seq<Capability>) {
    byId.Keys == IdSet(caps) && KeyedById(byId) && forall k :: k in byId ==> byId[k] in caps
  }

  /** With distinct ids there is only one. */
  lemma IndexHolds(byId: map<string, Capability>, caps: seq<Capability>, i: nat)
    requires Distinct(Ids(caps)) && Indexes(byId, caps) && i < |caps|
    ensures caps[i].id in byId && byId[caps[i].id] == caps[i]
  {
    assert Ids(caps)[i] in IdSet(caps);
    var k :| 0 <= k < |caps| && caps[k] == byId[caps[i].id];
    assert Ids(caps)[k] == Ids(caps)[i];
  }

  lemma IndexUnique(m: map<string, Capability>, byId: map<string, Capability>, caps: seq<Capability>)
    requires Distinct(Ids(caps)) && Indexes(m, caps) && Indexes(byId, caps)
    ensures m == byId
  {
    forall k | k in m
      ensures m[k] == byId[k]
    {
      var i :| 0 <= i < |caps| && Ids(caps)[i] == k;
      IndexHolds(m, caps, i);
      IndexHolds(byId, caps, i);
    }
  }

  /** Later entries with the same id replace earlier ones. */
  method IndexById(caps: seq<Capability>) returns (byId: map<string, Capability>)
    ensures Indexes(byId, caps)
  {
    byId := map[];
    for i := 0 to |caps|
      invariant byId.Keys == IdSet(caps[..i])
      invariant forall k :: k in byId ==> byId[k].id == k && byId[k] in caps
    {
      assert Ids(caps[..i + 1]) == Ids(caps[..i]) + [caps[i].id];
      byId := byId[caps[i].id := caps[i]];
    }
    assert caps[..|caps|] == caps;
  }

  /** Every in-set dependency of an entry is the entry itself or listed before it. */
  ghost predicate InDependencyOrder(caps: seq<Capability>, upTo: nat) {
    forall i, d :: 0 <= i < upTo && i < |caps| && d in caps[i].dependsOn && d in IdSet(caps) ==> d in Ids(caps)[..i + 1]
  }

  // ---- what each input position brings in

  /** One of the first i inputs is, or needs, the capability. */
  ghost predicate Rooted(caps: seq<Capability>, i: nat, id: string) {
    exists j :: 0 <= j < i && j < |caps| && Reaches(DependencyEdges(caps), caps[j].id, id)
  }

  /** What the first i inputs are or need comes before everything else. */
  ghost predicate RootedFirst(caps: seq<Capability>, order: seq<Capability>, i: nat) {
    forall p, q :: 0 <= p < |order| && 0 <= q < |order| && Rooted(caps, i, order[p].id) && !Rooted(caps, i, order[q].id)
                   ==> p < q
  }

  ghost predicate ClosedUnder(edges: seq<Edge>, ids: set<string>) {
    forall e :: e in edges && e.from in ids ==> e.to in ids
  }

  lemma {:induction false} ClosedReach(edges: seq<Edge>, ids: set<string>, p: seq<string>)
    requires ClosedUnder(edges, ids) && IsPath(edges, p) && p[0] in ids
    ensures p[|p| - 1] in ids
    decreases |p|
  {
    if |p| > 1 {
      var m := |p| - 1;
      PathSlice(edges, p, 0, m);
      ClosedReach(edges, ids, p[..m]);
      assert Edge(p[m - 1], p[m]) in edges;
    }
  }

  /** With distinct ids, following the emitted capabilities' own declarations follows every edge. */
  lemma EmittedClosed(caps: seq<Capability>, order: seq<Capability>)
    requires Distinct(Ids(caps)) && SearchState(caps, Elems(Ids(order)), order)
    ensures ClosedUnder(DependencyEdges(caps), Elems(Ids(order)))
  {
    forall e | e in DependencyEdges(caps) && e.from in Elems(Ids(order))
      ensures e.to in Elems(Ids(order))
    {
      EdgesOfMembers(caps, IdSet(caps), e);
      var i :| 0 <= i < |caps| && e.from == caps[i].id && e.to in caps[i].dependsOn && e.to in IdSet(caps);
      var p :| 0 <= p < |order| && Ids(order)[p] == e.from;
      assert order[p] in order && order[p] in caps;
      var k :| 0 <= k < |caps| && caps[k] == order[p];
      assert Ids(caps)[k] == Ids(caps)[i];
      assert k == i;
    }
  }

  /** After i inputs, exactly what they are or need has been emitted. */
  ghost predicate EmittedExactly(caps: seq<Capability>, order: seq<Capability>, i: nat) {
    forall id :: id in Elems(Ids(order)) <==> Rooted(caps, i, id)
  }

  lemma EmittedStart(caps: seq<Capability>)
    ensures EmittedExactly(caps, [], 0) && forall k :: 0 <= k <= 0 ==> RootedFirst(caps, [], k)
  {
    assert Ids([]) == [];
  }

  lemma EmittedNext(caps: seq<Capability>, before: seq<Capability>, order: seq<Capability>, i: nat)
    requires i < |caps| && Distinct(Ids(caps)) && EmittedExactly(caps, before, i) && before <= order
    requires SearchState(caps, Elems(Ids(order)), order) && caps[i].id in Elems(Ids(order))
    requires NeededBy(DependencyEdges(caps), caps[i].id, order, |before|)
    ensures EmittedExactly(caps, order, i + 1)
  {
    EmittedClosed(caps, order);
    forall id
      ensures id in Elems(Ids(order)) <==> Rooted(caps, i + 1, id)
    {
      if id in Elems(Ids(order)) {
        var p :| 0 <= p < |order| && Ids(order)[p] == id;
        if p < |before| {
          assert Ids(before)[p] == id && id in Elems(Ids(before));
          assert Rooted(caps, i, id);
        }
      }
      if Rooted(caps, i + 1, id) {
        var j :| 0 <= j < i + 1 && j < |caps| && Reaches(DependencyEdges(caps), caps[j].id, id);
        RootEmitted(caps, before, order, i, j);
        var p :| PathBetween(DependencyEdges(caps), p, caps[j].id, id);
        ClosedReach(DependencyEdges(caps), Elems(Ids(order)), p);
      }
    }
  }

  lemma RootEmitted(caps: seq<Capability>, before: seq<Capability>, order: seq<Capability>, i: nat, j: nat)
    requires j <= i < |caps| && EmittedExactly(caps, before, i) && before <= order && caps[i].id in Elems(Ids(order))
    ensures caps[j].id in Elems(Ids(order))
  {
    if j < i {
      ReachesRefl(DependencyEdges(caps), caps[j].id);
      assert Rooted(caps, i, caps[j].id);
      assert caps[j].id in Elems(Ids(before));
      var p :| 0 <= p < |before| && Ids(before)[p] == caps[j].id;
      assert Ids(order)[p] == caps[j].id;
    }
  }

  lemma RootedStays(caps: seq<Capability>, before: seq<Capability>, order: seq<Capability>, i: nat, k: nat)
    requires k <= i && before <= order && Distinct(Ids(order))
    requires EmittedExactly(caps, before, i) && RootedFirst(caps, before, k)
    ensures RootedFirst(caps, order, k)
  {
    forall p, q | 0 <= p < |order| && 0 <= q < |order| && Rooted(caps, k, order[p].id) && !Rooted(caps, k, order[q].id)
      ensures p < q
    {
      assert Rooted(caps, i, order[p].id);
      assert order[p].id in Elems(Ids(before));
      var m :| 0 <= m < |before| && Ids(before)[m] == order[p].id;
      assert Ids(order)[m] == Ids(order)[p] && m == p;
      if q < |before| { assert before[q] == order[q] && before[p] == order[p]; }
    }
  }

  lemma AllRootedFirst(caps: seq<Capability>, order: seq<Capability>, i: nat)
    requires EmittedExactly(caps, order, i)
    ensures RootedFirst(caps, order, i)
  {
    forall q | 0 <= q < |order|
      ensures Rooted(caps, i, order[q].id)
    {
      assert Ids(order)[q] in Elems(Ids(order));
    }
  }

  ghost predicate Grouping(caps: seq<Capability>, order: seq<Capability>, i: nat) {
    Distinct(Ids(caps)) ==> EmittedExactly(caps, order, i) && forall k :: 0 <= k <= i ==> RootedFirst(caps, order, k)
  }

  lemma GroupingNext(caps: seq<Capability>, before: seq<Capability>, order: seq<Capability>, i: nat)
    requires i < |caps| && Grouping(caps, before, i) && before <= order
    requires SearchState(caps, Elems(Ids(order)), order) && caps[i].id in Elems(Ids(order))
    requires NeededBy(DependencyEdges(caps), caps[i].id, order, |before|)
    ensures Grouping(caps, order, i + 1)
  {
    if Distinct(Ids(caps)) {
      EmittedNext(caps, before, order, i);
      AllRootedFirst(caps, order, i + 1);
      forall k | 0 <= k <= i
        ensures RootedFirst(caps, order, k)
      {
        RootedStays(caps, before, order, i, k);
      }
    }
  }

  /** The state of the sort after i inputs. */
  ghost predicate SortState(caps: seq<Capability>, byId: map<string, Capability>, i: nat, visited: set<string>,
                            order: seq<Capability>)
    requires KeyedById(byId)
  {
    && i <= |caps| && SearchState(caps, visited, order) && visited == Elems(Ids(order)) && IdSet(caps[..i]) <= visited
    && Placed(DependencyEdges(caps), IdSet(caps), order, 0)
    && Grouping(caps, order, i)
    && (Distinct(Ids(caps)) ==> Followed(byId, Ids(caps)[..i], {}, [], visited, order))
    && (Distinct(Ids(caps)) ==> if InDependencyOrder(caps, i) then order == caps[..i] else !(order <= caps))
  }

  lemma InputKnown(caps: seq<Capability>, i: nat)
    requires i < |caps|
    ensures caps[i] in caps && caps[i].id in IdSet(caps)
    ensures IdSet(caps[..i + 1]) == IdSet(caps[..i]) + {caps[i].id}
  {
    assert Ids(caps)[i] in Ids(caps);
    assert Ids(caps[..i + 1]) == Ids(caps[..i]) + [caps[i].id];
  }

  lemma SortNext(caps: seq<Capability>, byId: map<string, Capability>, i: nat, before: seq<Capability>,
                 visited: set<string>, order: seq<Capability>)
    requires i < |caps| && Indexes(byId, caps) && SortState(caps, byId, i, Elems(Ids(before)), before)
    requires VisitedOnce(caps, caps[i], byId, Elems(Ids(before)), before, visited, order)
    ensures SortState(caps, byId, i + 1, visited, order)
  {
    forall id | id in visited
      ensures id in Elems(Ids(order))
    {
      assert id !in Pending(visited, order);
    }
    assert visited == Elems(Ids(order));
    InputKnown(caps, i);
    GroupingNext(caps, before, order, i);
    PlacedPrefix(DependencyEdges(caps), IdSet(caps), before, order, 0);
    if Distinct(Ids(caps)) {
      NextStays(caps, i, before, order);
      IndexHolds(byId, caps, i);
      FollowInput(caps, byId, i, before, visited, order);
    }
  }

  lemma FollowInput(caps: seq<Capability>, byId: map<string, Capability>, i: nat, before: seq<Capability>,
                    visited: set<string>, order: seq<Capability>)
    requires i < |caps| && KeyedById(byId)
    requires Followed(byId, Ids(caps)[..i], {}, [], Elems(Ids(before)), before)
    requires Followed(byId, [caps[i].id], Elems(Ids(before)), before, visited, order)
    ensures Followed(byId, Ids(caps)[..i + 1], {}, [], visited, order)
  {
    FollowOne(byId, Ids(caps)[..i], caps[i].id, {}, [], Elems(Ids(before)), before, visited, order);
    assert Ids(caps)[..i + 1] == Ids(caps)[..i] + [caps[i].id];
  }

  lemma SortStarts(caps: seq<Capability>, byId: map<string, Capability>)
    requires KeyedById(byId)
    ensures SortState(caps, byId, 0, {}, [])
  {
    assert Ids([]) == [] && Elems<string>([]) == {} && Ids(caps)[..0] == [] && caps[..0] == [];
    EmittedStart(caps);
  }

  /** Following the work list of all inputs, under whatever index of them. */
  ghost predicate Discovered(caps: seq<Capability>, order: seq<Capability>) {
    forall m :: Indexes(m, caps) ==> order == Walk(m, Ids(caps), {}).1
  }

  lemma SortEnds(caps: seq<Capability>, byId: map<string, Capability>, visited: set<string>, order: seq<Capability>)
    requires Indexes(byId, caps) && SortState(caps, byId, |caps|, visited, order)
    ensures Distinct(Ids(order)) && Elems(Ids(order)) == IdSet(caps)
    ensures Distinct(Ids(caps)) ==> multiset(order) == multiset(caps) && Discovered(caps, order)
    ensures Distinct(Ids(caps)) ==> (order == caps <==> InDependencyOrder(caps, |caps|))
  {
    assert caps[..|caps|] == caps && Ids(caps)[..|caps|] == Ids(caps);
    if Distinct(Ids(caps)) {
      SameCapabilities(caps, order);
      forall m | Indexes(m, caps)
        ensures order == Walk(m, Ids(caps), {}).1
      {
        IndexUnique(m, byId, caps);
      }
    }
  }

  /** The sort. It emits each id once, whatever cycles there are; each in-set dependency comes before its
      dependent unless it leads back to it; what an input needs comes before whatever later inputs bring in; all in
      the order of discovery; and the input comes back unchanged exactly when it already lists dependencies first. */
  method TopoSort(caps: seq<Capability>) returns (order: seq<Capability>)
    ensures Distinct(Ids(order)) && Elems(Ids(order)) == IdSet(caps)
    ensures forall x :: x in order ==> x in caps
    ensures Placed(DependencyEdges(caps), IdSet(caps), order, 0)
    ensures Distinct(Ids(caps)) ==> multiset(order) == multiset(caps)
    ensures Distinct(Ids(caps)) ==> forall i :: 0 <= i <= |caps| ==> RootedFirst(caps, order, i)
    ensures Distinct(Ids(caps)) ==> Discovered(caps, order)
    ensures Distinct(Ids(caps)) ==> (order == caps <==> InDependencyOrder(caps, |caps|))
  {
    var byId := IndexById(caps);
    SortStarts(caps, byId);
    var idSet := byId.Keys;
    var visited: set<string> := {};
    order := [];
    for i := 0 to |caps|
      invariant SortState(caps, byId, i, visited, order)
    {
      ghost var before := order;
      InputKnown(caps, i);
      visited, order := Visit(caps, caps[i], byId, idSet, visited, order);
      SortNext(caps, byId, i, before, visited, order);
    }
    SortEnds(caps, byId, visited, order);
    assert caps[..|caps|] == caps;
  }

  /** Emitting `caps[i]` next keeps the output equal to the input as long as its dependencies are listed. */
  lemma NextStays(caps: seq<Capability>, i: nat, before: seq<Capability>, after: seq<Capability>)
    requires i < |caps| && Distinct(Ids(caps)) && before <= after && Distinct(Ids(after))
    requires InDependencyOrder(caps, i) ==> before == caps[..i]
    requires !InDependencyOrder(caps, i) ==> !(before <= caps)
    requires caps[i].id !in Elems(Ids(before)) ==>
               && |after| > |before| && after[|after| - 1] == caps[i]
               && (after == before + [caps[i]] <==>
                   forall d :: d in caps[i].dependsOn && d in IdSet(caps) ==> d in Elems(Ids(before)) + {caps[i].id})
    ensures InDependencyOrder(caps, i + 1) ==> after == caps[..i + 1]
    ensures !InDependencyOrder(caps, i + 1) ==> !(after <= caps)
  {
    if InDependencyOrder(caps, i) {
      assert Ids(before) == Ids(caps)[..i];
      assert Ids(caps)[..i + 1] == Ids(before) + [caps[i].id];
      assert caps[i].id !in Ids(before);
      if after == before + [caps[i]] {
        assert after == caps[..i + 1];
      } else {
        assert |after| > i + 1;
        assert Ids(after)[i] != Ids(after)[|after| - 1];
      }
    }
  }

  lemma SameCapabilities(caps: seq<Capability>, order: seq<Capability>)
    requires Distinct(Ids(caps)) && Distinct(Ids(order)) && IdSet(order) == IdSet(caps)
    requires forall x :: x in order ==> x in caps
    ensures multiset(order) == multiset(caps)
  {
    assert forall i, j :: 0 <= i < j < |caps| ==> Ids(caps)[i] != Ids(caps)[j];
    assert forall i, j :: 0 <= i < j < |order| ==> Ids(order)[i] != Ids(order)[j];
    forall x | x in caps
      ensures x in order
    {
      var i :| 0 <= i < |caps| && caps[i] == x;
      assert Ids(caps)[i] in IdSet(order);
      var j :| 0 <= j < |order| && Ids(order)[j] == x.id;
      assert order[j] in order && order[j] in caps;
      var k :| 0 <= k < |caps| && caps[k] == order[j];
      assert Ids(caps)[k] == Ids(caps)[i];
    }
    assert Elems(order) == Elems(caps);
    DistinctMultiset(order);
    DistinctMultiset(caps);
  }

  /** On an acyclic set the order lists every in-set dependency strictly before its dependent. */
  lemma AcyclicDependenciesFirst(caps: seq<Capability>, order: seq<Capability>, i: nat, d: string)
    requires Acyclic(DependencyEdges(caps)) && Placed(DependencyEdges(caps), IdSet(caps), order, 0)
    requires i < |order| && order[i] in caps && d in order[i].dependsOn && d in IdSet(caps)
    ensures d in Ids(order)[..i]
  {
    var edges := DependencyEdges(caps);
    assert DependencyPlaced(edges, order, i, d);
    if Reaches(edges, d, order[i].id) {
      DependencyEdge(caps, order[i], d);
      ClosesCycle(edges, order[i].id, d);
    }
  }

  lemma ClosesCycle(edges: seq<Edge>, a: NodeId, b: NodeId)
    requires Edge(a, b) in edges && Reaches(edges, b, a)
    ensures !Acyclic(edges)
  {
    var p :| PathBetween(edges, p, b, a);
    assert IsPath(edges, [a, b]);
    PathJoin(edges, [a, b], p);
    assert IsCycle(edges, [a, b] + p[1..]);
  }

  // ---- which of two capabilities comes first

  /** The first input that is, or needs, the capability. */
  ghost function FirstRoot(caps: seq<Capability>, id: string, from: nat): (r: nat)
    requires from < |caps| && Rooted(caps, |caps|, id) && !Rooted(caps, from, id)
    ensures from <= r < |caps| && Rooted(caps, r + 1, id) && !Rooted(caps, r, id)
    decreases |caps| - from
  {
    if Rooted(caps, from + 1, id) then from else FirstRoot(caps, id, from + 1)
  }

  lemma RootedLater(caps: seq<Capability>, i: nat, k: nat, id: string)
    requires i <= k && Rooted(caps, i, id)
    ensures Rooted(caps, k, id)
  {
  }

  /** Two capabilities first asked for by different inputs come out in the order of those inputs, whatever their own
      depths and positions. */
  lemma PairOrderExactly(caps: seq<Capability>, order: seq<Capability>, p: nat, q: nat)
    requires caps != [] && forall i :: 0 <= i <= |caps| ==> RootedFirst(caps, order, i)
    requires p < |order| && q < |order| && Rooted(caps, |caps|, order[p].id) && Rooted(caps, |caps|, order[q].id)
    requires FirstRoot(caps, order[p].id, 0) != FirstRoot(caps, order[q].id, 0)
    ensures p < q <==> FirstRoot(caps, order[p].id, 0) < FirstRoot(caps, order[q].id, 0)
  {
    var i, k := FirstRoot(caps, order[p].id, 0), FirstRoot(caps, order[q].id, 0);
    if i < k {
      RootedLater(caps, i + 1, k, order[p].id);
      assert RootedFirst(caps, order, k);
    } else {
      RootedLater(caps, k + 1, i, order[q].id);
      assert RootedFirst(caps, order, i);
    }
  }

  /** Every input has a first root, at or before its own position. */
  lemma InputRooted(caps: seq<Capability>, i: nat)
    requires i < |caps|
    ensures Rooted(caps, |caps|, caps[i].id) && FirstRoot(caps, caps[i].id, 0) <= i
  {
    ReachesRefl(DependencyEdges(caps), caps[i].id);
    assert Rooted(caps, i + 1, caps[i].id);
  }

  // ---- two inputs that do not come back as the comment promises

  lemma TwoOfTwo(a: Capability, b: Capability, order: seq<Capability>)
    requires multiset(order) == multiset([a, b]) && order != [a, b]
    ensures order == [b, a]
  {
    assert |order| == |multiset(order)| == 2;
    assert order == [order[0], order[1]];
    assert order[0] in multiset(order) && order[1] in multiset(order);
    assert multiset([order[0], order[1]]) == multiset([a, b]);
  }

  /** Two capabilities that depend on each other come back in the opposite order. */
  method CyclesAreReordered(a: Capability, b: Capability) returns (order: seq<Capability>)
    requires a.id != b.id && b.id in a.dependsOn && a.id in b.dependsOn
    ensures order == [b, a]
  {
    var caps := [a, b];
    assert Ids(caps)[1] == b.id && b.id in IdSet(caps) && Distinct(Ids(caps));
    assert caps[0] == a && Ids(caps)[..1] == [a.id];
    order := TopoSort(caps);
    assert !InDependencyOrder(caps, 2);
    TwoOfTwo(a, b, order);
  }

  /** Two capabilities without dependencies change places when one listed earlier needs the second of them. */
  method SameDepthIsReordered(a: Capability, y: Capability, x: Capability) returns (order: seq<Capability>)
    requires a.id != x.id && a.id != y.id && x.id != y.id
    requires a.dependsOn == [x.id] && x.dependsOn == [] && y.dependsOn == []
    ensures order == [x, a, y]
  {
    var caps := [a, y, x];
    assert Ids(caps) == [a.id, y.id, x.id];
    order := TopoSort(caps);
    OnlyEdge(a, y, x);
    SingleEdgeOrder(a, y, x, order);
  }

  lemma OnlyEdge(a: Capability, y: Capability, x: Capability)
    requires a.dependsOn == [x.id] && x.dependsOn == [] && y.dependsOn == []
    ensures forall u, v :: Reaches(DependencyEdges([a, y, x]), u, v) ==> u == v || (u == a.id && v == x.id)
    ensures forall e :: e in DependencyEdges([a, y, x]) <==> e == Edge(a.id, x.id)
  {
    var caps := [a, y, x];
    assert Ids(caps) == [a.id, y.id, x.id] && x.id in IdSet(caps);
    forall e
      ensures e in DependencyEdges(caps) <==> e == Edge(a.id, x.id)
    {
      EdgesOfMembers(caps, IdSet(caps), e);
      assert caps[0] == a;
    }
    forall u, v | Reaches(DependencyEdges(caps), u, v) && u != v
      ensures u == a.id && v == x.id
    {
      var p :| PathBetween(DependencyEdges(caps), p, u, v);
      var m := |p| - 1;
      assert Edge(p[0], p[1]) in DependencyEdges(caps) && Edge(p[m - 1], p[m]) in DependencyEdges(caps);
    }
  }

  lemma SingleEdgeOrder(a: Capability, y: Capability, x: Capability, order: seq<Capability>)
    requires a.id != x.id && a.id != y.id && x.id != y.id
    requires a.dependsOn == [x.id] && x.dependsOn == [] && y.dependsOn == []
    requires multiset(order) == multiset([a, y, x]) && Distinct(Ids(order))
    requires Placed(DependencyEdges([a, y, x]), IdSet([a, y, x]), order, 0) && RootedFirst([a, y, x], order, 1)
    ensures order == [x, a, y]
  {
    var caps, edges := [a, y, x], DependencyEdges([a, y, x]);
    assert |order| == |multiset(order)| == 3;
    assert a in multiset(order) && y in multiset(order) && x in multiset(order);
    var p :| 0 <= p < 3 && order[p] == a;
    var q :| 0 <= q < 3 && order[q] == y;
    var r :| 0 <= r < 3 && order[r] == x;
    OnlyEdge(a, y, x);
    ReachesRefl(edges, a.id);
    ReachesEdge(edges, a.id, x.id);
    assert caps[0] == a;
    assert Rooted(caps, 1, a.id) && Rooted(caps, 1, x.id) && !Rooted(caps, 1, y.id);
    assert Ids(caps)[2] == x.id && x.id in IdSet(caps);
    assert DependencyPlaced(edges, order, p, x.id);
    var k :| 0 <= k < p && Ids(order)[..p][k] == x.id;
    assert Ids(order)[k] == Ids(order)[r];
  }
}
