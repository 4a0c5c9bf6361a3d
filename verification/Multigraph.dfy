/** The tool graph as a named multigraph: interning, walks, and what the shortest path over them is. */
module Multigraph {
  import opened Prelude
  import opened CostModel
  import opened Health
  import opened Dijkstra

  datatype Edge = Edge(from: string, to: string, costs: Costs, enabled: bool)

  datatype IndexedEdge = IndexedEdge(to: nat, costs: Costs, enabled: bool)

  datatype Route = Route(nodes: seq<string>, totalCost: real, cacheHit: bool)

  /** What the search charges for an edge, or None when it skips it. */
  function LegCost(costs: Costs, enabled: bool, model: TenantCostModel, penalty: Float): Option<real> {
    if !enabled || !costs.Valid() then None
    else
      var weight := Weight(costs, model);
      if weight.Finite? && penalty.Finite? then Some(weight.value + penalty.value) else None
  }

  // ----- interning -----

  /** The value of a graph object. */
  datatype Graph = Graph(nodeToId: map<string, nat>, idToNode: seq<string>, adjacency: seq<seq<IndexedEdge>>) {

    ghost predicate Closed() {
      && |adjacency| == |idToNode|
      && forall u, k :: 0 <= u < |adjacency| && 0 <= k < |adjacency[u]| ==> adjacency[u][k].to < |idToNode|
    }

    /** Names and ids are in bijection. */
    ghost predicate Interned() {
      && (forall i :: 0 <= i < |idToNode| ==> idToNode[i] in nodeToId && nodeToId[idToNode[i]] == i)
      && (forall name :: name in nodeToId ==> nodeToId[name] < |idToNode| && idToNode[nodeToId[name]] == name)
    }

    function Id(name: string): nat {
      if name in nodeToId then nodeToId[name] else 0
    }

    function WithNode(name: string): Graph {
      if name in nodeToId then this
      else Graph(nodeToId[name := |idToNode|], idToNode + [name], adjacency + [[]])
    }

    function WithEdge(edge: Edge): Graph {
      var g := WithNode(edge.from).WithNode(edge.to);
      if g.Id(edge.from) < |g.adjacency| then Append(g, edge) else g
    }
  }

  /** The graph after a sequence of `add_edge` calls. */
  function Build(edges: seq<Edge>): Graph {
    if edges == [] then Graph(map[], [], []) else Build(edges[..|edges| - 1]).WithEdge(edges[|edges| - 1])
  }

  lemma BuildSnoc(edges: seq<Edge>, edge: Edge)
    ensures Build(edges + [edge]) == Build(edges).WithEdge(edge)
  {
    assert (edges + [edge])[..|edges|] == edges;
  }

  /** The edges leaving `name`, oldest first, with interned targets. */
  function OutEdges(ids: map<string, nat>, edges: seq<Edge>, name: string): seq<IndexedEdge> {
    if edges == [] then []
    else
      var e := edges[|edges| - 1];
      OutEdges(ids, edges[..|edges| - 1], name)
      + if e.from == name then [IndexedEdge(if e.to in ids then ids[e.to] else 0, e.costs, e.enabled)] else []
  }

  ghost predicate NamesKnown(ids: map<string, nat>, edges: seq<Edge>) {
    forall e :: e in edges ==> e.from in ids && e.to in ids
  }

  /** `g` stores the named multigraph: every edge once, parallel ones included, in insertion order. */
  ghost predicate Stores(g: Graph, edges: seq<Edge>) {
    && g.Closed() && g.Interned()
    && NamesKnown(g.nodeToId, edges)
    && forall i :: 0 <= i < |g.idToNode| ==> g.adjacency[i] == OutEdges(g.nodeToId, edges, g.idToNode[i])
  }

  lemma {:induction false} OutEdgesStable(ids: map<string, nat>, ids': map<string, nat>, edges: seq<Edge>, name: string)
    requires NamesKnown(ids, edges) && forall n :: n in ids ==> n in ids' && ids'[n] == ids[n]
    ensures OutEdges(ids', edges, name) == OutEdges(ids, edges, name)
  {
    if edges != [] {
      assert edges[|edges| - 1] in edges;
      OutEdgesStable(ids, ids', edges[..|edges| - 1], name);
    }
  }

  lemma {:induction false} OutEdgesNone(ids: map<string, nat>, edges: seq<Edge>, name: string)
    requires forall e :: e in edges ==> e.from != name
    ensures OutEdges(ids, edges, name) == []
  {
    if edges != [] {
      assert edges[|edges| - 1] in edges;
      OutEdgesNone(ids, edges[..|edges| - 1], name);
    }
  }

  lemma WithNodeStores(g: Graph, edges: seq<Edge>, name: string)
    requires Stores(g, edges)
    ensures Stores(g.WithNode(name), edges) && g.WithNode(name).nodeToId.Keys == g.nodeToId.Keys + {name}
  {
    var h := g.WithNode(name);
    if name !in g.nodeToId {
      forall i | 0 <= i < |h.idToNode| ensures h.adjacency[i] == OutEdges(h.nodeToId, edges, h.idToNode[i]) {
        OutEdgesStable(g.nodeToId, h.nodeToId, edges, h.idToNode[i]);
        if i == |g.idToNode| {
          OutEdgesNone(h.nodeToId, edges, name);
        }
      }
    }
  }

  function Append(g: Graph, e: Edge): Graph
    requires g.Id(e.from) < |g.adjacency|
  {
    var from := g.Id(e.from);
    g.(adjacency := g.adjacency[from := g.adjacency[from] + [IndexedEdge(g.Id(e.to), e.costs, e.enabled)]])
  }

  lemma AppendStores(g: Graph, front: seq<Edge>, e: Edge)
    requires Stores(g, front) && e.from in g.nodeToId && e.to in g.nodeToId
    ensures g.Id(e.from) < |g.adjacency| && Stores(Append(g, e), front + [e])
  {
    var edges := front + [e];
    assert edges[..|edges| - 1] == front;
  }

  lemma WithEdgeStores(g: Graph, front: seq<Edge>, e: Edge)
    requires Stores(g, front)
    ensures Stores(g.WithEdge(e), front + [e])
    ensures g.WithEdge(e).nodeToId.Keys == g.nodeToId.Keys + {e.from, e.to}
  {
    hide Stores;
    WithNodeStores(g, front, e.from);
    var h := g.WithNode(e.from);
    WithNodeStores(h, front, e.to);
    AppendStores(h.WithNode(e.to), front, e);
  }

  lemma EmptyStores()
    ensures Stores(Graph(map[], [], []), [])
  {
  }

  /** Interning loses nothing: the built graph is the multigraph of the edges added. */
  lemma {:induction false} BuildStores(edges: seq<Edge>)
    ensures Stores(Build(edges), edges)
  {
    hide Stores, Graph.WithEdge;
    if edges == [] {
      EmptyStores();
    } else {
      var front, e := edges[..|edges| - 1], edges[|edges| - 1];
      BuildStores(front);
      WithEdgeStores(Build(front), front, e);
      assert edges == front + [e];
    }
  }

  /** Every interned name is an endpoint of some edge. */
  lemma {:induction false} BuildNames(edges: seq<Edge>, name: string) returns (e: Edge)
    requires name in Build(edges).nodeToId
    ensures e in edges && (e.from == name || e.to == name)
  {
    hide Stores, Graph.WithEdge;
    if edges != [] {
      var front, last := edges[..|edges| - 1], edges[|edges| - 1];
      BuildStores(front);
      WithEdgeStores(Build(front), front, last);
      if name in Build(front).nodeToId {
        e := BuildNames(front, name);
      } else {
        e := last;
      }
    }
  }

  // ----- walks of the named multigraph -----

  /** The cost of an edge for a tenant: its weight plus the health penalty of its target. */
  function EdgeCost(e: Edge, health: HealthMap, model: TenantCostModel): Option<real> {
    LegCost(e.costs, e.enabled, model, PenaltyOf(health, e.to))
  }

  /** Which edges the search may use, what they cost, and that no edge pays for itself. */
  lemma EdgeCostMeaning(e: Edge, health: HealthMap, model: TenantCostModel)
    ensures EdgeCost(e, health, model).Some? <==>
              e.enabled && e.costs.Valid() && model.Valid() && !StateOf(health, e.to).Open?
    ensures EdgeCost(e, health, model).Some? ==>
              && Weight(e.costs, model).Finite? && PenaltyOf(health, e.to).Finite?
              && EdgeCost(e, health, model).value == Weight(e.costs, model).value + PenaltyOf(health, e.to).value >= 0.0
  {
    hide Weight;
    WeightRange(e.costs, model);
    WeightKind(e.costs, model);
    PenaltyRange(health, e.to);
  }

  lemma WeightKind(costs: Costs, model: TenantCostModel)
    ensures Weight(costs, model).Finite? || Weight(costs, model).Infinity?
  {
  }

  /** A walk from `start` to `goal` over usable edges of the multigraph. */
  ghost predicate IsWalk(edges: seq<Edge>, health: HealthMap, model: TenantCostModel, start: string, goal: string,
    walk: seq<Edge>)
    decreases |walk|
  {
    if walk == [] then start == goal
    else
      var last := walk[|walk| - 1];
      last in edges && EdgeCost(last, health, model).Some? && last.to == goal
      && IsWalk(edges, health, model, start, last.from, walk[..|walk| - 1])
  }

  ghost function WalkCost(health: HealthMap, model: TenantCostModel, walk: seq<Edge>): real {
    if walk == [] then 0.0
    else
      WalkCost(health, model, walk[..|walk| - 1]) +
      (match EdgeCost(walk[|walk| - 1], health, model) case Some(c) => c case None => 0.0)
  }

  function WalkNodes(start: string, walk: seq<Edge>): seq<string> {
    if walk == [] then [start] else WalkNodes(start, walk[..|walk| - 1]) + [walk[|walk| - 1].to]
  }

  // ----- the search over the interned graph -----

  ghost function ArcOf(g: Graph, health: HealthMap, model: TenantCostModel, edge: IndexedEdge): Arc
    requires edge.to < |g.idToNode|
  {
    Arc(edge.to, LegCost(edge.costs, edge.enabled, model, PenaltyOf(health, g.idToNode[edge.to])))
  }

  ghost function NetOf(g: Graph, health: HealthMap, model: TenantCostModel): (net: Net)
    requires g.Closed()
    ensures |net| == |g.adjacency| && WellFormed(net)
    ensures forall u :: 0 <= u < |net| ==> |net[u]| == |g.adjacency[u]|
    ensures forall u, k :: 0 <= u < |net| && 0 <= k < |net[u]| ==>
        net[u][k] == ArcOf(g, health, model, g.adjacency[u][k])
  {
    var net := seq(|g.adjacency|, u requires 0 <= u < |g.adjacency| =>
      seq(|g.adjacency[u]|, k requires 0 <= k < |g.adjacency[u]| => ArcOf(g, health, model, g.adjacency[u][k])));
    assert forall u, k :: 0 <= u < |net| && 0 <= k < |net[u]| ==>
        net[u][k] == ArcOf(g, health, model, g.adjacency[u][k]);
    assert WellFormed(net) by {
      forall u, k | 0 <= u < |net| && 0 <= k < |net[u]| ensures net[u][k].cost.Some? ==> net[u][k].cost.value >= 0.0 {
        var e := g.adjacency[u][k];
        EdgeCostMeaning(Edge("", g.idToNode[e.to], e.costs, e.enabled), health, model);
      }
    }
    net
  }

  /** The names along the predecessors of the goal. */
  ghost function PathOf(prev: seq<Option<nat>>, start: nat, goal: nat): seq<nat> {
    if exists p :: IsBackPath(prev, start, goal, p) then var p :| IsBackPath(prev, start, goal, p); p else []
  }

  function Name(g: Graph, id: nat): string {
    if id < |g.idToNode| then g.idToNode[id] else ""
  }

  function Names(g: Graph, ids: seq<nat>): seq<string> {
    seq(|ids|, i requires 0 <= i < |ids| => Name(g, ids[i]))
  }

  /** The route `shortest_path` returns on the graph built from `edges`. */
  ghost function ShortestPath(edges: seq<Edge>, health: HealthMap, model: TenantCostModel, start: string,
    goal: string): Option<Route>
  {
    var g := Build(edges);
    if start == goal then Some(Route([start], 0.0, false))
    else if start !in g.nodeToId || goal !in g.nodeToId then None
    else
      BuildStores(edges);
      var s, t := g.nodeToId[start], g.nodeToId[goal];
      match Outcome(NetOf(g, health, model), s, t)
      case Found(st, cost) => Some(Route(Names(g, PathOf(st.prev, s, t)), cost, false))
      case _ => None
  }

  // ----- named edges and arcs -----

  lemma {:induction false} InOutEdges(ids: map<string, nat>, edges: seq<Edge>, e: Edge) returns (k: nat)
    requires e in edges && e.to in ids
    ensures var out := OutEdges(ids, edges, e.from); k < |out| && out[k] == IndexedEdge(ids[e.to], e.costs, e.enabled)
  {
    var n := |edges| - 1;
    if edges[n] == e {
      k := |OutEdges(ids, edges[..n], e.from)|;
    } else {
      k := InOutEdges(ids, edges[..n], e);
    }
  }

  lemma {:induction false} FromOutEdges(ids: map<string, nat>, edges: seq<Edge>, name: string, k: nat) returns (e: Edge)
    requires k < |OutEdges(ids, edges, name)| && NamesKnown(ids, edges)
    ensures e in edges && e.from == name && OutEdges(ids, edges, name)[k] == IndexedEdge(ids[e.to], e.costs, e.enabled)
  {
    var n := |edges| - 1;
    var front := OutEdges(ids, edges[..n], name);
    if k < |front| {
      e := FromOutEdges(ids, edges[..n], name, k);
    } else {
      e := edges[n];
      assert e in edges;
    }
  }

  /** A named edge is an arc of the net, at the same cost. */
  lemma EdgeToArc(g: Graph, edges: seq<Edge>, health: HealthMap, model: TenantCostModel, e: Edge) returns (k: nat)
    requires Stores(g, edges) && e in edges
    ensures e.from in g.nodeToId && e.to in g.nodeToId
    ensures var net := NetOf(g, health, model); var u := g.nodeToId[e.from];
            u < |net| && k < |net[u]| && net[u][k] == Arc(g.nodeToId[e.to], EdgeCost(e, health, model))
  {
    k := InOutEdges(g.nodeToId, edges, e);
  }

  lemma ArcToEdge(g: Graph, edges: seq<Edge>, health: HealthMap, model: TenantCostModel, u: nat, k: nat)
    returns (e: Edge)
    requires Stores(g, edges) && u < |g.adjacency| && k < |g.adjacency[u]|
    ensures e in edges && e.from == g.idToNode[u] && e.to in g.nodeToId
    ensures NetOf(g, health, model)[u][k] == Arc(g.nodeToId[e.to], EdgeCost(e, health, model))
  {
    e := FromOutEdges(g.nodeToId, edges, g.idToNode[u], k);
  }

  // ----- no walk undercuts the search -----

  lemma {:induction false} WalkBounded(edges: seq<Edge>, g: Graph, health: HealthMap, model: TenantCostModel,
    start: string, v: string, walk: seq<Edge>, goal: nat, st: Search, rank: Ranks, pops: nat)
    requires Stores(g, edges) && start in g.nodeToId && IsWalk(edges, health, model, start, v, walk)
    requires Inv(NetOf(g, health, model), g.nodeToId[start], goal, st, rank, pops)
    ensures v in g.nodeToId && Bounded(st, g.nodeToId[v], WalkCost(health, model, walk))
    decreases |walk|
  {
    hide Inv, Bounded, Graph.Closed, EdgeCost;
    var net, s := NetOf(g, health, model), g.nodeToId[start];
    if walk == [] {
      StartBounded(net, s, goal, st, rank, pops);
    } else {
      var last, front := walk[|walk| - 1], walk[..|walk| - 1];
      WalkBounded(edges, g, health, model, start, last.from, front, goal, st, rank, pops);
      var k := EdgeToArc(g, edges, health, model, last);
      BoundStep(net, s, goal, st, rank, pops, g.nodeToId[last.from], k, WalkCost(health, model, front));
    }
  }

  lemma StartBounded(net: Net, start: nat, goal: nat, st: Search, rank: Ranks, pops: nat)
    requires Inv(net, start, goal, st, rank, pops)
    ensures Bounded(st, start, 0.0)
  {
  }

  // ----- the predecessors spell a walk -----

  lemma PathPrefix(net: Net, dist: seq<Float>, path: seq<nat>)
    requires |dist| == |net| && |path| > 1 && PathArcs(net, dist, path)
    ensures PathArcs(net, dist, path[..|path| - 1])
    ensures Linked(net, dist, path[|path| - 2], path[|path| - 1])
  {
    var front := path[..|path| - 1];
    forall i | 0 <= i < |front| - 1 ensures Linked(net, dist, front[i], front[i + 1]) {
      assert Linked(net, dist, path[i], path[i + 1]);
    }
    var i := |path| - 2;
    assert Linked(net, dist, path[i], path[i + 1]);
  }

  lemma LinkIsEdge(edges: seq<Edge>, g: Graph, health: HealthMap, model: TenantCostModel, dist: seq<Float>, p: nat,
    v: nat)
    returns (e: Edge)
    requires Stores(g, edges) && |dist| == |g.adjacency| && Linked(NetOf(g, health, model), dist, p, v)
    ensures p < |dist| && v < |dist| && e in edges && e.from == Name(g, p) && e.to == Name(g, v)
    ensures EdgeCost(e, health, model).Some? && dist[p].Finite?
    ensures dist[v] == Finite(dist[p].value + EdgeCost(e, health, model).value)
  {
    hide EdgeCost, NetOf;
    var k: nat :| TreeArc(NetOf(g, health, model), dist, p, v, k);
    e := ArcToEdge(g, edges, health, model, p, k);
  }

  lemma NamesSingle(g: Graph, path: seq<nat>)
    requires |path| == 1
    ensures Names(g, path) == [Name(g, path[0])]
  {
  }

  lemma NamesExtend(g: Graph, path: seq<nat>)
    requires |path| > 0
    ensures Names(g, path) == Names(g, path[..|path| - 1]) + [Name(g, path[|path| - 1])]
  {
  }

  lemma {:induction false} PathIsWalk(edges: seq<Edge>, g: Graph, health: HealthMap, model: TenantCostModel, start: nat,
    path: seq<nat>, dist: seq<Float>) returns (walk: seq<Edge>)
    requires Stores(g, edges) && |dist| == |g.adjacency| && |path| > 0 && path[0] == start
    requires start < |dist| && dist[start] == Finite(0.0) && PathArcs(NetOf(g, health, model), dist, path)
    ensures IsWalk(edges, health, model, Name(g, start), Name(g, path[|path| - 1]), walk)
    ensures WalkNodes(Name(g, start), walk) == Names(g, path)
    ensures path[|path| - 1] < |dist| && dist[path[|path| - 1]] == Finite(WalkCost(health, model, walk))
    decreases |path|
  {
    assert g.Closed();
    hide EdgeCost, Stores, NetOf, Name, Names, Linked, IsWalk, WalkCost, WalkNodes;
    var n := |path| - 1;
    if n == 0 {
      walk := [];
      NamesSingle(g, path);
      EmptyWalk(edges, health, model, Name(g, start));
    } else {
      PathPrefix(NetOf(g, health, model), dist, path);
      hide PathArcs;
      walk := PathIsWalk(edges, g, health, model, start, path[..n], dist);
      var e := LinkIsEdge(edges, g, health, model, dist, path[n - 1], path[n]);
      ExtendWalk(edges, g, health, model, Name(g, start), walk, e);
      NamesExtend(g, path);
      walk := walk + [e];
    }
  }

  lemma EmptyWalk(edges: seq<Edge>, health: HealthMap, model: TenantCostModel, start: string)
    ensures IsWalk(edges, health, model, start, start, [])
    ensures WalkCost(health, model, []) == 0.0 && WalkNodes(start, []) == [start]
  {
  }

  lemma ExtendWalk(edges: seq<Edge>, g: Graph, health: HealthMap, model: TenantCostModel, start: string,
    walk: seq<Edge>, e: Edge)
    requires e in edges && EdgeCost(e, health, model).Some? && IsWalk(edges, health, model, start, e.from, walk)
    ensures IsWalk(edges, health, model, start, e.to, walk + [e])
    ensures WalkCost(health, model, walk + [e]) == WalkCost(health, model, walk) + EdgeCost(e, health, model).value
    ensures WalkNodes(start, walk + [e]) == WalkNodes(start, walk) + [e.to]
  {
    assert (walk + [e])[..|walk|] == walk;
  }

  // ----- what a route promises -----

  /** The route is a cheapest walk, visits no node twice, and after its first node none that is Open. */
  ghost predicate Optimal(edges: seq<Edge>, health: HealthMap, model: TenantCostModel, start: string, goal: string,
    r: Route)
  {
    && (exists walk :: IsWalk(edges, health, model, start, goal, walk)
                       && WalkNodes(start, walk) == r.nodes && WalkCost(health, model, walk) == r.totalCost)
    && (forall walk :: IsWalk(edges, health, model, start, goal, walk) ==> r.totalCost <= WalkCost(health, model, walk))
    && (forall i, j :: 0 <= i < j < |r.nodes| ==> r.nodes[i] != r.nodes[j])
    && (forall i :: 1 <= i < |r.nodes| ==> !StateOf(health, r.nodes[i]).Open?)
  }

  lemma {:induction false} WalkAvoidsOpen(edges: seq<Edge>, health: HealthMap, model: TenantCostModel, start: string,
    goal: string, walk: seq<Edge>)
    requires IsWalk(edges, health, model, start, goal, walk)
    ensures var nodes := WalkNodes(start, walk);
            |nodes| == |walk| + 1 && nodes[0] == start && nodes[|walk|] == goal &&
            forall i :: 1 <= i < |nodes| ==> !StateOf(health, nodes[i]).Open?
    decreases |walk|
  {
    hide EdgeCost;
    if walk != [] {
      var last := walk[|walk| - 1];
      WalkAvoidsOpen(edges, health, model, start, last.from, walk[..|walk| - 1]);
      EdgeCostMeaning(last, health, model);
    }
  }

  lemma {:induction false} WalkCostNonNegative(edges: seq<Edge>, health: HealthMap, model: TenantCostModel,
    start: string, goal: string, walk: seq<Edge>)
    requires IsWalk(edges, health, model, start, goal, walk)
    ensures WalkCost(health, model, walk) >= 0.0
    decreases |walk|
  {
    hide EdgeCost;
    if walk != [] {
      var last := walk[|walk| - 1];
      WalkCostNonNegative(edges, health, model, start, last.from, walk[..|walk| - 1]);
      EdgeCostMeaning(last, health, model);
    }
  }

  /** The search that pops the goal has found an optimal route. */
  lemma FoundOptimal(edges: seq<Edge>, g: Graph, health: HealthMap, model: TenantCostModel, start: string, goal: string,
    st: Search, rank: Ranks, pops: nat)
    requires Stores(g, edges) && start != goal && start in g.nodeToId && goal in g.nodeToId
    requires Inv(NetOf(g, health, model), g.nodeToId[start], g.nodeToId[goal], st, rank, pops)
    requires st.heap != multiset{} && Top(st.heap).node == g.nodeToId[goal]
    ensures var path := PathOf(st.prev, g.nodeToId[start], g.nodeToId[goal]);
            Optimal(edges, health, model, start, goal, Route(Names(g, path), Top(st.heap).cost, false))
  {
    hide IsWalk, WalkCost, WalkNodes, NetOf, Bounded, Names, Queued, Frontier, Relaxed, Tree, PathArcs;
    var net, s, t := NetOf(g, health, model), g.nodeToId[start], g.nodeToId[goal];
    GoalPop(net, s, t, st, rank, pops);
    var path := BackPath(net, s, t, st, rank, pops, t);
    BackPathUnique(st.prev, s, t, path, PathOf(st.prev, s, t));
    var walk := PathIsWalk(edges, g, health, model, s, path, st.dist);
    WalkAvoidsOpen(edges, health, model, start, goal, walk);
    DistinctNames(g, net, st.dist, path);
    forall w | IsWalk(edges, health, model, start, goal, w) ensures Top(st.heap).cost <= WalkCost(health, model, w) {
      WalkBounded(edges, g, health, model, start, goal, w, t, st, rank, pops);
    }
  }

  lemma DistinctNames(g: Graph, net: Net, dist: seq<Float>, path: seq<nat>)
    requires g.Interned() && |net| == |dist| == |g.idToNode| && PathArcs(net, dist, path) && Distinct(path)
    ensures var names := Names(g, path); forall i, j :: 0 <= i < j < |names| ==> names[i] != names[j]
  {
    var names := Names(g, path);
    forall i, j | 0 <= i < j < |names| ensures names[i] != names[j] {
      assert path[i] != path[j];
      assert g.nodeToId[names[i]] == path[i] && g.nodeToId[names[j]] == path[j];
    }
  }

  lemma UnknownUnreachable(edges: seq<Edge>, health: HealthMap, model: TenantCostModel, start: string, goal: string,
    walk: seq<Edge>)
    requires IsWalk(edges, health, model, start, goal, walk) && walk != []
    ensures start in Build(edges).nodeToId && goal in Build(edges).nodeToId
    decreases |walk|
  {
    hide Graph.Closed, Graph.Interned, EdgeCost;
    BuildStores(edges);
    var last, front := walk[|walk| - 1], walk[..|walk| - 1];
    assert last in edges;
    if front != [] {
      UnknownUnreachable(edges, health, model, start, last.from, front);
    }
  }

  lemma SearchOptimal(edges: seq<Edge>, health: HealthMap, model: TenantCostModel, start: string, goal: string)
    requires start != goal && start in Build(edges).nodeToId && goal in Build(edges).nodeToId
    ensures var r := ShortestPath(edges, health, model, start, goal);
            match r
            case Some(route) => Optimal(edges, health, model, start, goal, route)
            case None => forall walk :: !IsWalk(edges, health, model, start, goal, walk)
  {
    BuildStores(edges);
    var g := Build(edges);
    hide Build, IsWalk, Optimal, Inv, Bounded, EdgeCount, PathOf, Names, Iterate, Shaped;
    var net, s, t := NetOf(g, health, model), g.nodeToId[start], g.nodeToId[goal];
    hide NetOf, WellFormed;
    var st, rank, n := LastState(net, s, t);
    if st.heap == multiset{} {
      NoWalk(edges, g, health, model, start, goal, st, rank, n);
    } else {
      FoundOptimal(edges, g, health, model, start, goal, st, rank, n);
    }
  }

  lemma NoWalk(edges: seq<Edge>, g: Graph, health: HealthMap, model: TenantCostModel, start: string, goal: string,
    st: Search, rank: Ranks, pops: nat)
    requires Stores(g, edges) && start in g.nodeToId && goal in g.nodeToId && st.heap == multiset{}
    requires Inv(NetOf(g, health, model), g.nodeToId[start], g.nodeToId[goal], st, rank, pops)
    ensures forall walk :: !IsWalk(edges, health, model, start, goal, walk)
  {
    var t := g.nodeToId[goal];
    assert t < |NetOf(g, health, model)|;
    hide Inv, IsWalk, NetOf, Bounded, Stores;
    EmptyQueue(NetOf(g, health, model), g.nodeToId[start], t, st, rank, pops);
    forall walk ensures !IsWalk(edges, health, model, start, goal, walk) {
      if IsWalk(edges, health, model, start, goal, walk) {
        WalkBounded(edges, g, health, model, start, goal, walk, t, st, rank, pops);
      }
    }
  }

  /** `shortest_path` is exact: it returns an optimal route, and none only when there is no walk. */
  lemma ShortestPathCorrect(edges: seq<Edge>, health: HealthMap, model: TenantCostModel, start: string, goal: string)
    ensures match ShortestPath(edges, health, model, start, goal)
            case Some(route) => Optimal(edges, health, model, start, goal, route) && !route.cacheHit
            case None => forall walk :: !IsWalk(edges, health, model, start, goal, walk)
    ensures start == goal ==> ShortestPath(edges, health, model, start, goal) == Some(Route([start], 0.0, false))
  {
    if start == goal {
      TrivialOptimal(edges, health, model, start);
    } else if start in Build(edges).nodeToId && goal in Build(edges).nodeToId {
      SearchOptimal(edges, health, model, start, goal);
    } else {
      forall walk ensures !IsWalk(edges, health, model, start, goal, walk) {
        if IsWalk(edges, health, model, start, goal, walk) {
          UnknownUnreachable(edges, health, model, start, goal, walk);
        }
      }
    }
  }

  lemma TrivialOptimal(edges: seq<Edge>, health: HealthMap, model: TenantCostModel, start: string)
    ensures Optimal(edges, health, model, start, start, Route([start], 0.0, false))
  {
    EmptyWalk(edges, health, model, start);
    forall walk | IsWalk(edges, health, model, start, start, walk) ensures 0.0 <= WalkCost(health, model, walk) {
      WalkCostNonNegative(edges, health, model, start, start, walk);
    }
  }

  // ----- a route in terms of edges, weights and penalties -----

  /** The tenant may take this edge: it is enabled, its measured costs are finite and not negative, and its target is
      not Open. */
  ghost predicate Usable(e: Edge, health: HealthMap, model: TenantCostModel) {
    && e.enabled && model.Valid() && !StateOf(health, e.to).Open?
    && e.costs.base.Finite? && e.costs.base.value >= 0.0 && e.costs.dollar.Finite? && e.costs.dollar.value >= 0.0
    && e.costs.risk.Finite? && e.costs.risk.value >= 0.0
  }

  /** Usable added edges that lead from `start` to `goal`, each leaving the node the one before it enters. */
  ghost predicate Leads(edges: seq<Edge>, health: HealthMap, model: TenantCostModel, start: string, goal: string,
    path: seq<Edge>)
  {
    && (forall i :: 0 <= i < |path| ==> path[i] in edges && Usable(path[i], health, model))
    && (forall i :: 0 <= i < |path| - 1 ==> path[i].to == path[i + 1].from)
    && if path == [] then start == goal else path[0].from == start && path[|path| - 1].to == goal
  }

  lemma UsableCharged(e: Edge, health: HealthMap, model: TenantCostModel)
    requires Usable(e, health, model)
    ensures Weight(e.costs, model).Finite? && PenaltyOf(health, e.to).Finite?
  {
    hide Weight;
    WeightRange(e.costs, model);
    PenaltyRange(health, e.to);
  }

  /** The weights of the edges plus the penalties of the nodes they enter. */
  ghost function Charges(health: HealthMap, model: TenantCostModel, path: seq<Edge>): real
    requires forall i :: 0 <= i < |path| ==> Usable(path[i], health, model)
  {
    if path == [] then 0.0
    else
      UsableCharged(path[0], health, model);
      Weight(path[0].costs, model).value + PenaltyOf(health, path[0].to).value + Charges(health, model, path[1..])
  }

  lemma {:induction false} ChargesSnoc(health: HealthMap, model: TenantCostModel, path: seq<Edge>)
    requires path != [] && forall i :: 0 <= i < |path| ==> Usable(path[i], health, model)
    ensures var e := path[|path| - 1];
            && Weight(e.costs, model).Finite? && PenaltyOf(health, e.to).Finite?
            && Charges(health, model, path) == Charges(health, model, path[..|path| - 1])
                                              + Weight(e.costs, model).value + PenaltyOf(health, e.to).value
  {
    hide Weight, PenaltyOf, Usable;
    UsableCharged(path[|path| - 1], health, model);
    if |path| > 1 {
      ChargesSnoc(health, model, path[1..]);
      assert path[1..][..|path| - 2] == path[..|path| - 1][1..];
    }
  }

  lemma UsableIff(e: Edge, health: HealthMap, model: TenantCostModel)
    ensures Usable(e, health, model) <==> EdgeCost(e, health, model).Some?
  {
    hide EdgeCost;
    EdgeCostMeaning(e, health, model);
  }

  lemma LeadsSnoc(edges: seq<Edge>, health: HealthMap, model: TenantCostModel, start: string, goal: string,
    path: seq<Edge>)
    requires path != []
    ensures var e := path[|path| - 1];
            Leads(edges, health, model, start, goal, path) <==>
              e in edges && Usable(e, health, model) && e.to == goal
              && Leads(edges, health, model, start, e.from, path[..|path| - 1])
  {
    hide Usable;
    var n := |path| - 1;
    if Leads(edges, health, model, start, goal, path) && n > 0 {
      assert path[n - 1].to == path[n - 1 + 1].from;
    }
  }

  /** The walks of the proofs are these paths, and their cost is what is charged. */
  lemma {:induction false} WalkIsPath(edges: seq<Edge>, health: HealthMap, model: TenantCostModel, start: string,
    goal: string, path: seq<Edge>)
    ensures IsWalk(edges, health, model, start, goal, path) <==> Leads(edges, health, model, start, goal, path)
    ensures Leads(edges, health, model, start, goal, path) ==>
              WalkCost(health, model, path) == Charges(health, model, path)
    decreases |path|
  {
    hide Usable, EdgeCost, Leads;
    if path == [] {
      assert Leads(edges, health, model, start, goal, path) <==>
          start == goal by { LeadsNone(edges, health, model, start, goal); }
    } else {
      var e := path[|path| - 1];
      WalkIsPath(edges, health, model, start, e.from, path[..|path| - 1]);
      LeadsSnoc(edges, health, model, start, goal, path);
      UsableIff(e, health, model);
      if Leads(edges, health, model, start, goal, path) {
        LeadsUsable(edges, health, model, start, goal, path);
        ChargesSnoc(health, model, path);
        EdgeCostMeaning(e, health, model);
      }
    }
  }

  lemma LeadsNone(edges: seq<Edge>, health: HealthMap, model: TenantCostModel, start: string, goal: string)
    ensures Leads(edges, health, model, start, goal, []) <==> start == goal
  {
  }

  lemma LeadsUsable(edges: seq<Edge>, health: HealthMap, model: TenantCostModel, start: string, goal: string,
    path: seq<Edge>)
    requires Leads(edges, health, model, start, goal, path)
    ensures forall i :: 0 <= i < |path| ==> Usable(path[i], health, model)
  {
  }

  /** The route visits the start and the nodes these edges enter, and costs what they charge. */
  ghost predicate Travels(health: HealthMap, model: TenantCostModel, start: string, path: seq<Edge>, r: Route)
    requires forall i :: 0 <= i < |path| ==> Usable(path[i], health, model)
  {
    && |r.nodes| == |path| + 1 && r.nodes[0] == start
    && (forall i :: 0 <= i < |path| ==> r.nodes[i + 1] == path[i].to)
    && r.totalCost == Charges(health, model, path)
  }

  /** A route charges every edge its weight plus the penalty of the node it enters, and no path of usable edges to the
      goal is charged less; without a route there is no such path. */
  lemma RouteCharges(edges: seq<Edge>, health: HealthMap, model: TenantCostModel, start: string, goal: string)
    ensures match ShortestPath(edges, health, model, start, goal)
            case Some(route) =>
              && (exists path ::
                    Leads(edges, health, model, start, goal, path) && Travels(health, model, start, path, route))
              && (forall path :: Leads(edges, health, model, start, goal, path) ==>
                    route.totalCost <= Charges(health, model, path))
            case None => forall path :: !Leads(edges, health, model, start, goal, path)
  {
    ShortestPathCorrect(edges, health, model, start, goal);
    hide ShortestPath, IsWalk, WalkCost, WalkNodes, Leads, Charges, Usable;
    forall path: seq<Edge>
      ensures IsWalk(edges, health, model, start, goal, path) <==> Leads(edges, health, model, start, goal, path)
      ensures Leads(edges, health, model, start, goal, path) ==>
                (forall i :: 0 <= i < |path| ==> Usable(path[i], health, model))
                && WalkCost(health, model, path) == Charges(health, model, path)
    {
      WalkIsPath(edges, health, model, start, goal, path);
      if Leads(edges, health, model, start, goal, path) {
        LeadsUsable(edges, health, model, start, goal, path);
      }
    }
    if ShortestPath(edges, health, model, start, goal).Some? {
      var route := ShortestPath(edges, health, model, start, goal).value;
      var walk: seq<Edge> :| IsWalk(edges, health, model, start, goal, walk)
                             && WalkNodes(start, walk) == route.nodes
                                 && WalkCost(health, model, walk) == route.totalCost;
      WalkTargets(start, walk);
      assert Travels(health, model, start, walk, route);
    }
  }

  // ----- the start node's own breaker -----

  lemma {:induction false} WalkCarries(edges: seq<Edge>, before: HealthMap, after: HealthMap, model: TenantCostModel,
    start: string, goal: string, walk: seq<Edge>)
    requires IsWalk(edges, before, model, start, goal, walk)
    requires forall i :: 0 <= i < |walk| ==> PenaltyOf(after, walk[i].to) == PenaltyOf(before, walk[i].to)
    ensures IsWalk(edges, after, model, start, goal, walk)
    ensures WalkCost(after, model, walk) == WalkCost(before, model, walk)
    decreases |walk|
  {
    if walk != [] {
      var last := walk[|walk| - 1];
      WalkCarries(edges, before, after, model, start, last.from, walk[..|walk| - 1]);
    }
  }

  lemma {:induction false} WalkTargets(start: string, walk: seq<Edge>)
    ensures |WalkNodes(start, walk)| == |walk| + 1 && WalkNodes(start, walk)[0] == start
    ensures forall i :: 0 <= i < |walk| ==> WalkNodes(start, walk)[i + 1] == walk[i].to
  {
    if walk != [] {
      WalkTargets(start, walk[..|walk| - 1]);
    }
  }

  /** A route found under one health map is matched under another that differs only at the start. */
  lemma RouteCarries(edges: seq<Edge>, before: HealthMap, after: HealthMap, model: TenantCostModel, start: string,
    goal: string)
    requires forall node :: node != start ==> PenaltyOf(after, node) == PenaltyOf(before, node)
    requires ShortestPath(edges, before, model, start, goal).Some?
    ensures var r := ShortestPath(edges, after, model, start, goal);
            r.Some? && r.value.totalCost <= ShortestPath(edges, before, model, start, goal).value.totalCost
  {
    ShortestPathCorrect(edges, before, model, start, goal);
    ShortestPathCorrect(edges, after, model, start, goal);
    var route := ShortestPath(edges, before, model, start, goal).value;
    hide ShortestPath, IsWalk, WalkCost, WalkNodes, PenaltyOf;
    var walk: seq<Edge> :| IsWalk(edges, before, model, start, goal, walk)
                && WalkNodes(start, walk) == route.nodes && WalkCost(before, model, walk) == route.totalCost;
    WalkTargets(start, walk);
    forall i | 0 <= i < |walk| ensures walk[i].to != start {
      assert route.nodes[0] != route.nodes[i + 1];
    }
    WalkCarries(edges, before, after, model, start, goal, walk);
  }

  /** Routing does not look at the breaker of the start node: Open or not, there is a route or not all the same,
      at the same cost. */
  lemma StartBreakerIgnored(edges: seq<Edge>, before: HealthMap, after: HealthMap, model: TenantCostModel,
    start: string, goal: string)
    requires forall node :: node != start ==> PenaltyOf(after, node) == PenaltyOf(before, node)
    ensures var a, b := ShortestPath(edges, before, model, start, goal), ShortestPath(edges, after, model, start, goal);
            (a.Some? <==> b.Some?) && (a.Some? ==> a.value.totalCost == b.value.totalCost)
  {
    hide ShortestPath, PenaltyOf;
    if ShortestPath(edges, before, model, start, goal).Some? {
      RouteCarries(edges, before, after, model, start, goal);
      RouteCarries(edges, after, before, model, start, goal);
    } else if ShortestPath(edges, after, model, start, goal).Some? {
      RouteCarries(edges, after, before, model, start, goal);
    }
  }

  /** Under penalties that are nowhere lower, no walk gets cheaper and none is new. */
  lemma {:induction false} WalkNoCheaper(edges: seq<Edge>, before: HealthMap, after: HealthMap, model: TenantCostModel,
    start: string, goal: string, walk: seq<Edge>)
    requires IsWalk(edges, after, model, start, goal, walk)
    requires forall node :: !PenaltyOf(after, node).Less(PenaltyOf(before, node))
    ensures IsWalk(edges, before, model, start, goal, walk)
    ensures WalkCost(before, model, walk) <= WalkCost(after, model, walk)
    decreases |walk|
  {
    hide Tracker.Penalty, Weight;
    if walk != [] {
      var last := walk[|walk| - 1];
      WalkNoCheaper(edges, before, after, model, start, last.from, walk[..|walk| - 1]);
      PenaltyRange(before, last.to);
      PenaltyRange(after, last.to);
    }
  }

  /** An optimal route stays optimal while the penalties on its way are unchanged and no other is lower. */
  lemma StaysOptimal(edges: seq<Edge>, before: HealthMap, after: HealthMap, model: TenantCostModel,
    start: string, goal: string, r: Route)
    requires Optimal(edges, before, model, start, goal, r)
    requires forall i :: 1 <= i < |r.nodes| ==> PenaltyOf(after, r.nodes[i]) == PenaltyOf(before, r.nodes[i])
    requires forall node :: !PenaltyOf(after, node).Less(PenaltyOf(before, node))
    ensures Optimal(edges, after, model, start, goal, r)
  {
    hide IsWalk, WalkCost, WalkNodes, PenaltyOf;
    var walk: seq<Edge> :| IsWalk(edges, before, model, start, goal, walk)
                           && WalkNodes(start, walk) == r.nodes && WalkCost(before, model, walk) == r.totalCost;
    WalkTargets(start, walk);
    WalkCarries(edges, before, after, model, start, goal, walk);
    WalkAvoidsOpen(edges, after, model, start, goal, walk);
    forall w: seq<Edge> | IsWalk(edges, after, model, start, goal, w) ensures r.totalCost <= WalkCost(after, model, w) {
      WalkNoCheaper(edges, before, after, model, start, goal, w);
    }
  }

  // ----- the work bound in terms of the edges added -----

  function StoredEdges(adjacency: seq<seq<IndexedEdge>>): nat {
    if adjacency == [] then 0 else StoredEdges(adjacency[..|adjacency| - 1]) + |adjacency[|adjacency| - 1]|
  }

  lemma {:induction false} StoredUpdate(adjacency: seq<seq<IndexedEdge>>, u: nat, e: IndexedEdge)
    requires u < |adjacency|
    ensures StoredEdges(adjacency[u := adjacency[u] + [e]]) == StoredEdges(adjacency) + 1
  {
    var n := |adjacency| - 1;
    var updated := adjacency[u := adjacency[u] + [e]];
    if u < n {
      StoredUpdate(adjacency[..n], u, e);
      assert updated[..n] == adjacency[..n][u := adjacency[u] + [e]];
    } else {
      assert updated[..n] == adjacency[..n];
    }
  }

  lemma WithNodeStored(g: Graph, name: string)
    ensures StoredEdges(g.WithNode(name).adjacency) == StoredEdges(g.adjacency)
  {
    assert (g.adjacency + [[]])[..|g.adjacency|] == g.adjacency;
  }

  lemma {:induction false} BuildStored(edges: seq<Edge>)
    ensures StoredEdges(Build(edges).adjacency) == |edges|
  {
    if edges != [] {
      var front, e := edges[..|edges| - 1], edges[|edges| - 1];
      var g := Build(front);
      BuildStored(front);
      BuildStores(front);
      WithNodeStores(g, front, e.from);
      WithNodeStores(g.WithNode(e.from), front, e.to);
      hide Build, OutEdges;
      WithNodeStored(g, e.from);
      WithNodeStored(g.WithNode(e.from), e.to);
      var h := g.WithNode(e.from).WithNode(e.to);
      StoredUpdate(h.adjacency, h.Id(e.from), IndexedEdge(h.Id(e.to), e.costs, e.enabled));
      assert Build(edges) == g.WithEdge(e) by { BuildStep(edges); }
    }
  }

  lemma BuildStep(edges: seq<Edge>)
    requires edges != []
    ensures Build(edges) == Build(edges[..|edges| - 1]).WithEdge(edges[|edges| - 1])
  {
  }

  lemma {:induction false} CountsMatch(net: Net, adjacency: seq<seq<IndexedEdge>>)
    requires |net| == |adjacency| && forall u :: 0 <= u < |net| ==> |net[u]| == |adjacency[u]|
    ensures EdgeCount(net) == StoredEdges(adjacency)
  {
    if net != [] {
      CountsMatch(net[..|net| - 1], adjacency[..|net| - 1]);
    }
  }

  /** The net searched for the edges added. */
  ghost function NetFor(edges: seq<Edge>, health: HealthMap, model: TenantCostModel): (net: Net)
    ensures WellFormed(net) && |net| == |Build(edges).idToNode|
  {
    BuildStores(edges);
    NetOf(Build(edges), health, model)
  }

  /** A search over the graph built from `edges` pops at most 1 + |edges| entries before it ends. */
  lemma PopBound(edges: seq<Edge>, health: HealthMap, model: TenantCostModel, start: nat, goal: nat, n: nat)
    requires start < |Build(edges).idToNode|
    ensures Iterate(NetFor(edges, health, model), start, goal, n).Running? ==> n <= 1 + |edges|
  {
    var net := NetFor(edges, health, model);
    BuildStores(edges);
    BuildStored(edges);
    CountsMatch(net, Build(edges).adjacency);
    WorkBound(net, start, goal, n);
  }
}
