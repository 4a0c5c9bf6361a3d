/** `ToolGraph` as the object the router owns, with the search loop over local vectors. */
module Graphs {
  import opened Prelude
  import opened CostModel
  import opened Health
  import opened Dijkstra
  import opened Multigraph

  function Reverse<T>(s: seq<T>): seq<T> {
    seq(|s|, i requires 0 <= i < |s| => s[|s| - 1 - i])
  }

  class ToolGraph {
    var nodeToId: map<string, nat>
    var idToNode: seq<string>
    var adjacency: seq<seq<IndexedEdge>>
    /** Every edge added so far. */
    ghost var edges: seq<Edge>

    function View(): Graph
      reads this
    {
      Graph(nodeToId, idToNode, adjacency)
    }

    ghost predicate Valid()
      reads this
    {
      View() == Build(edges)
    }

    constructor ()
      ensures Valid() && edges == []
    {
      nodeToId, idToNode, adjacency, edges := map[], [], [], [];
    }

    method GetOrInsertNode(name: string) returns (id: nat)
      requires View().Closed() && View().Interned()
      modifies this
      ensures View() == old(View()).WithNode(name) && edges == old(edges)
      ensures View().Closed() && View().Interned() && name in nodeToId && id == nodeToId[name] < |adjacency|
      ensures |old(adjacency)| <= |adjacency| && forall n :: n in old(nodeToId) ==>
          n in nodeToId && nodeToId[n] == old(nodeToId)[n]
    {
      if name in nodeToId {
        id := nodeToId[name];
      } else {
        id := |idToNode|;
        nodeToId := nodeToId[name := id];
        idToNode := idToNode + [name];
        adjacency := adjacency + [[]];
      }
    }

    method AddEdge(edge: Edge)
      requires Valid()
      modifies this
      ensures Valid() && edges == old(edges) + [edge]
    {
      BuildStores(edges);
      ghost var before := View();
      assert before.Closed() && before.Interned();
      hide Stores, Build, Graph.WithNode, Graph.Closed, Graph.Interned;
      var fromId := GetOrInsertNode(edge.from);
      var toId := GetOrInsertNode(edge.to);
      adjacency := adjacency[fromId := adjacency[fromId] + [IndexedEdge(toId, edge.costs, edge.enabled)]];
      assert View() == before.WithEdge(edge);
      BuildSnoc(edges, edge);
      edges := edges + [edge];
    }

    /** Follows the predecessors from the goal; `path` names the nodes the walk must meet. */
    method WalkBack(previous: seq<Option<nat>>, startId: nat, goalId: nat, ghost path: seq<nat>)
      returns (nodes: seq<string>)
      requires |previous| == |idToNode| && IsBackPath(previous, startId, goalId, path)
      requires startId < |idToNode| && goalId < |idToNode|
      ensures nodes == Names(View(), path)
    {
      var found: seq<string> := [];
      var curr := Some(goalId);
      ghost var i := 0;
      while curr.Some?
        invariant 0 <= i <= |path| && |found| == i
        invariant i < |path| ==> curr == Some(path[|path| - 1 - i])
        invariant i == |path| ==> curr == None
        invariant forall j :: 0 <= j < i ==> found[j] == Name(View(), path[|path| - 1 - j])
        decreases |path| - i
      {
        found := found + [if curr.value < |idToNode| then idToNode[curr.value] else ""];
        i := i + 1;
        if curr.value == startId {
          break;
        }
        curr := previous[curr.value];
      }
      nodes := Reverse(found);
    }

    /** The cost of one stored edge, looked up the way the inner loop does. */
    method StoredCost(edge: IndexedEdge, health: HealthMap, model: TenantCostModel, ghost node: nat, ghost k: nat)
      returns (cost: Option<real>)
      requires Valid() && View().Closed()
      requires node < |adjacency| && k < |adjacency[node]| && edge == adjacency[node][k]
      ensures NetOf(View(), health, model)[node][k] == Arc(edge.to, cost)
    {
      hide Build;
      if !edge.enabled {
        return None;
      }
      var target := idToNode[edge.to];
      var penalty := if target in health then health[target].Penalty() else Finite(0.0);
      if !edge.costs.Valid() {
        return None;
      }
      var weight := Weight(edge.costs, model);
      if !weight.Finite? || !penalty.Finite? {
        return None;
      }
      return Some(weight.value + penalty.value);
    }

    /** Relaxes every edge of a node popped with its current distance. */
    method RelaxNode(node: nat, cost: real, health: HealthMap, model: TenantCostModel, st: Search)
      returns (distances: seq<Float>, previous: seq<Option<nat>>, heap: multiset<Entry>)
      requires Valid() && View().Closed() && node < |adjacency| == |st.dist| == |st.prev|
      ensures Search(distances, previous, heap) ==
              Relax(NetOf(View(), health, model), st, node, cost, |adjacency[node]|)
    {
      hide Build, NetOf, Relax, LegCost;
      ghost var net := NetOf(View(), health, model);
      assert Relax(net, st, node, cost, 0) == st by { RelaxNone(net, st, node, cost); }
      distances, previous, heap := st.dist, st.prev, st.heap;
      for k := 0 to |adjacency[node]|
        invariant NetOf(View(), health, model) == net
        invariant Search(distances, previous, heap) == Relax(net, st, node, cost, k)
      {
        RelaxUnfold(net, st, node, cost, k);
        var edge := adjacency[node][k];
        var edgeCost := StoredCost(edge, health, model, node, k);
        if edgeCost.None? {
          continue;
        }
        var next := cost + edgeCost.value;
        if Finite(next).Less(distances[edge.to]) {
          distances := distances[edge.to := Finite(next)];
          previous := previous[edge.to := Some(node)];
          heap := heap + multiset{Entry(edge.to, next)};
        }
      }
    }

    method ShortestPath(health: HealthMap, model: TenantCostModel, start: string, goal: string)
      returns (route: Option<Route>)
      requires Valid()
      ensures route == Multigraph.ShortestPath(edges, health, model, start, goal)
    {
      if start == goal {
        return Some(Route([start], 0.0, false));
      }
      if start !in nodeToId || goal !in nodeToId {
        return None;
      }
      BuildStores(edges);
      route := Explore(health, model, nodeToId[start], nodeToId[goal]);
    }

    /** The entry a max-heap would pop. */
    static method PopTop(heap: multiset<Entry>) returns (top: Entry)
      requires heap != multiset{}
      ensures IsTop(heap, top)
    {
      TopExists(heap);
      ghost var best :| IsTop(heap, best);
      top :| top in heap && forall e :: e in heap ==> CompareEntry(top, e) != LT;
    }

    /** The main loop, on ids. */
    method Explore(health: HealthMap, model: TenantCostModel, startId: nat, goalId: nat)
      returns (route: Option<Route>)
      requires Valid() && View().Closed() && startId < |idToNode| && goalId < |idToNode|
      ensures route == match Outcome(NetOf(View(), health, model), startId, goalId)
                       case Found(st, cost) => Some(Route(Names(View(), PathOf(st.prev, startId, goalId)), cost, false))
                       case _ => None
    {
      hide Build, NetOf, WellFormed, Shaped, Advance, IsTop, Relax, RankAt;
      var n := |idToNode|;
      ghost var net := NetOf(View(), health, model);
      var distances := seq(n, _ => Infinity)[startId := Finite(0.0)];
      var previous: seq<Option<nat>> := seq(n, _ => None);
      var heap := multiset{Entry(startId, 0.0)};
      ghost var pops := 0;
      while heap != multiset{}
        invariant |distances| == |previous| == n && NetOf(View(), health, model) == net
        invariant Iterate(net, startId, goalId, pops) == Running(Search(distances, previous, heap))
        decreases 2 + EdgeCount(net) - pops
      {
        WorkBound(net, startId, goalId, pops);
        var top := PopTop(heap);
        AdvanceCases(net, goalId, Search(distances, previous, heap), top);
        IterateStep(net, startId, goalId, pops + 1);
        if top.node == goalId {
          OutcomeIs(net, startId, goalId, pops + 1);
          ghost var path := PathAt(net, startId, goalId, pops);
          var nodes := WalkBack(previous, startId, goalId, path);
          return Some(Route(nodes, top.cost, false));
        }
        heap := heap - multiset{top};
        pops := pops + 1;
        if distances[top.node].Less(Finite(top.cost)) {
          continue;
        }
        distances, previous, heap := RelaxNode(top.node, top.cost, health, model, Search(distances, previous, heap));
      }
      AdvanceEmpty(net, goalId, Search(distances, previous, heap));
      IterateStep(net, startId, goalId, pops + 1);
      OutcomeIs(net, startId, goalId, pops + 1);
      return None;
    }
  }

  /** When the goal is popped, its predecessors lead back to the start. */
  lemma PathAt(net: Net, start: nat, goal: nat, n: nat) returns (path: seq<nat>)
    requires WellFormed(net) && start < |net| && Iterate(net, start, goal, n).Running?
    requires var heap := Iterate(net, start, goal, n).st.heap; heap != multiset{} && Top(heap).node == goal
    ensures var prev := Iterate(net, start, goal, n).st.prev;
            IsBackPath(prev, start, goal, path) && path == PathOf(prev, start, goal)
  {
    hide Iterate, RankAt, Queued, Frontier, Tree, Relaxed, WellFormed, IsBackPath;
    Reached(net, start, goal, n);
    var st, rank := Iterate(net, start, goal, n).st, RankAt(net, start, goal, n);
    GoalPop(net, start, goal, st, rank, n);
    path := BackPath(net, start, goal, st, rank, n, goal);
    BackPathUnique(st.prev, start, goal, path, PathOf(st.prev, start, goal));
  }
}
