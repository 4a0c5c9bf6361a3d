/** `AuditPipeline` and `TenantState` as the mutable objects behind the router. */
module Tenants {
  import opened Prelude
  import opened CostModel
  import opened Health
  import opened Multigraph
  import opened Graphs
  import opened RouterSteps
  import RouteCache
  import opened RecoveryProbe

  const AUDIT_EVENT_MEMORY_LIMIT: nat := 10_000

  /** What a ring of the given capacity still holds of a history. A ring of capacity 0 never evicts. */
  function Retained(history: seq<AuditEvent>, capacity: nat): seq<AuditEvent> {
    if capacity == 0 || |history| <= capacity then history else history[|history| - capacity..]
  }

  /** That is the latest `capacity` events, or all of them. */
  lemma RetainedMeaning(history: seq<AuditEvent>, capacity: nat)
    ensures var r := Retained(history, capacity);
            && |r| == (if 0 < capacity < |history| then capacity else |history|)
            && forall i :: 0 <= i < |r| ==> r[i] == history[|history| - |r| + i]
  {
  }

  class AuditPipeline {
    var events: seq<AuditEvent>
    const capacity: nat
    /** Every event ever pushed. */
    ghost var history: seq<AuditEvent>

    ghost predicate Valid()
      reads this
    {
      events == Retained(history, capacity)
    }

    constructor (capacity: nat)
      ensures Valid() && history == [] && this.capacity == capacity
    {
      this.capacity := capacity;
      events, history := [], [];
    }

    method Push(event: AuditEvent)
      requires Valid()
      modifies this
      ensures Valid() && history == old(history) + [event]
    {
      if |events| == capacity && events != [] {
        events := events[1..];
      }
      events := events + [event];
      history := history + [event];
    }

    method LastEvent() returns (last: Option<AuditEvent>)
      requires Valid()
      ensures last == if history == [] then None else Some(history[|history| - 1])
    {
      last := if events == [] then None else Some(events[|events| - 1]);
    }
  }

  lemma NoHalfOpen(health: HealthMap)
    ensures HalfOpenNodes(health, []) == health
  {
  }

  lemma NextHalfOpen(health: HealthMap, nodes: seq<Node>, node: Node)
    ensures HalfOpenNodes(health, nodes + [node]) == HalfOpenNode(HalfOpenNodes(health, nodes), node)
  {
    assert (nodes + [node])[..|nodes|] == nodes;
  }

  class TenantState {
    const graph: ToolGraph
    var health: map<Node, HealthTracker>
    var cache: map<RouteKey, RouteCache.CachedPath>
    var cacheOrder: seq<RouteKey>
    var costModel: TenantCostModel
    var healthPolicy: HealthPolicy
    ghost var cacheOps: seq<RouteCache.CacheOp>
    ghost var origins: map<RouteKey, Origin>

    ghost function Trackers(): set<object>
      reads this
    {
      set node | node in health :: health[node]
    }

    ghost function Repr(): set<object>
      reads this
    {
      {this, graph} + Trackers()
    }

    ghost predicate Valid()
      reads this, Repr()
    {
      && graph.Valid()
      && CacheView() == RouteCache.Run(cacheOps)
      && forall n, m :: n in health && m in health && n != m ==> health[n] != health[m]
    }

    ghost function CacheView(): RouteCache.Cache
      reads this
    {
      RouteCache.Cache(cache, cacheOrder)
    }

    function HealthView(): HealthMap
      reads this, Trackers()
    {
      map node | node in health :: health[node].View()
    }

    ghost function View(): Tenant
      reads this, Repr()
    {
      Tenant(graph.edges, HealthView(), cacheOps, costModel, healthPolicy, origins)
    }

    constructor ()
      ensures Valid() && fresh(Repr()) && View() == NEW_TENANT
    {
      graph := new ToolGraph();
      health, cache, cacheOrder := map[], map[], [];
      costModel, healthPolicy := DEFAULT_MODEL, DEFAULT_POLICY;
      cacheOps, origins := [], map[];
    }

    // ----- the cache -----

    /** The cache fields took the step they record. */
    twostate lemma CacheStep(op: RouteCache.CacheOp)
      requires old(Valid()) && unchanged(graph) && unchanged(this`health) && unchanged(Trackers())
      requires unchanged(this`costModel) && unchanged(this`healthPolicy) && unchanged(this`origins)
      requires CacheView() == RouteCache.Apply(old(CacheView()), op) && cacheOps == old(cacheOps) + [op]
      ensures Valid() && View() == old(View()).Did(op)
    {
      hide RouteCache.Apply, Build;
      assert cacheOps[..|cacheOps| - 1] == old(cacheOps);
    }

    method InvalidateAllCache()
      requires Valid()
      modifies this`cache, this`cacheOrder, this`cacheOps
      ensures Valid() && View() == old(View()).Did(RouteCache.InvalidateAll)
    {
      hide Valid, View;
      cache, cacheOrder := map[], [];
      cacheOps := cacheOps + [RouteCache.InvalidateAll];
      CacheStep(RouteCache.InvalidateAll);
    }

    method InvalidateForNode(node: Node)
      requires Valid()
      modifies this`cache, this`cacheOrder, this`cacheOps
      ensures Valid() && View() == old(View()).Did(RouteCache.InvalidateNode(node))
    {
      hide Valid, View;
      cache := map key | key in cache && node !in cache[key].touched :: cache[key];
      cacheOrder := RouteCache.Retain(cacheOrder, cache.Keys);
      cacheOps := cacheOps + [RouteCache.InvalidateNode(node)];
      CacheStep(RouteCache.InvalidateNode(node));
    }

    method GetCached(key: RouteKey) returns (cached: Option<RouteCache.CachedPath>)
      requires Valid()
      modifies this`cacheOrder, this`cacheOps
      ensures Valid() && cached == if key in cache then Some(cache[key]) else None
      ensures View() == if key in cache then old(View()).Did(RouteCache.Get(key)) else old(View())
    {
      hide Valid, View;
      if key !in cache {
        return None;
      }
      cached := Some(cache[key]);
      cacheOrder := RouteCache.Without(cacheOrder, key);
      cacheOrder := cacheOrder + [key];
      cacheOps := cacheOps + [RouteCache.Get(key)];
      CacheStep(RouteCache.Get(key));
    }

    method InsertCache(key: RouteKey, cached: RouteCache.CachedPath)
      requires Valid()
      modifies this`cache, this`cacheOrder, this`cacheOps
      ensures Valid() && View() == old(View()).Did(RouteCache.Insert(key, cached))
    {
      hide Valid, View;
      if key !in cache && |cache| == RouteCache.LIMIT && cacheOrder != [] {
        var evicted := cacheOrder[0];
        cacheOrder := cacheOrder[1..];
        cache := cache - {evicted};
      }
      cacheOrder := RouteCache.Without(cacheOrder, key);
      cacheOrder := cacheOrder + [key];
      cache := cache[key := cached];
      cacheOps := cacheOps + [RouteCache.Insert(key, cached)];
      CacheStep(RouteCache.Insert(key, cached));
    }

    // ----- configuration -----

    method SetCostModel(model: TenantCostModel)
      requires Valid()
      modifies this
      ensures Valid() && Repr() == old(Repr()) && View() == old(View()).WithModel(model)
    {
      costModel := model;
      InvalidateAllCache();
    }

    method SetHealthPolicy(policy: HealthPolicy)
      requires Valid()
      modifies this
      ensures Valid() && Repr() == old(Repr()) && View() == old(View()).WithPolicy(policy)
    {
      healthPolicy := policy;
      InvalidateAllCache();
    }

    method AddEdge(edge: Edge)
      requires Valid()
      modifies this, graph
      ensures Valid() && Repr() == old(Repr()) && View() == old(View()).WithEdge(edge)
    {
      graph.AddEdge(edge);
      InvalidateAllCache();
    }

    // ----- health -----

    /** `health.entry(node).or_default()` */
    method TrackerFor(node: Node) returns (tracker: HealthTracker)
      requires Valid()
      modifies this`health
      ensures Valid() && fresh(Repr() - old(Repr())) && old(Repr()) <= Repr()
      ensures tracker in old(Trackers()) || fresh(tracker)
      ensures Trackers() == old(Trackers()) + {tracker}
      ensures node in health && tracker == health[node] && tracker.View() == old(View()).TrackerOf(node)
      ensures HealthView() == old(HealthView())[node := tracker.View()]
    {
      if node !in health {
        var created := new HealthTracker();
        health := health[node := created];
        assert forall n :: n in old(health) ==> n in health && health[n] == old(health[n]);
      }
      tracker := health[node];
    }

    /** Mutating one tracker shows at its node and nowhere else. */
    twostate lemma OneTracker(node: Node)
      requires old(Valid()) && Valid() && health == old(health) && node in health
      requires forall n :: n in health && n != node ==> health[n].View() == old(health[n].View())
      ensures HealthView() == old(HealthView())[node := health[node].View()]
    {
    }

    method RecordOnTracker(node: Node, success: bool, latencyMs: nat, now: Instant) returns (changed: bool)
      requires Valid() && node in health
      modifies Trackers()
      ensures Valid() && HealthView() ==
          old(HealthView())[node := old(HealthView())[node].Record(success, latencyMs, healthPolicy, now)]
      ensures changed == (HealthView()[node].state != old(HealthView())[node].state)
    {
      hide RouteCache.Run, Tracker.Record, Build;
      changed := health[node].RecordResultWithPolicy(success, latencyMs, healthPolicy, now);
      OneTracker(node);
    }

    lemma ViewHealth()
      ensures View().health == HealthView() && View().policy == healthPolicy
    {
    }

    /** The tracker part of a result, creating the tracker if need be. */
    method RecordHealth(node: Node, success: bool, latencyMs: nat, now: Instant) returns (changed: bool)
      requires Valid()
      modifies this`health, Trackers()
      ensures Valid() && fresh(Repr() - old(Repr())) && old(Repr()) <= Repr()
      ensures var t := old(View());
              HealthView() == t.health[node := t.TrackerOf(node).Record(success, latencyMs, healthPolicy, now)]
              && changed == (t.StateAfter(node, success, latencyMs, now) != t.TrackerOf(node).state)
    {
      hide Valid, Tracker.Record, HealthTracker.View, Tenant.TrackerOf, TenantState.View;
      ViewHealth();
      var tracker := TrackerFor(node);
      assert HealthView()[node] == old(View()).TrackerOf(node);
      changed := RecordOnTracker(node, success, latencyMs, now);
    }

    method RecordResult(node: Node, success: bool, latencyMs: nat, now: Instant)
      returns (state: NodeState, changed: bool)
      requires Valid()
      modifies this, Trackers()
      ensures Valid() && fresh(Repr() - old(Repr())) && old(Repr()) <= Repr()
      ensures View() == old(View()).WithResult(node, success, latencyMs, now)
      ensures state == old(View()).StateAfter(node, success, latencyMs, now)
      ensures changed == (state != old(View()).TrackerOf(node).state)
    {
      hide RouteCache.Run, Tracker.Record, Build;
      changed := RecordHealth(node, success, latencyMs, now);
      state := HealthView()[node].state;
      if changed {
        InvalidateForNode(node);
      }
    }

    method ForceOnTracker(node: Node) returns (moved: bool)
      requires Valid() && node in health
      modifies Trackers()
      ensures Valid() && moved == old(View()).health[node].state.Open?
      ensures HealthView() == if moved then old(HealthView())[node := old(HealthView())[node].HalfOpened()]
          else old(HealthView())
    {
      hide RouteCache.Run, Build;
      moved := health[node].ForceHalfOpen();
      OneTracker(node);
      assert health[node].View() == if moved then old(HealthView())[node].HalfOpened() else old(HealthView())[node];
    }

    method ForceHalfOpen(node: Node) returns (moved: bool)
      requires Valid()
      modifies this, Trackers()
      ensures Valid() && Repr() == old(Repr())
      ensures moved == (node in old(View()).health && old(View()).health[node].state.Open?)
      ensures View() == if moved then old(View()).WithProbe(node) else old(View())
    {
      hide RouteCache.Run, Build;
      if node !in health {
        return false;
      }
      moved := ForceOnTracker(node);
      if moved {
        InvalidateForNode(node);
      }
    }

    method ProbeTracker(node: Node, cooldown: Duration, now: Instant) returns (moved: bool)
      requires Valid() && node in health
      modifies Trackers()
      ensures Valid() && moved == old(HealthView())[node].Ready(cooldown, now)
      ensures HealthView() == if moved then old(HealthView())[node := old(HealthView())[node].HalfOpened()]
          else old(HealthView())
    {
      hide RouteCache.Run, Build;
      moved := health[node].TransitionToHalfOpenIfReady(cooldown, now);
      OneTracker(node);
      assert health[node].View() == if moved then old(HealthView())[node].HalfOpened() else old(HealthView())[node];
    }

    /** The inner loop of a recovery probe: half-opens every tracker whose cooldown has passed. */
    method HalfOpenReady(cooldown: Duration, now: Instant) returns (nodes: seq<Node>)
      requires Valid()
      modifies Trackers()
      ensures Valid() && Repr() == old(Repr())
          && View() == old(View()).(health := HalfOpenNodes(old(View()).health, nodes))
      ensures forall i, j :: 0 <= i < j < |nodes| ==> nodes[i] != nodes[j]
      ensures forall node :: node in nodes <==>
          node in old(View()).health && old(View()).health[node].Ready(cooldown, now)
    {
      hide Valid, Tracker.Ready, Tracker.HalfOpened, HalfOpenNodes, HealthTracker.View;
      nodes := [];
      NoHalfOpen(HealthView());
      ghost var before := HealthView();
      var rest := health.Keys;
      while rest != {}
        invariant Valid() && rest <= health.Keys && HealthView() == HalfOpenNodes(before, nodes)
        invariant forall n :: n in rest ==> HealthView()[n] == before[n]
        invariant forall i, j :: 0 <= i < j < |nodes| ==> nodes[i] != nodes[j]
        invariant forall n :: n in nodes <==> n in before && n !in rest && before[n].Ready(cooldown, now)
        decreases rest
      {
        var node :| node in rest;
        rest := rest - {node};
        var moved := ProbeTracker(node, cooldown, now);
        if moved {
          NextHalfOpen(before, nodes, node);
          nodes := nodes + [node];
        }
      }
    }

    lemma OpenInView()
      requires Valid()
      ensures View().OpenNodes() == set n | n in health && health[n].state.Open?
    {
    }

    method BlockedNodes() returns (nodes: seq<Node>)
      requires Valid()
      ensures nodes == View().Blocked()
    {
      hide RouteCache.Run, Build, View, Sort, Listed, CompareString;
      var found: seq<Node> := [];
      var rest := health.Keys;
      while rest != {}
        invariant rest <= health.Keys
        invariant multiset(found) == multiset(set n | n in health && n !in rest && health[n].state.Open?)
        decreases rest
      {
        var node :| node in rest;
        ghost var seen := set n | n in health && n !in rest && health[n].state.Open?;
        rest := rest - {node};
        ghost var seen' := set n | n in health && n !in rest && health[n].state.Open?;
        if health[node].state.Open? {
          assert seen' == seen + {node};
          found := found + [node];
        } else {
          assert seen' == seen;
        }
      }
      OpenInView();
      StringOrder();
      SortForgetsOrder(CompareString, found, Listed(View().OpenNodes()));
      nodes := Sort(CompareString, found);
    }

    // ----- routing -----

    /** Computes a route and, when there is one, caches it. */
    method ComputeRoute(key: RouteKey) returns (route: Option<Route>)
      requires Valid()
      modifies this
      ensures Valid() && Repr() == old(Repr())
      ensures route == old(ShortestPath(View().edges, View().health, View().model, key.start, key.goal))
      ensures View() == match route case Some(r) => old(View()).WithRoute(key, r) case None => old(View())
    {
      hide RouteCache.Run, Build, ShortestPath;
      route := graph.ShortestPath(HealthView(), costModel, key.start, key.goal);
      if route.Some? {
        origins := origins[key := Origin(graph.edges, costModel, HealthView())];
        InsertCache(key, RouteCache.CachedPath(route.value.nodes, route.value.totalCost, NodeSet(route.value.nodes)));
      }
    }
  }
}
