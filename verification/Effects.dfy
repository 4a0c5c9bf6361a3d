/** What each router operation changes, field by field, and what it leaves alone. */
module Effects {
  import opened CostModel
  import opened Health
  import opened Multigraph
  import opened RouterSteps
  import opened RouterSafety
  import RouteCache

  /** Every tenant but `id` is as it was. */
  ghost predicate OthersKept(s: State, s': State, id: TenantId) {
    && s'.tenants.Keys == s.tenants.Keys + {id}
    && forall i :: i in s.tenants && i != id ==> s'.tenants[i] == s.tenants[i]
  }

  /** A new tenant has nothing; a known one stays as it is. */
  lemma AddTenantEffect(s: State, id: TenantId)
    ensures var s' := s.AddTenant(id);
            && OthersKept(s, s', id) && s'.log == s.log
            && (id in s.tenants ==> s' == s)
            && (id !in s.tenants ==>
                  var t := s'.tenants[id];
                  && t.edges == [] && t.health == map[] && t.Cache().entries == map[]
                  && t.model == DEFAULT_MODEL && t.policy == DEFAULT_POLICY)
  {
  }

  /** The edge is added, the cache emptied, and nothing else. */
  lemma AddEdgeEffect(s: State, id: TenantId, edge: Edge)
    ensures var s' := s.AddEdge(id, edge); var t := s.TenantOf(id);
            && OthersKept(s, s', id) && s'.log == s.log
            && s'.tenants[id].edges == t.edges + [edge] && s'.tenants[id].Cache().entries == map[]
            && s'.tenants[id].health == t.health && s'.tenants[id].model == t.model && s'.tenants[id].policy == t.policy
  {
    var t := s.TenantOf(id);
    DidCache(t.(edges := t.edges + [edge]), RouteCache.InvalidateAll);
  }

  /** A valid model or policy replaces the tenant's and empties its cache; an invalid one changes nothing. */
  lemma ConfigureEffect(s: State, id: TenantId, model: TenantCostModel, policy: HealthPolicy)
    ensures var s' := s.TrySetCostModel(id, model); var t := s.TenantOf(id);
            && s'.log == s.log && (!model.Valid() ==> s' == s)
            && (model.Valid() ==>
                  && OthersKept(s, s', id) && s'.tenants[id].model == model && s'.tenants[id].Cache().entries == map[]
                  && s'.tenants[id].edges == t.edges && s'.tenants[id].health == t.health
                  && s'.tenants[id].policy == t.policy)
    ensures var s' := s.TrySetHealthPolicy(id, policy); var t := s.TenantOf(id);
            && s'.log == s.log && (!policy.Valid() ==> s' == s)
            && (policy.Valid() ==>
                  && OthersKept(s, s', id) && s'.tenants[id].policy == policy && s'.tenants[id].Cache().entries == map[]
                  && s'.tenants[id].edges == t.edges && s'.tenants[id].health == t.health
                  && s'.tenants[id].model == t.model)
  {
    var t := s.TenantOf(id);
    hide TenantCostModel.Validate, HealthPolicy.Validate;
    DidCache(t.(model := model), RouteCache.InvalidateAll);
    DidCache(t.(policy := policy), RouteCache.InvalidateAll);
  }

  /** The breakers other than that of `node`, the graph, the model and the policy are as they were. */
  ghost predicate OnlyBreaker(t: Tenant, t': Tenant, node: Node) {
    && t'.edges == t.edges && t'.model == t.model && t'.policy == t.policy
    && t'.health.Keys == t.health.Keys + {node}
    && forall n :: n in t.health && n != node ==> t'.health[n] == t.health[n]
  }

  /** The cache keeps exactly the entries that do not touch `node`, or all if `kept`. */
  ghost predicate Dropped(t: Tenant, t': Tenant, node: Node, kept: bool) {
    && (forall key :: key in t'.Cache().entries <==>
          key in t.Cache().entries && (kept || node !in t.Cache().entries[key].touched))
    && forall key :: key in t'.Cache().entries ==> t'.Cache().entries[key] == t.Cache().entries[key]
  }

  /** A result moves one breaker as the breaker alone would move under the tenant's policy, drops the cached paths
      through its node exactly when its state changes, and logs the new state and whether it is new. */
  lemma RecordEffect(s: State, id: TenantId, node: Node, success: bool, latency: nat, now: Instant)
    ensures var s' := s.RecordResult(id, node, success, latency, now); var t := s.TenantOf(id);
            && OthersKept(s, s', id) && OnlyBreaker(t, s'.tenants[id], node)
            && var was, next := t.TrackerOf(node), s'.tenants[id].health[node];
            && next == Health.Apply(was, Result(success, latency, now), t.policy)
            && Dropped(t, s'.tenants[id], node, next.state == was.state)
            && s'.log == s.log + [HealthChanged(id, node, next.state, next.state != was.state)]
  {
    hide Dropped, OnlyBreaker, Tracker.Record, Tenant.WithResult;
    ResultEffect(s.TenantOf(id), node, success, latency, now);
  }

  lemma ResultEffect(t: Tenant, node: Node, success: bool, latency: nat, now: Instant)
    ensures var t' := t.WithResult(node, success, latency, now);
            && OnlyBreaker(t, t', node)
            && var was, next := t.TrackerOf(node), t'.health[node];
            && next == was.Record(success, latency, t.policy, now)
            && Dropped(t, t', node, next.state == was.state)
  {
    hide Tracker.Record, RouteCache.Run;
    var tracker := t.TrackerOf(node).Record(success, latency, t.policy, now);
    var t' := t.(health := t.health[node := tracker]);
    DidCache(t', RouteCache.InvalidateNode(node));
    assert t'.Cache() == t.Cache();
  }

  /** Half-opening a known node: its breaker moves to HalfOpen, the cached paths through it are dropped,
      and the probe is
      logged. */
  lemma ProbeEffect(s: State, id: TenantId, node: Node)
    requires id in s.tenants && node in s.tenants[id].health
    ensures var s' := s.OpenProbe(id, node); var t := s.tenants[id];
            && OthersKept(s, s', id) && OnlyBreaker(t, s'.tenants[id], node)
            && s'.tenants[id].health[node] == t.health[node].(state := HalfOpen, successes := 0)
            && Dropped(t, s'.tenants[id], node, false)
            && s'.log == s.log + [RecoveryProbeOpened(id, node)]
  {
    var t := s.tenants[id];
    var t' := t.(health := t.health[node := t.TrackerOf(node).HalfOpened()]);
    DidCache(t', RouteCache.InvalidateNode(node));
    assert t'.Cache() == t.Cache();
  }

  /** Forcing acts exactly on a known Open node. */
  lemma ForceEffect(s: State, id: TenantId, node: Node)
    ensures var s' := s.ForceHalfOpen(id, node);
            if id in s.tenants && node in s.tenants[id].health && s.tenants[id].health[node].state.Open?
            then s' == s.OpenProbe(id, node) else s' == s
  {
  }

  /** The write-lock phase logs one event and touches only the tenant's cache: a hit moves its key to the back of the
      queue, a miss that finds a route caches it under its key with the nodes on it,
          and an escalation changes nothing. */
  lemma RouteEffect(s: State, id: TenantId, start: Node, goal: Node)
    ensures var s' := s.SlowPath(id, start, goal); var key := RouteCache.RouteKey(start, goal);
            && |s'.log| == |s.log| + 1 && s.log <= s'.log && s'.tenants.Keys == s.tenants.Keys
            && (forall i :: i in s.tenants && i != id ==> s'.tenants[i] == s.tenants[i])
            && (id in s.tenants ==>
                  var t, t' := s.tenants[id], s'.tenants[id]; var decision := s.Decide(id, start, goal);
                  && t'.edges == t.edges && t'.health == t.health && t'.model == t.model && t'.policy == t.policy
                  && (decision.Escalate? ==> t' == t)
                  && (decision.Routed? ==>
                        && key in t'.Cache().entries
                        && t'.Cache().order != [] && t'.Cache().order[|t'.Cache().order| - 1] == key
                        && var cached := t'.Cache().entries[key];
                        && cached.path == decision.route.nodes && cached.weight == decision.route.totalCost
                        && (key in t.Cache().entries ==> t'.Cache().entries == t.Cache().entries)
                        && (key !in t.Cache().entries ==>
                              forall node :: node in cached.touched <==> node in decision.route.nodes)))
  {
    hide ShortestPath, RouteCache.Run, RouteCache.Without, Tenant.Blocked;
    if id in s.tenants {
      var t := s.tenants[id];
      var key := RouteCache.RouteKey(start, goal);
      DidCache(t, RouteCache.Get(key));
      var r := ShortestPath(t.edges, t.health, t.model, start, goal);
      if r.Some? {
        var marked := t.(origins := t.origins[key := Origin(t.edges, t.model, t.health)]);
        var cached := RouteCache.CachedPath(r.value.nodes, r.value.totalCost, NodeSet(r.value.nodes));
        DidCache(marked, RouteCache.Insert(key, cached));
        assert marked.Cache() == t.Cache();
      }
    }
  }
}
