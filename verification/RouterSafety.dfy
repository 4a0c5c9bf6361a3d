/** The router under concurrency: every lock phase is one atomic step, and calls to `route` take two. */
module RouterSafety {
  import opened Prelude
  import opened CostModel
  import opened Health
  import opened Multigraph
  import opened RouterSteps
  import RouteCache

  // ----- what a cache entry still guarantees -----

  /** The entry answers its key optimally for the health map at insertion; since then neither the graph,
      the cost model, nor the state of a node on the path has changed. */
  ghost predicate EntryOk(t: Tenant, key: RouteKey, cached: RouteCache.CachedPath) {
    key in t.origins &&
    var o := t.origins[key];
    && o.edges == t.edges && o.model == t.model
    && o.Explains(key, cached)
    && forall node :: node in cached.touched ==> StateOf(t.health, node) == StateOf(o.health, node)
  }

  ghost predicate TenantOk(t: Tenant) {
    forall key :: key in t.Cache().entries ==> EntryOk(t, key, t.Cache().entries[key])
  }

  lemma DidCache(t: Tenant, op: RouteCache.CacheOp)
    ensures t.Did(op).Cache() == RouteCache.Apply(t.Cache(), op)
  {
    assert (t.cacheOps + [op])[..|t.cacheOps|] == t.cacheOps;
  }

  lemma DroppedOk(t: Tenant)
    ensures TenantOk(t.Did(RouteCache.InvalidateAll))
  {
    DidCache(t, RouteCache.InvalidateAll);
  }

  /** What still holds of an entry when the breakers change but no state on its path does. */
  lemma EntryCarries(t: Tenant, t': Tenant, key: RouteKey, cached: RouteCache.CachedPath)
    requires EntryOk(t, key, cached)
    requires t'.edges == t.edges && t'.model == t.model && t'.origins == t.origins
    requires forall node :: node in cached.touched ==> StateOf(t'.health, node) == StateOf(t.health, node)
    ensures EntryOk(t', key, cached)
  {
  }

  /** A change at one node is harmless once the paths through it are gone. */
  lemma ChangeAndInvalidateOk(t: Tenant, node: Node, tracker: Tracker)
    requires TenantOk(t)
    ensures TenantOk(t.(health := t.health[node := tracker]).Did(RouteCache.InvalidateNode(node)))
  {
    var t' := t.(health := t.health[node := tracker]);
    var t'' := t'.Did(RouteCache.InvalidateNode(node));
    DidCache(t', RouteCache.InvalidateNode(node));
    assert t'.Cache() == t.Cache();
    hide EntryOk;
    forall key | key in t''.Cache().entries ensures EntryOk(t'', key, t''.Cache().entries[key]) {
      EntryCarries(t, t'', key, t.Cache().entries[key]);
    }
  }

  /** So is a change that keeps the node's state. */
  lemma SameStateOk(t: Tenant, node: Node, tracker: Tracker)
    requires TenantOk(t) && tracker.state == StateOf(t.health, node)
    ensures TenantOk(t.(health := t.health[node := tracker]))
  {
    var t' := t.(health := t.health[node := tracker]);
    assert t'.Cache() == t.Cache();
    hide EntryOk;
    forall key | key in t'.Cache().entries ensures EntryOk(t', key, t'.Cache().entries[key]) {
      EntryCarries(t, t', key, t.Cache().entries[key]);
    }
  }

  lemma TouchOk(t: Tenant, key: RouteKey)
    requires TenantOk(t)
    ensures TenantOk(t.Did(RouteCache.Get(key)))
  {
    hide Origin.Explains;
    DidCache(t, RouteCache.Get(key));
  }

  lemma InsertOk(t: Tenant, key: RouteKey, route: Route)
    requires TenantOk(t) && key !in t.Cache().entries
    requires ShortestPath(t.edges, t.health, t.model, key.start, key.goal) == Some(route) && !route.cacheHit
    ensures TenantOk(t.WithRoute(key, route))
  {
    var cached := RouteCache.CachedPath(route.nodes, route.totalCost, NodeSet(route.nodes));
    var t' := t.(origins := t.origins[key := Origin(t.edges, t.model, t.health)]);
    assert Origin(t.edges, t.model, t.health).Explains(key, cached);
    hide Origin.Explains;
    DidCache(t', RouteCache.Insert(key, cached));
    assert t.Cache() == t'.Cache();
    forall k | k in t.WithRoute(key, route).Cache().entries
      ensures EntryOk(t.WithRoute(key, route), k, t.WithRoute(key, route).Cache().entries[k])
    {
      if k != key {
        assert EntryOk(t, k, t.Cache().entries[k]);
      }
    }
  }

  // ----- what the log says about health -----

  /** The state of a breaker according to the latest event about it. */
  function LatestHealth(log: seq<AuditEvent>, id: TenantId, node: Node): Option<NodeState> {
    if log == [] then None
    else
      match log[|log| - 1]
      case HealthChanged(i, n, state, _) =>
        if i == id && n == node then Some(state) else LatestHealth(log[..|log| - 1], id, node)
      case RecoveryProbeOpened(i, n) =>
        if i == id && n == node then Some(HalfOpen) else LatestHealth(log[..|log| - 1], id, node)
      case _ => LatestHealth(log[..|log| - 1], id, node)
  }

  function Known(s: State, id: TenantId, node: Node): Option<NodeState> {
    if id in s.tenants && node in s.tenants[id].health then Some(s.tenants[id].health[node].state) else None
  }

  /** The log never lags behind the breakers. */
  ghost predicate HealthLogged(s: State) {
    forall id, node {:trigger LatestHealth(s.log, id, node)} :: LatestHealth(s.log, id, node) == Known(s, id, node)
  }

  ghost predicate AvoidsOpen(log: seq<AuditEvent>, id: TenantId, path: seq<Node>) {
    forall k :: 1 <= k < |path| ==> LatestHealth(log, id, path[k]) != Some(Open)
  }

  /** No reroute visits, after its first node, one that the log up to there calls Open. */
  ghost predicate RerouteSafe(log: seq<AuditEvent>) {
    forall i :: 0 <= i < |log| && log[i].Reroute? ==> AvoidsOpen(log[..i], log[i].tenant, log[i].path)
  }

  lemma PushSafe(log: seq<AuditEvent>, event: AuditEvent)
    requires RerouteSafe(log) && (event.Reroute? ==> AvoidsOpen(log, event.tenant, event.path))
    ensures RerouteSafe(log + [event])
  {
    var log' := log + [event];
    forall i | 0 <= i < |log'| && log'[i].Reroute? ensures AvoidsOpen(log'[..i], log'[i].tenant, log'[i].path) {
      assert log'[..i] == log[..i];
      assert i < |log| ==> log'[i] == log[i];
      assert i == |log| ==> log[..i] == log;
    }
  }

  ghost predicate Sound(s: State) {
    && (forall id :: id in s.tenants ==> TenantOk(s.tenants[id]))
    && HealthLogged(s)
    && RerouteSafe(s.log)
  }

  /** Replacing a tenant by an equally healthy one that keeps its cache promise. */
  lemma PutOk(s: State, id: TenantId, t: Tenant)
    requires Sound(s) && TenantOk(t) && t.health == s.TenantOf(id).health
    ensures Sound(s.Put(id, t))
  {
    hide TenantOk, RerouteSafe;
    var s' := s.Put(id, t);
    forall i, node ensures Known(s', i, node) == Known(s, i, node) {
    }
    assert HealthLogged(s') by {
      forall i, node ensures LatestHealth(s'.log, i, node) == Known(s', i, node) {
        assert LatestHealth(s.log, i, node) == Known(s, i, node);
      }
    }
  }

  /** Changing one breaker and logging its new state. */
  lemma HealthPushOk(s: State, id: TenantId, node: Node, t: Tenant, event: AuditEvent)
    requires Sound(s) && TenantOk(t) && node in t.health && t.health == s.TenantOf(id).health[node := t.health[node]]
    requires (event == RecoveryProbeOpened(id, node) && t.health[node].state.HalfOpen?)
             || (event.HealthChanged? && event.tenant == id && event.node == node
                 && event.state == t.health[node].state)
    ensures Sound(s.Put(id, t).Push(event))
  {
    hide TenantOk, RerouteSafe;
    var s' := s.Put(id, t).Push(event);
    PushSafe(s.log, event);
    assert s'.log[..|s.log|] == s.log;
    forall i, n ensures LatestHealth(s'.log, i, n) == Known(s', i, n) {
      assert LatestHealth(s.log, i, n) == Known(s, i, n);
    }
  }

  lemma QuietPushOk(s: State, event: AuditEvent)
    requires Sound(s) && (event.Reroute? || event.ExplicitEscalation?)
    requires event.Reroute? ==> AvoidsOpen(s.log, event.tenant, event.path)
    ensures Sound(s.Push(event))
  {
    hide TenantOk;
    var s' := s.Push(event);
    PushSafe(s.log, event);
    hide RerouteSafe;
    assert s'.log[..|s.log|] == s.log;
    forall i, n ensures LatestHealth(s'.log, i, n) == Known(s', i, n) {
      assert LatestHealth(s.log, i, n) == Known(s, i, n);
    }
  }

  // ----- every operation keeps the promise -----

  lemma NewTenantOk()
    ensures TenantOk(NEW_TENANT)
  {
  }

  lemma AdminOk(s: State, id: TenantId, edge: Edge, model: TenantCostModel, policy: HealthPolicy)
    requires Sound(s)
    ensures Sound(s.AddTenant(id)) && Sound(s.AddEdge(id, edge))
    ensures Sound(s.TrySetCostModel(id, model)) && Sound(s.TrySetHealthPolicy(id, policy))
  {
    hide Sound, TenantOk;
    var t := s.TenantOf(id);
    TenantOfOk(s, id);
    DroppedOk(t.(edges := t.edges + [edge]));
    DroppedOk(t.(model := model));
    DroppedOk(t.(policy := policy));
    PutOk(s, id, t);
    PutOk(s, id, t.WithEdge(edge));
    PutOk(s, id, t.WithModel(model));
    PutOk(s, id, t.WithPolicy(policy));
  }

  lemma TenantOfOk(s: State, id: TenantId)
    requires Sound(s)
    ensures TenantOk(s.TenantOf(id))
  {
    NewTenantOk();
  }

  lemma RecordOk(s: State, id: TenantId, node: Node, success: bool, latency: nat, now: Instant)
    requires Sound(s)
    ensures Sound(s.RecordResult(id, node, success, latency, now))
  {
    hide Sound, TenantOk, Tracker.Record;
    var t := s.TenantOf(id);
    TenantOfOk(s, id);
    var tracker := t.TrackerOf(node).Record(success, latency, t.policy, now);
    if tracker.state == t.TrackerOf(node).state {
      SameStateOk(t, node, tracker);
    } else {
      ChangeAndInvalidateOk(t, node, tracker);
    }
    var t' := t.WithResult(node, success, latency, now);
    HealthPushOk(s, id, node, t', HealthChanged(id, node, tracker.state, tracker.state != t.TrackerOf(node).state));
  }

  lemma ProbeOk(s: State, id: TenantId, node: Node)
    requires Sound(s) && id in s.tenants
    ensures Sound(s.OpenProbe(id, node))
  {
    hide Sound, TenantOk;
    var t := s.tenants[id];
    TenantOfOk(s, id);
    ChangeAndInvalidateOk(t, node, t.TrackerOf(node).HalfOpened());
    HealthPushOk(s, id, node, t.WithProbe(node), RecoveryProbeOpened(id, node));
  }

  lemma {:induction false} ProbesOk(s: State, probed: seq<(TenantId, Node)>)
    requires Sound(s)
    ensures Sound(OpenAll(s, probed))
  {
    hide Sound;
    if probed != [] {
      ProbesOk(s, probed[..|probed| - 1]);
      var before := OpenAll(s, probed[..|probed| - 1]);
      var (id, node) := probed[|probed| - 1];
      if id in before.tenants {
        ProbeOk(before, id, node);
      }
    }
  }

  /** A cached path is still a walk, and none of its nodes after the start is Open now. */
  lemma EntryAvoidsOpen(t: Tenant, key: RouteKey, cached: RouteCache.CachedPath)
    requires EntryOk(t, key, cached)
    ensures forall k :: 1 <= k < |cached.path| ==> !StateOf(t.health, cached.path[k]).Open?
  {
    hide ShortestPath;
    var o := t.origins[key];
    ShortestPathCorrect(o.edges, o.health, o.model, key.start, key.goal);
    forall k | 1 <= k < |cached.path| ensures !StateOf(t.health, cached.path[k]).Open? {
      assert cached.path[k] in cached.touched;
    }
  }

  lemma DecisionAvoidsOpen(s: State, id: TenantId, start: Node, goal: Node)
    requires Sound(s) && s.Decide(id, start, goal).Routed?
    ensures AvoidsOpen(s.log, id, s.Decide(id, start, goal).route.nodes)
  {
    hide RerouteSafe, LatestHealth, ShortestPath;
    var t := s.tenants[id];
    var key := RouteCache.RouteKey(start, goal);
    var nodes := s.Decide(id, start, goal).route.nodes;
    if key in t.Cache().entries {
      EntryAvoidsOpen(t, key, t.Cache().entries[key]);
    } else {
      ShortestPathCorrect(t.edges, t.health, t.model, start, goal);
    }
    forall k | 1 <= k < |nodes| ensures LatestHealth(s.log, id, nodes[k]) != Some(Open) {
      assert LatestHealth(s.log, id, nodes[k]) == Known(s, id, nodes[k]);
    }
  }

  lemma FastOk(s: State, id: TenantId, start: Node, goal: Node)
    requires Sound(s) && s.FastPath(id, start, goal).Some?
    ensures Sound(s.Push(EventFor(id, start, goal, s.FastPath(id, start, goal).value)))
  {
    hide Sound;
    DecisionAvoidsOpen(s, id, start, goal);
    QuietPushOk(s, EventFor(id, start, goal, s.FastPath(id, start, goal).value));
  }

  lemma SettleOk(s: State, id: TenantId, start: Node, goal: Node)
    requires Sound(s)
    ensures Sound(s.Settle(id, start, goal))
  {
    hide Sound, TenantOk, ShortestPath;
    var key := RouteCache.RouteKey(start, goal);
    if id in s.tenants {
      var t := s.tenants[id];
      TenantOfOk(s, id);
      if key in t.Cache().entries {
        TouchOk(t, key);
        PutOk(s, id, t.Did(RouteCache.Get(key)));
      } else {
        var r := ShortestPath(t.edges, t.health, t.model, start, goal);
        if r.Some? {
          ShortestPathCorrect(t.edges, t.health, t.model, start, goal);
          InsertOk(t, key, r.value);
          PutOk(s, id, t.WithRoute(key, r.value));
        }
      }
    }
  }

  lemma SlowOk(s: State, id: TenantId, start: Node, goal: Node)
    requires Sound(s)
    ensures Sound(s.SlowPath(id, start, goal))
  {
    hide Sound, State.Settle, State.Decide;
    SettleOk(s, id, start, goal);
    SettleKeepsLog(s, id, start, goal);
    if s.Decide(id, start, goal).Routed? {
      DecisionAvoidsOpen(s, id, start, goal);
    }
    QuietPushOk(s.Settle(id, start, goal), EventFor(id, start, goal, s.Decide(id, start, goal)));
  }

  /** A hit under the read lock does not count as a use: the entry just returned is gone after the next miss
      exactly when the cache is full and the entry is the oldest by insertion or write-lock hit. */
  lemma ReadHitSurvivesIff(s: State, id: TenantId, hit: RouteKey, miss: RouteKey)
    requires id in s.tenants && hit in s.tenants[id].Cache().entries && miss !in s.tenants[id].Cache().entries
    requires ShortestPath(s.tenants[id].edges, s.tenants[id].health, s.tenants[id].model, miss.start, miss.goal).Some?
    ensures s.FastPath(id, hit.start, hit.goal).Some?
    ensures var c := s.tenants[id].Cache();
            var read := s.Push(EventFor(id, hit.start, hit.goal, s.FastPath(id, hit.start, hit.goal).value));
            var later := read.SlowPath(id, miss.start, miss.goal);
            c.order != [] && id in later.tenants
            && (hit in later.tenants[id].Cache().entries <==> |c.entries| < RouteCache.LIMIT || c.order[0] != hit)
  {
    var t := s.tenants[id];
    RouteCache.QueueByRecency(t.cacheOps);
    var route := ShortestPath(t.edges, t.health, t.model, miss.start, miss.goal).value;
    var inserted := t.(origins := t.origins[miss := Origin(t.edges, t.model, t.health)]);
    assert inserted.Cache() == t.Cache();
    DidCache(inserted, RouteCache.Insert(miss,
        RouteCache.CachedPath(route.nodes, route.totalCost, NodeSet(route.nodes))));
  }

  lemma SettleKeepsLog(s: State, id: TenantId, start: Node, goal: Node)
    ensures s.Settle(id, start, goal).log == s.log
  {
  }
}
