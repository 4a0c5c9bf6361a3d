/** The router's shared state and what each of its operations does under the lock. */
module RouterSteps {
  import opened Prelude
  import opened CostModel
  import opened Health
  import opened Multigraph
  import RouteCache

  type TenantId = string
  type Node = string
  type RouteKey = RouteCache.RouteKey

  /** What a cached route was computed from. Kept for the proof; the program does not store it. */
  datatype Origin = Origin(edges: seq<Edge>, model: TenantCostModel, health: HealthMap) {
    ghost predicate Explains(key: RouteKey, cached: RouteCache.CachedPath) {
      && ShortestPath(edges, health, model, key.start, key.goal) == Some(Route(cached.path, cached.weight, false))
      && cached.touched == NodeSet(cached.path)
    }
  }

  function NodeSet(path: seq<Node>): set<Node> {
    set node | node in path
  }

  /** A tenant: its graph and cache are given by the operations that built them. */
  datatype Tenant = Tenant(
    edges: seq<Edge>, health: HealthMap, cacheOps: seq<RouteCache.CacheOp>,
    model: TenantCostModel, policy: HealthPolicy, origins: map<RouteKey, Origin>)
  {
    function Cache(): RouteCache.Cache {
      RouteCache.Run(cacheOps)
    }

    function Did(op: RouteCache.CacheOp): Tenant {
      this.(cacheOps := cacheOps + [op])
    }

    function WithEdge(edge: Edge): Tenant {
      this.(edges := edges + [edge]).Did(RouteCache.InvalidateAll)
    }

    function WithModel(m: TenantCostModel): Tenant {
      this.(model := m).Did(RouteCache.InvalidateAll)
    }

    function WithPolicy(p: HealthPolicy): Tenant {
      this.(policy := p).Did(RouteCache.InvalidateAll)
    }

    function TrackerOf(node: Node): Tracker {
      if node in health then health[node] else FRESH
    }

    /** The state a result would leave the node in. */
    function StateAfter(node: Node, success: bool, latency: nat, now: Instant): NodeState {
      TrackerOf(node).Record(success, latency, policy, now).state
    }

    function WithResult(node: Node, success: bool, latency: nat, now: Instant): Tenant {
      var tracker := TrackerOf(node).Record(success, latency, policy, now);
      var t := this.(health := health[node := tracker]);
      if tracker.state != TrackerOf(node).state then t.Did(RouteCache.InvalidateNode(node)) else t
    }

    function WithProbe(node: Node): Tenant {
      this.(health := health[node := TrackerOf(node).HalfOpened()]).Did(RouteCache.InvalidateNode(node))
    }

    /** `insert_cache` with a freshly computed route. */
    function WithRoute(key: RouteKey, route: Route): Tenant {
      this.(origins := origins[key := Origin(edges, model, health)])
          .Did(RouteCache.Insert(key, RouteCache.CachedPath(route.nodes, route.totalCost, NodeSet(route.nodes))))
    }

    ghost function OpenNodes(): set<Node> {
      set node | node in health && health[node].state.Open?
    }

    /** `blocked_nodes`: the Open nodes in name order. */
    ghost function Blocked(): seq<Node> {
      Sort(CompareString, Listed(OpenNodes()))
    }
  }

  const NEW_TENANT := Tenant([], map[], [], DEFAULT_MODEL, DEFAULT_POLICY, map[])

  // ----- decisions and events -----

  datatype EscalationReason = NoFeasiblePath | TenantNotFound

  datatype EscalationContext = EscalationContext(
    tenant: TenantId, start: Node, goal: Node, reason: EscalationReason, blocked: seq<Node>)

  datatype RouteDecision = Routed(route: Route) | Escalate(context: EscalationContext)

  datatype AuditEvent =
    | Reroute(tenant: TenantId, start: Node, goal: Node, path: seq<Node>, totalCost: real, cacheHit: bool)
    | ExplicitEscalation(context: EscalationContext)
    | HealthChanged(tenant: TenantId, node: Node, state: NodeState, stateChanged: bool)
    | RecoveryProbeOpened(tenant: TenantId, node: Node)

  /** The event `route` logs for a decision. */
  function EventFor(tenant: TenantId, start: Node, goal: Node, decision: RouteDecision): AuditEvent {
    match decision
    case Routed(route) => Reroute(tenant, start, goal, route.nodes, route.totalCost, route.cacheHit)
    case Escalate(context) => ExplicitEscalation(context)
  }

  // ----- the shared state -----

  /** All tenants, and every audit event ever pushed. */
  datatype State = State(tenants: map<TenantId, Tenant>, log: seq<AuditEvent>) {

    /** `entry(id).or_default()` */
    function TenantOf(id: TenantId): Tenant {
      if id in tenants then tenants[id] else NEW_TENANT
    }

    function Put(id: TenantId, t: Tenant): State {
      this.(tenants := tenants[id := t])
    }

    function Push(event: AuditEvent): State {
      this.(log := log + [event])
    }

    function AddTenant(id: TenantId): State {
      Put(id, TenantOf(id))
    }

    function TrySetCostModel(id: TenantId, model: TenantCostModel): State {
      if model.Valid() then Put(id, TenantOf(id).WithModel(model)) else this
    }

    function TrySetHealthPolicy(id: TenantId, policy: HealthPolicy): State {
      if policy.Valid() then Put(id, TenantOf(id).WithPolicy(policy)) else this
    }

    function AddEdge(id: TenantId, edge: Edge): State {
      Put(id, TenantOf(id).WithEdge(edge))
    }

    function RecordResult(id: TenantId, node: Node, success: bool, latency: nat, now: Instant): State {
      var t := TenantOf(id);
      var state := t.StateAfter(node, success, latency, now);
      Put(id, t.WithResult(node, success, latency, now))
      .Push(HealthChanged(id, node, state, state != t.TrackerOf(node).state))
    }

    predicate CanForce(id: TenantId, node: Node) {
      id in tenants && node in tenants[id].health && tenants[id].health[node].state.Open?
    }

    /** One node leaves Open for HalfOpen, by force or by a probe. */
    function OpenProbe(id: TenantId, node: Node): State
      requires id in tenants
    {
      Put(id, tenants[id].WithProbe(node)).Push(RecoveryProbeOpened(id, node))
    }

    function ForceHalfOpen(id: TenantId, node: Node): State {
      if CanForce(id, node) then OpenProbe(id, node) else this
    }

    predicate Ready(id: TenantId, node: Node, cooldown: Duration, now: Instant) {
      id in tenants && node in tenants[id].health && tenants[id].health[node].Ready(cooldown, now)
    }

    /** `probed` lists every node whose cooldown has passed, once, in some order. */
    ghost predicate ProbeList(cooldown: Duration, now: Instant, probed: seq<(TenantId, Node)>) {
      && (forall i, j :: 0 <= i < j < |probed| ==> probed[i] != probed[j])
      && (forall id, node :: (id, node) in probed <==> Ready(id, node, cooldown, now))
    }

    function Cached(id: TenantId, key: RouteKey): Option<Route> {
      if id in tenants && key in tenants[id].Cache().entries then
        var c := tenants[id].Cache().entries[key];
        Some(Route(c.path, c.weight, true))
      else None
    }

    /** The read-lock phase of `route`, when it answers. */
    function FastPath(id: TenantId, start: Node, goal: Node): Option<RouteDecision> {
      match Cached(id, RouteCache.RouteKey(start, goal))
      case Some(route) => Some(Routed(route))
      case None => None
    }

    /** The write-lock phase: its decision, before the event is pushed. */
    ghost function Decide(id: TenantId, start: Node, goal: Node): RouteDecision {
      if id !in tenants then Escalate(EscalationContext(id, start, goal, TenantNotFound, []))
      else
        match Cached(id, RouteCache.RouteKey(start, goal))
        case Some(route) => Routed(route)
        case None =>
          match ShortestPath(tenants[id].edges, tenants[id].health, tenants[id].model, start, goal)
          case Some(route) => Routed(route)
          case None => Escalate(EscalationContext(id, start, goal, NoFeasiblePath, tenants[id].Blocked()))
    }

    /** What the write-lock phase does to the tenant. */
    ghost function Settle(id: TenantId, start: Node, goal: Node): State {
      var key := RouteCache.RouteKey(start, goal);
      if id !in tenants then this
      else if key in tenants[id].Cache().entries then Put(id, tenants[id].Did(RouteCache.Get(key)))
      else
        match ShortestPath(tenants[id].edges, tenants[id].health, tenants[id].model, start, goal)
        case Some(route) => Put(id, tenants[id].WithRoute(key, route))
        case None => this
    }

    ghost function SlowPath(id: TenantId, start: Node, goal: Node): State {
      Settle(id, start, goal).Push(EventFor(id, start, goal, Decide(id, start, goal)))
    }
  }

  /** Probes open one node after another; each step sees the tenants the previous one left. */
  function OpenAll(s: State, probed: seq<(TenantId, Node)>): State {
    if probed == [] then s
    else
      var before := OpenAll(s, probed[..|probed| - 1]);
      var (id, node) := probed[|probed| - 1];
      if id in before.tenants then before.OpenProbe(id, node) else before
  }

  const INITIAL := State(map[], [])
}
