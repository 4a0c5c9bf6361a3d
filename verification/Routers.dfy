/** `Router` as an object: each method is one critical section, proved against the step it performs. */
module Routers {
  import opened Prelude
  import opened CostModel
  import opened Health
  import opened Multigraph
  import opened RouterSteps
  import opened Tenants
  import Graphs
  import opened RecoveryProbe
  import RouteCache

  class Router {
    var tenants: map<TenantId, TenantState>
    const audit: AuditPipeline

    ghost function TenantObjects(): set<object>
      reads this
    {
      set id | id in tenants :: tenants[id]
    }

    ghost function Repr(): set<object>
      reads this, TenantObjects()
    {
      {this, audit} + set id, o | id in tenants && o in tenants[id].Repr() :: o
    }

    ghost predicate TenantsApart()
      reads this, TenantObjects()
    {
      && (forall id :: id in tenants ==> this !in tenants[id].Repr() && audit !in tenants[id].Repr())
      && (forall i, j :: i in tenants && j in tenants && i != j ==> tenants[i].Repr() !! tenants[j].Repr())
    }

    ghost predicate Valid()
      reads this, TenantObjects(), Repr()
    {
      && audit.Valid()
      && TenantsApart()
      && forall id :: id in tenants ==> tenants[id].Valid()
    }

    ghost function View(): State
      reads this, TenantObjects(), Repr()
    {
      State(map id | id in tenants :: tenants[id].View(), audit.history)
    }

    constructor ()
      ensures Valid() && fresh(Repr()) && View() == INITIAL && audit.capacity == 10_000
    {
      tenants := map[];
      audit := new AuditPipeline(AUDIT_EVENT_MEMORY_LIMIT);
    }

    /** A tenant whose objects were left alone. */
    twostate lemma Untouched(i: TenantId)
      requires old(Valid()) && i in old(tenants) && i in tenants && tenants[i] == old(tenants[i])
      requires unchanged(old(tenants[i].Repr()))
      ensures tenants[i].Repr() == old(tenants[i].Repr()) && tenants[i].Valid()
          && tenants[i].View() == old(tenants[i].View())
      ensures forall o :: o in tenants[i].Repr() ==> old(allocated(o))
    {
      assert tenants[i] in old(tenants[i].Repr());
    }

    /** Only tenant `id` changed, or is new: its objects are its old ones and fresh ones. */
    twostate predicate OnlyTenant(id: TenantId)
      reads *
    {
      && id in tenants && tenants.Keys == old(tenants).Keys + {id}
      && (forall i :: i in old(tenants) && i != id ==> Kept(i))
      && (forall o :: o in tenants[id].Repr() ==>
            (id in old(tenants) && o in old(tenants[id].Repr())) || !old(allocated(o)))
      && unchanged(audit)
    }

    twostate predicate Kept(i: TenantId)
      requires i in old(tenants) && i in tenants
      reads *
    {
      tenants[i] == old(tenants[i]) && unchanged(old(tenants[i].Repr()))
    }

    twostate lemma OneTenantApart(id: TenantId)
      requires old(Valid()) && OnlyTenant(id)
      ensures TenantsApart()
    {
      hide TenantState.Valid, TenantState.View, TenantState.Repr;
      forall i | i in tenants && i != id
        ensures tenants[i].Repr() == old(tenants[i].Repr()) && tenants[i].Repr() !! tenants[id].Repr()
      {
        Untouched(i);
      }
    }

    /** Whatever happens inside one tenant's objects leaves the other tenants as they were. */
    twostate lemma OneTenant(id: TenantId)
      requires old(Valid()) && OnlyTenant(id) && tenants[id].Valid()
      ensures Valid() && View() == old(View()).Put(id, tenants[id].View())
    {
      hide TenantState.Valid, TenantState.View, TenantState.Repr, TenantsApart;
      OneTenantApart(id);
      forall i | i in tenants && i != id ensures tenants[i].Valid() && tenants[i].View() == old(tenants[i].View()) {
        Untouched(i);
      }
    }

    twostate lemma SameRepr(id: TenantId)
      requires old(Valid()) && OnlyTenant(id) && tenants == old(tenants)
          && tenants[id].Repr() == old(tenants[id].Repr())
      ensures Repr() == old(Repr())
    {
      hide TenantState.Valid, TenantState.View, TenantState.Repr, TenantsApart;
      forall i | i in tenants && i != id ensures tenants[i].Repr() == old(tenants[i].Repr()) {
        Untouched(i);
      }
    }

    /** Adds a tenant object that shares nothing with the others. */
    method Register(id: TenantId, tenant: TenantState)
      requires Valid() && id !in tenants && tenant.Valid() && this !in tenant.Repr() && audit !in tenant.Repr()
      requires forall i :: i in tenants ==> tenants[i].Repr() !! tenant.Repr()
      modifies this`tenants
      ensures Valid() && tenants == old(tenants)[id := tenant] && tenant.Repr() == old(tenant.Repr())
      ensures View() == old(View()).Put(id, old(tenant.View())) && tenant.View() == old(tenant.View())
    {
      hide TenantState.Valid, TenantState.View, TenantState.Repr;
      tenants := tenants[id := tenant];
    }

    /** Allocating an object changes nothing here. */
    twostate lemma KeepsView()
      requires old(Valid()) && unchanged(this) && unchanged(audit)
      requires forall i :: i in old(tenants) ==> unchanged(old(tenants[i].Repr()))
      ensures Valid() && View() == old(View())
      ensures forall i, o :: i in tenants && o in tenants[i].Repr() ==> old(allocated(o))
    {
      hide TenantState.Valid, TenantState.View, TenantState.Repr;
      forall i | i in tenants
        ensures tenants[i].Repr() == old(tenants[i].Repr()) && tenants[i].Valid()
            && tenants[i].View() == old(tenants[i].View())
        ensures forall o :: o in tenants[i].Repr() ==> old(allocated(o))
      {
        Untouched(i);
      }
    }

    method NewTenant() returns (tenant: TenantState)
      requires Valid()
      ensures Valid() && View() == old(View()) && tenant.Valid() && tenant.View() == NEW_TENANT && fresh(tenant.Repr())
      ensures forall i :: i in tenants ==> tenants[i].Repr() !! tenant.Repr()
    {
      hide TenantState.Valid, TenantState.View, TenantsApart;
      tenant := new TenantState();
      assert forall i :: i in tenants ==> unchanged(old(tenants[i].Repr()));
      hide TenantState.Repr;
      KeepsView();
    }

    method AddFresh(id: TenantId) returns (tenant: TenantState)
      requires Valid() && id !in tenants
      modifies this`tenants
      ensures Valid() && fresh(tenant.Repr()) && tenants == old(tenants)[id := tenant]
      ensures View() == old(View()).Put(id, NEW_TENANT) && tenant.View() == NEW_TENANT
    {
      hide TenantState.Valid, TenantState.View, TenantState.Repr, TenantsApart;
      tenant := NewTenant();
      Register(id, tenant);
    }

    lemma PutSame(id: TenantId)
      requires Valid() && id in tenants
      ensures View() == View().Put(id, tenants[id].View())
    {
      hide TenantState.Valid, TenantState.View, TenantState.Repr, TenantsApart;
    }

    /** `tenants.entry(id).or_default()` */
    method TenantFor(id: TenantId) returns (tenant: TenantState)
      requires Valid()
      modifies this`tenants
      ensures Valid() && id in tenants && tenant == tenants[id]
      ensures forall o :: o in tenant.Repr() ==> o in old(Repr()) || fresh(o)
      ensures View() == old(View()).Put(id, tenant.View()) && tenant.View() == old(View()).TenantOf(id)
    {
      hide TenantState.Valid, TenantState.View, TenantState.Repr, TenantsApart;
      if id in tenants {
        tenant := tenants[id];
        PutSame(id);
      } else {
        tenant := AddFresh(id);
      }
    }

    // ----- audit -----

    method PushEvent(event: AuditEvent)
      requires Valid()
      modifies audit
      ensures Valid() && View() == old(View()).Push(event) && Repr() == old(Repr())
    {
      hide TenantState.Valid, TenantState.View;
      audit.Push(event);
      forall i | i in tenants
        ensures tenants[i].Repr() == old(tenants[i].Repr()) && tenants[i].Valid()
        && tenants[i].View() == old(tenants[i].View())
      {
        Untouched(i);
      }
      assert forall i :: i in tenants ==> tenants[i].Repr() == old(tenants[i].Repr());
    }

    // ----- administration -----

    method AddTenant(id: TenantId)
      requires Valid()
      modifies this`tenants
      ensures Valid() && View() == old(View()).AddTenant(id)
    {
      var _ := TenantFor(id);
    }

    method SetModelOf(id: TenantId, model: TenantCostModel)
      requires Valid() && id in tenants
      modifies tenants[id].Repr()
      ensures Valid() && View() == old(View()).Put(id, old(tenants[id].View()).WithModel(model))
    {
      hide TenantState.Valid, TenantState.View;
      tenants[id].SetCostModel(model);
      OneTenant(id);
    }

    method TrySetCostModel(id: TenantId, model: TenantCostModel) returns (error: Option<RouterError>)
      requires Valid()
      modifies Repr()
      ensures Valid() && View() == old(View()).TrySetCostModel(id, model) && error == model.Validate()
    {
      hide TenantState.Valid, TenantState.View, TenantsApart, TenantState.Repr, Tenant.WithModel;
      error := model.Validate();
      if error.None? {
        var tenant := TenantFor(id);
        SetModelOf(id, model);
      }
    }

    method SetPolicyOf(id: TenantId, policy: HealthPolicy)
      requires Valid() && id in tenants
      modifies tenants[id].Repr()
      ensures Valid() && View() == old(View()).Put(id, old(tenants[id].View()).WithPolicy(policy))
    {
      hide TenantState.Valid, TenantState.View;
      tenants[id].SetHealthPolicy(policy);
      OneTenant(id);
    }

    method TrySetHealthPolicy(id: TenantId, policy: HealthPolicy) returns (error: Option<RouterError>)
      requires Valid()
      modifies Repr()
      ensures Valid() && View() == old(View()).TrySetHealthPolicy(id, policy) && error == policy.Validate()
    {
      hide TenantState.Valid, TenantState.View, TenantsApart, TenantState.Repr, Tenant.WithPolicy;
      error := policy.Validate();
      if error.None? {
        var tenant := TenantFor(id);
        SetPolicyOf(id, policy);
      }
    }

    method AddEdgeOf(id: TenantId, edge: Edge)
      requires Valid() && id in tenants
      modifies tenants[id].Repr()
      ensures Valid() && View() == old(View()).Put(id, old(tenants[id].View()).WithEdge(edge))
    {
      hide TenantState.Valid, TenantState.View;
      tenants[id].AddEdge(edge);
      OneTenant(id);
    }

    method AddEdge(id: TenantId, edge: Edge)
      requires Valid()
      modifies Repr()
      ensures Valid() && View() == old(View()).AddEdge(id, edge)
    {
      hide TenantState.Valid, TenantState.View, TenantsApart, TenantState.Repr, Tenant.WithEdge;
      var tenant := TenantFor(id);
      AddEdgeOf(id, edge);
    }

    // ----- health -----

    method RecordOf(id: TenantId, node: Node, success: bool, latencyMs: nat, now: Instant)
      returns (state: NodeState, changed: bool)
      requires Valid() && id in tenants
      modifies tenants[id].Repr()
      ensures var t := old(tenants[id].View());
              Valid() && View() == old(View()).Put(id, t.WithResult(node, success, latencyMs, now)) &&
              state == t.StateAfter(node, success, latencyMs, now) && changed == (state != t.TrackerOf(node).state)
    {
      hide TenantState.Valid, TenantState.View, Tenant.WithResult, Tenant.StateAfter, Tenant.TrackerOf, State.Put;
      state, changed := tenants[id].RecordResult(node, success, latencyMs, now);
      OneTenant(id);
    }

    method RecordResult(id: TenantId, node: Node, success: bool, latencyMs: nat, now: Instant)
      requires Valid()
      modifies Repr()
      ensures Valid() && View() == old(View()).RecordResult(id, node, success, latencyMs, now)
    {
      hide TenantState.Valid, TenantState.View, TenantsApart, TenantState.Repr, Tenant.WithResult, Tenant.StateAfter,
          State.Put;
      var tenant := TenantFor(id);
      var state, changed := RecordOf(id, node, success, latencyMs, now);
      PutTwice(old(View()), id, old(View()).TenantOf(id),
          old(View()).TenantOf(id).WithResult(node, success, latencyMs, now));
      PushEvent(HealthChanged(id, node, state, changed));
    }

    method ForceOf(id: TenantId, node: Node) returns (moved: bool)
      requires Valid() && id in tenants
      modifies tenants[id].Repr()
      ensures Valid() && moved == old(View()).CanForce(id, node)
      ensures View() == old(View()).Put(id, if moved then old(tenants[id].View()).WithProbe(node)
          else old(tenants[id].View()))
    {
      hide TenantState.Valid, TenantState.View;
      moved := tenants[id].ForceHalfOpen(node);
      OneTenant(id);
    }

    method ForceHalfOpen(id: TenantId, node: Node) returns (moved: bool)
      requires Valid()
      modifies Repr()
      ensures Valid() && moved == old(View()).CanForce(id, node)
      ensures View() == old(View()).ForceHalfOpen(id, node)
    {
      hide TenantState.Valid, TenantState.View, TenantsApart, TenantState.Repr, Tenant.WithProbe;
      if id !in tenants {
        return false;
      }
      PutSame(id);
      moved := ForceOf(id, node);
      if moved {
        PushEvent(RecoveryProbeOpened(id, node));
      }
    }

    // ----- routing -----

    /** The read-lock phase: answers a cache hit and logs it, changing nothing else. */
    method RouteUnderReadLock(id: TenantId, start: Node, goal: Node) returns (decision: Option<RouteDecision>)
      requires Valid()
      modifies audit
      ensures Valid() && Repr() == old(Repr()) && decision == old(View()).FastPath(id, start, goal)
      ensures View() == match decision
                        case Some(d) => old(View()).Push(EventFor(id, start, goal, d))
                        case None => old(View())
      ensures View().tenants == old(View()).tenants
      ensures decision.Some? ==>
                decision.value.Routed? &&
                (var route := decision.value.route;
                 View().log == old(View()).log + [Reroute(id, start, goal, route.nodes, route.totalCost, true)])
    {
      hide TenantsApart, RouteCache.Run, Graphs.ToolGraph.Valid;
      var key := RouteCache.RouteKey(start, goal);
      if id in tenants && key in tenants[id].cache {
        var cached := tenants[id].cache[key];
        var route := Route(cached.path, cached.weight, true);
        assert tenants[id].Valid();
        hide TenantState.Valid;
        PushEvent(Reroute(id, start, goal, route.nodes, route.totalCost, true));
        return Some(Routed(route));
      }
      assert id in tenants ==> tenants[id].Valid();
      return None;
    }

    /** A valid tenant's cache fields are its cache value. */
    lemma CacheIsRun(id: TenantId, key: RouteKey)
      requires Valid() && id in tenants
      ensures View().Cached(id, key) ==
              if key !in tenants[id].cache then None
              else Some(Route(tenants[id].cache[key].path, tenants[id].cache[key].weight, true))
    {
      assert tenants[id].Valid();
      assert View().tenants[id].Cache() == tenants[id].CacheView();
    }

    method TouchOf(id: TenantId, key: RouteKey) returns (cached: Option<RouteCache.CachedPath>)
      requires Valid() && id in tenants
      modifies tenants[id].Repr()
      ensures Valid() && cached == old(if key in tenants[id].cache then Some(tenants[id].cache[key]) else None)
      ensures View() == old(View()).Put(id,
                if cached.Some? then old(tenants[id].View()).Did(RouteCache.Get(key)) else old(tenants[id].View()))
    {
      hide TenantState.Valid, TenantState.View;
      cached := tenants[id].GetCached(key);
      OneTenant(id);
    }

    method ComputeRouteOf(id: TenantId, key: RouteKey) returns (route: Option<Route>)
      requires Valid() && id in tenants
      modifies tenants[id].Repr()
      ensures var t := old(tenants[id].View());
              && Valid() && route == ShortestPath(t.edges, t.health, t.model, key.start, key.goal)
              && View() == old(View()).Put(id, match route case Some(r) => t.WithRoute(key, r) case None => t)
    {
      hide TenantState.Valid, TenantState.View, ShortestPath;
      route := tenants[id].ComputeRoute(key);
      OneTenant(id);
    }

    method BlockedOf(id: TenantId) returns (blocked: seq<Node>)
      requires Valid() && id in tenants
      ensures Valid() && View() == old(View()) && blocked == View().tenants[id].Blocked()
    {
      hide TenantState.Valid, TenantState.View, Tenant.Blocked;
      blocked := tenants[id].BlockedNodes();
      OneTenant(id);
      PutSame(id);
    }

    /** A cache miss under the write lock. */
    method RouteOnMiss(id: TenantId, start: Node, goal: Node) returns (decision: RouteDecision)
      requires Valid() && id in tenants && View().Cached(id, RouteCache.RouteKey(start, goal)).None?
      modifies tenants[id].Repr()
      ensures Valid() && decision == old(View()).Decide(id, start, goal)
      ensures View() == old(View()).Settle(id, start, goal)
    {
      hide TenantState.Valid, TenantState.View, TenantsApart, TenantState.Repr, ShortestPath, Tenant.Blocked,
          Tenant.WithRoute;
      PutSame(id);
      var route := ComputeRouteOf(id, RouteCache.RouteKey(start, goal));
      if route.Some? {
        return Routed(route.value);
      }
      var blocked := BlockedOf(id);
      return Escalate(EscalationContext(id, start, goal, NoFeasiblePath, blocked));
    }

    /** The write-lock phase before its event: looks again, and computes and caches on a miss. */
    method RouteInTenant(id: TenantId, start: Node, goal: Node) returns (decision: RouteDecision)
      requires Valid() && id in tenants
      modifies tenants[id].Repr()
      ensures Valid() && decision == old(View()).Decide(id, start, goal)
      ensures View() == old(View()).Settle(id, start, goal)
    {
      var key := RouteCache.RouteKey(start, goal);
      CacheIsRun(id, key);
      hide TenantState.Valid, TenantState.View, TenantsApart, TenantState.Repr, ShortestPath, Tenant.Blocked,
          Tenant.WithRoute;
      if key in tenants[id].cache {
        var cached := TouchOf(id, key);
        return Routed(Route(cached.value.path, cached.value.weight, true));
      }
      decision := RouteOnMiss(id, start, goal);
    }

    /** The write-lock phase of `route`. */
    method RouteUnderWriteLock(id: TenantId, start: Node, goal: Node) returns (decision: RouteDecision)
      requires Valid()
      modifies Repr()
      ensures Valid() && decision == old(View()).Decide(id, start, goal)
      ensures View() == old(View()).SlowPath(id, start, goal)
      ensures match decision
              case Routed(route) =>
                View().log ==
                old(View()).log + [Reroute(id, start, goal, route.nodes, route.totalCost, route.cacheHit)]
              case Escalate(context) => View().log == old(View()).log + [ExplicitEscalation(context)]
    {
      hide TenantState.Valid, TenantState.View, TenantsApart, TenantState.Repr, ShortestPath, Tenant.Blocked,
          Tenant.WithRoute;
      if id in tenants {
        decision := RouteInTenant(id, start, goal);
      } else {
        decision := Escalate(EscalationContext(id, start, goal, TenantNotFound, []));
      }
      PushEvent(EventFor(id, start, goal, decision));
    }

    /** A call nobody comes between: both phases agree on the decision, and one event is logged. */
    method RouteUndisturbed(id: TenantId, start: Node, goal: Node) returns (decision: RouteDecision)
      requires Valid()
      modifies Repr()
      ensures Valid() && decision == old(View()).Decide(id, start, goal)
      ensures View().log == old(View()).log + [EventFor(id, start, goal, decision)]
      ensures match decision
              case Routed(route) =>
                View().log ==
                old(View()).log + [Reroute(id, start, goal, route.nodes, route.totalCost, route.cacheHit)]
              case Escalate(context) => View().log == old(View()).log + [ExplicitEscalation(context)]
      ensures View().tenants == if old(View()).FastPath(id, start, goal).Some? then old(View()).tenants
                                else old(View()).Settle(id, start, goal).tenants
    {
      hide Valid, View, TenantObjects, ShortestPath, Tenant.Blocked, Tenant.WithRoute;
      var hit := RouteUnderReadLock(id, start, goal);
      if hit.Some? {
        return hit.value;
      }
      decision := RouteUnderWriteLock(id, start, goal);
    }

    // ----- recovery -----

    method HalfOpenReadyOf(id: TenantId, cooldown: Duration, now: Instant) returns (nodes: seq<Node>)
      requires Valid() && id in tenants
      modifies tenants[id].Repr()
      ensures var t := old(tenants[id].View());
              && Valid() && Repr() == old(Repr()) && tenants == old(tenants)
              && View() == old(View()).Put(id, t.(health := HalfOpenNodes(t.health, nodes)))
              && (forall i, j :: 0 <= i < j < |nodes| ==> nodes[i] != nodes[j])
              && forall node :: node in nodes <==> old(View()).Ready(id, node, cooldown, now)
    {
      hide TenantState.Valid, TenantState.View;
      nodes := tenants[id].HalfOpenReady(cooldown, now);
      OneTenant(id);
      SameRepr(id);
    }

    method SweepTenant(id: TenantId, cooldown: Duration, now: Instant, probed0: seq<Pair>, ghost before: State,
      ghost rest: set<TenantId>)
      returns (probed: seq<Pair>)
      requires Valid() && id in tenants && id in rest && id in before.tenants
      requires View() == HalfOpenAll(before, probed0) && View().tenants[id] == before.tenants[id]
      requires Swept(before, cooldown, now, rest, probed0)
      modifies tenants[id].Repr()
      ensures Valid() && Repr() == old(Repr()) && tenants == old(tenants) && View() == HalfOpenAll(before, probed)
      ensures forall i :: i in tenants && i != id ==> View().tenants[i] == old(View()).tenants[i]
      ensures Swept(before, cooldown, now, rest - {id}, probed)
    {
      hide TenantState.Valid, TenantState.View, TenantState.Repr, TenantsApart, Swept, State.Ready, HalfOpenAll,
          HalfOpenNodes;
      ReadyLocal(before, View(), id, cooldown, now);
      var nodes := HalfOpenReadyOf(id, cooldown, now);
      TenantSweep(before, probed0, id, nodes);
      SweepGrows(before, cooldown, now, rest, probed0, id, nodes);
      probed := probed0 + Pairs(id, nodes);
    }

    /** The first sweep: every tracker of every tenant. */
    method HalfOpenAllReady(cooldown: Duration, now: Instant) returns (probed: seq<Pair>)
      requires Valid()
      modifies Repr()
      ensures Valid() && Repr() == old(Repr()) && View() == HalfOpenAll(old(View()), probed)
      ensures Swept(old(View()), cooldown, now, {}, probed)
    {
      hide TenantState.Valid, TenantState.View, TenantState.Repr, TenantsApart, HalfOpenAll, Swept;
      ghost var before := View();
      assert before.tenants.Keys == tenants.Keys;
      HalfOpenNone(before);
      SweptNone(before, cooldown, now);
      probed := [];
      var rest := tenants.Keys;
      while rest != {}
        invariant Valid() && Repr() == old(Repr()) && tenants == old(tenants) && rest <= tenants.Keys
        invariant View() == HalfOpenAll(before, probed)
        invariant forall id :: id in rest ==> View().tenants[id] == before.tenants[id]
        invariant Swept(before, cooldown, now, rest, probed)
        decreases rest
      {
        var id :| id in rest;
        probed := SweepTenant(id, cooldown, now, probed, before, rest);
        rest := rest - {id};
      }
    }

    method AnnounceOf(id: TenantId, node: Node)
      requires Valid() && id in tenants
      modifies tenants[id].Repr()
      ensures Valid() && Repr() == old(Repr())
      ensures View() == old(View()).Put(id, old(tenants[id].View()).Did(RouteCache.InvalidateNode(node)))
    {
      hide TenantState.Valid, TenantState.View;
      tenants[id].InvalidateForNode(node);
      OneTenant(id);
      SameRepr(id);
    }

    method AnnouncePair(p: Pair)
      requires Valid()
      modifies Repr()
      ensures Valid() && Repr() == old(Repr()) && View() == Announce(old(View()), p)
    {
      hide TenantState.Valid, TenantState.View, TenantState.Repr, TenantsApart;
      if p.0 in tenants {
        AnnounceOf(p.0, p.1);
      }
      PushEvent(RecoveryProbeOpened(p.0, p.1));
    }

    /** The second sweep: invalidates and logs, node by node. */
    method AnnounceFound(found: seq<Pair>)
      requires Valid()
      modifies Repr()
      ensures Valid() && View() == AnnounceAll(old(View()), found)
    {
      hide TenantState.Valid, TenantState.View, TenantState.Repr, TenantsApart;
      for k := 0 to |found|
        invariant Valid() && Repr() == old(Repr())
        invariant View() == AnnounceAll(old(View()), found[..k])
      {
        assert found[..k + 1][..k] == found[..k];
        AnnouncePair(found[k]);
      }
      assert found[..|found|] == found;
    }

    method RunRecoveryProbeOnce(cooldown: Duration, now: Instant) returns (count: nat, ghost probed: seq<Pair>)
      requires Valid()
      modifies Repr()
      ensures old(View()).ProbeList(cooldown, now, probed) && count == |probed|
      ensures Valid() && View() == OpenAll(old(View()), probed)
    {
      hide TenantState.Valid, TenantState.View, TenantState.Repr, TenantsApart, Tracker.Ready;
      var found := HalfOpenAllReady(cooldown, now);
      AnnounceFound(found);
      SweptAll(old(View()), cooldown, now, found);
      ReadyPresent(old(View()), cooldown, now, found);
      TwoSweeps(old(View()), found);
      count, probed := |found|, found;
    }
  }

  lemma PutTwice(s: State, id: TenantId, t: Tenant, t': Tenant)
    ensures s.Put(id, t).Put(id, t') == s.Put(id, t')
  {
  }

  lemma HalfOpenNone(s: State)
    ensures HalfOpenAll(s, []) == s
  {
  }

  lemma ReadyLocal(s: State, s': State, id: TenantId, cooldown: Duration, now: Instant)
    requires id in s.tenants && id in s'.tenants && s'.tenants[id] == s.tenants[id]
    ensures forall node :: s'.Ready(id, node, cooldown, now) <==> s.Ready(id, node, cooldown, now)
  {
  }

  /** The pairs found once only the tenants in `rest` remain. */
  ghost predicate Swept(s: State, cooldown: Duration, now: Instant, rest: set<TenantId>, probed: seq<Pair>) {
    && (forall i, j :: 0 <= i < j < |probed| ==> probed[i] != probed[j])
    && (forall id, node :: (id, node) in probed <==> id !in rest && s.Ready(id, node, cooldown, now))
  }

  lemma SweptAll(s: State, cooldown: Duration, now: Instant, probed: seq<Pair>)
    requires Swept(s, cooldown, now, {}, probed)
    ensures s.ProbeList(cooldown, now, probed)
  {
  }

  lemma SweptNone(s: State, cooldown: Duration, now: Instant)
    ensures Swept(s, cooldown, now, s.tenants.Keys, [])
  {
  }

  lemma SweepGrows(s: State, cooldown: Duration, now: Instant, rest: set<TenantId>, probed: seq<Pair>, id: TenantId,
    nodes: seq<Node>)
    requires Swept(s, cooldown, now, rest, probed) && id in rest
    requires forall i, j :: 0 <= i < j < |nodes| ==> nodes[i] != nodes[j]
    requires forall node :: node in nodes <==> s.Ready(id, node, cooldown, now)
    ensures Swept(s, cooldown, now, rest - {id}, probed + Pairs(id, nodes))
  {
    hide State.Ready;
    var more := Pairs(id, nodes);
    forall i, n ensures (i, n) in more <==> i == id && n in nodes {
      if i == id && n in nodes {
        var k :| 0 <= k < |nodes| && nodes[k] == n;
        assert more[k] == (i, n);
      }
    }
  }

  lemma ReadyPresent(s: State, cooldown: Duration, now: Instant, probed: seq<Pair>)
    requires s.ProbeList(cooldown, now, probed)
    ensures forall p :: p in probed ==> Present(s, p)
  {
    forall p | p in probed ensures Present(s, p) {
      assert (p.0, p.1) in probed;
      assert s.Ready(p.0, p.1, cooldown, now);
    }
  }
}
