/** Where in a run a decision was made and a cache entry was inserted, and what held there. */
module Decisions {
  import opened Prelude
  import opened CostModel
  import opened Health
  import opened Multigraph
  import opened RouterSteps
  import opened RouterSafety
  import opened Interleaving
  import RouteCache

  lemma LastStep(trace: seq<System>) returns (step: Step)
    requires IsRun(trace) && |trace| > 1
    ensures var n := |trace| - 1;
            IsRun(trace[..n]) && Enabled(trace[n - 1], step) && Next(trace[n - 1], step) == trace[n]
  {
    hide Enabled, Next;
    var n := |trace| - 1;
    forall i | 0 <= i < n - 1 ensures Follows(trace[..n][i], trace[..n][i + 1]) {
      assert Follows(trace[i], trace[i + 1]);
    }
    assert Follows(trace[n - 1], trace[n - 1 + 1]);
    step :| Enabled(trace[n - 1], step) && Next(trace[n - 1], step) == trace[n];
  }

  lemma PrefixRun(trace: seq<System>, n: nat)
    requires IsRun(trace) && 0 < n <= |trace|
    ensures IsRun(trace[..n])
  {
    hide Follows;
    assert forall i :: 0 <= i < n - 1 ==> Follows(trace[i], trace[i + 1]);
  }

  // ----- decisions -----

  /** The call returned what the write phase decides in this state, and logged it as the next event. */
  ghost predicate DecidedAt(s: State, c: Call) {
    c.Returned? && c.at == |s.log| && c.decision == s.Decide(c.id, c.start, c.goal)
  }

  /** A step returns a call with the decision its state calls for, or leaves the call as it was. */
  lemma StepCalls(y: System, step: Step, call: nat)
    requires Enabled(y, step)
    ensures y.s.log <= Next(y, step).s.log
    ensures call in Next(y, step).calls && Next(y, step).calls[call].Returned? ==>
              (call in y.calls && y.calls[call] == Next(y, step).calls[call])
                  || DecidedAt(y.s, Next(y, step).calls[call])
  {
    hide Effect, State.Settle, ShortestPath, Tenant.Blocked;
    match step {
      case ReadPhase(_, _, _, _) =>
      case WritePhase(c) => SettleKeepsLog(y.s, y.calls[c].id, y.calls[c].start, y.calls[c].goal);
      case _ => var events := EffectAppends(y.s, step);
    }
  }

  lemma {:induction false} DecisionPoint(trace: seq<System>, call: nat) returns (j: nat)
    requires IsRun(trace)
    requires call in trace[|trace| - 1].calls && trace[|trace| - 1].calls[call].Returned?
    ensures j < |trace| - 1 && DecidedAt(trace[j].s, trace[|trace| - 1].calls[call])
    ensures trace[j].s.log <= trace[|trace| - 1].s.log
  {
    hide Enabled, Next, DecidedAt, Follows;
    var n := |trace| - 1;
    if n == 0 {
      assert false;
    }
    var step := LastStep(trace);
    StepCalls(trace[n - 1], step, call);
    if DecidedAt(trace[n - 1].s, trace[n].calls[call]) {
      j := n - 1;
    } else {
      j := DecisionPoint(trace[..n], call);
    }
  }

  /** The blocked nodes of an escalation: exactly the Open ones, in name order, each once. */
  lemma BlockedExact(t: Tenant)
    ensures forall i, j :: 0 <= i < j < |t.Blocked()| ==> CompareString(t.Blocked()[i], t.Blocked()[j]) == LT
    ensures forall node :: node in t.Blocked() <==> node in t.OpenNodes()
  {
    hide CompareString, Sort, Listed, Tenant.OpenNodes;
    KeysRise(t.OpenNodes());
  }

  /** What a decision is worth in the state it was made in. */
  ghost predicate RightIn(s: State, id: TenantId, start: Node, goal: Node, decision: RouteDecision) {
    match decision
    case Routed(route) =>
      id in s.tenants &&
      (var t := s.tenants[id];
       && (exists walk ::
              IsWalk(t.edges, t.health, t.model, start, goal, walk) && WalkNodes(start, walk) == route.nodes)
       && (forall k :: 1 <= k < |route.nodes| ==> !StateOf(t.health, route.nodes[k]).Open?)
       && (!route.cacheHit ==> Optimal(t.edges, t.health, t.model, start, goal, route))
       && (var key := RouteCache.RouteKey(start, goal);
           && (route.cacheHit <==> key in t.Cache().entries)
           && (route.cacheHit ==>
                 t.Cache().entries[key].path == route.nodes && t.Cache().entries[key].weight == route.totalCost)))
    case Escalate(context) =>
      && context.tenant == id && context.start == start && context.goal == goal
      && if context.reason.TenantNotFound? then id !in s.tenants && context.blocked == []
         else
           id in s.tenants &&
           (var t := s.tenants[id];
            && (forall walk :: !IsWalk(t.edges, t.health, t.model, start, goal, walk))
            && (forall i, j :: 0 <= i < j < |context.blocked| ==>
                CompareString(context.blocked[i], context.blocked[j]) == LT)
            && (forall node :: node in context.blocked <==> LatestHealth(s.log, id, node) == Some(Open)))
  }

  lemma DecideRight(s: State, id: TenantId, start: Node, goal: Node)
    requires Sound(s)
    ensures RightIn(s, id, start, goal, s.Decide(id, start, goal))
  {
    hide ShortestPath, RerouteSafe, LatestHealth, IsWalk, Tenant.Blocked, CompareString;
    if id in s.tenants {
      var t := s.tenants[id];
      var key := RouteCache.RouteKey(start, goal);
      ShortestPathCorrect(t.edges, t.health, t.model, start, goal);
      if key in t.Cache().entries {
        var cached := t.Cache().entries[key];
        assert EntryOk(t, key, cached);
        EntryIsWalkable(t, key, cached);
        EntryAvoidsOpen(t, key, cached);
      } else if ShortestPath(t.edges, t.health, t.model, start, goal).None? {
        BlockedExact(t);
        forall node ensures node in t.Blocked() <==> LatestHealth(s.log, id, node) == Some(Open) {
          assert LatestHealth(s.log, id, node) == Known(s, id, node);
        }
      }
    }
  }

  /** Every decision a call returned was right in a state of the run, between whose events and all later ones its own
      event stands: a fresh route was optimal there, a cached one walkable around Open nodes, no route was reported only
      where there was no walk, and the blocked nodes were those the log called Open. */
  lemma DecisionsRight(trace: seq<System>, call: nat) returns (j: nat)
    requires IsRun(trace)
    requires call in trace[|trace| - 1].calls && trace[|trace| - 1].calls[call].Returned?
    ensures var c := trace[|trace| - 1].calls[call];
            && j < |trace| - 1 && c.at == |trace[j].s.log| && trace[j].s.log <= trace[|trace| - 1].s.log
            && RightIn(trace[j].s, c.id, c.start, c.goal, c.decision)
  {
    j := DecisionPoint(trace, call);
    RunOk(trace, j);
    var c := trace[|trace| - 1].calls[call];
    DecideRight(trace[j].s, c.id, c.start, c.goal);
  }

  // ----- cache entries -----

  ghost predicate Holds(s: State, id: TenantId, key: RouteKey) {
    id in s.tenants && key in s.tenants[id].Cache().entries
  }

  /** The entry is there in both states, inserted at the same occasion. */
  ghost predicate Same(s: State, s': State, id: TenantId, key: RouteKey) {
    && Holds(s, id, key) && Holds(s', id, key)
    && s.tenants[id].Cache().entries[key] == s'.tenants[id].Cache().entries[key]
    && key in s.tenants[id].origins && key in s'.tenants[id].origins
    && s.tenants[id].origins[key] == s'.tenants[id].origins[key]
  }

  /** The entry of `s'` is the answer the search gives in `s`, which holds none. */
  ghost predicate Inserted(s: State, s': State, id: TenantId, key: RouteKey) {
    && Holds(s', id, key) && !Holds(s, id, key) && id in s.tenants && key in s'.tenants[id].origins
    && var t, cached := s.tenants[id], s'.tenants[id].Cache().entries[key];
    && s'.tenants[id].origins[key] == Origin(t.edges, t.model, t.health)
    && ShortestPath(t.edges, t.health, t.model, key.start, key.goal) == Some(Route(cached.path, cached.weight, false))
  }

  lemma PutSame(s: State, i: TenantId, t: Tenant, id: TenantId, key: RouteKey)
    requires Sound(s) && Holds(s.Put(i, t), id, key)
    requires t.origins == s.TenantOf(i).origins
    requires forall k :: k in t.Cache().entries ==>
               k in s.TenantOf(i).Cache().entries && t.Cache().entries[k] == s.TenantOf(i).Cache().entries[k]
    ensures Same(s, s.Put(i, t), id, key)
  {
    hide HealthLogged, RerouteSafe, Origin.Explains;
    if i !in s.tenants {
      assert NEW_TENANT.Cache().entries == map[];
    }
    assert id in s.tenants && TenantOk(s.tenants[id]);
    assert EntryOk(s.tenants[id], key, s.tenants[id].Cache().entries[key]);
  }

  /** Operations that are not part of a `route` call never insert. */
  lemma EffectSame(s: State, step: Step, id: TenantId, key: RouteKey)
    requires Sound(s) && Holds(Effect(s, step), id, key)
    ensures Same(s, Effect(s, step), id, key)
  {
    hide Sound, Same, Holds, RouteCache.Run, Tracker.Record;
    match step {
      case AddTenant(i) => PutSame(s, i, s.TenantOf(i), id, key);
      case SetModel(i, model) =>
        DidCache(s.TenantOf(i).(model := model), RouteCache.InvalidateAll);
        if model.Valid() { PutSame(s, i, s.TenantOf(i).WithModel(model), id, key); } else { Unchanged(s, id, key); }
      case SetPolicy(i, policy) =>
        DidCache(s.TenantOf(i).(policy := policy), RouteCache.InvalidateAll);
        if policy.Valid() { PutSame(s, i, s.TenantOf(i).WithPolicy(policy), id, key); } else { Unchanged(s, id, key); }
      case AddEdge(i, edge) =>
        DidCache(s.TenantOf(i).(edges := s.TenantOf(i).edges + [edge]), RouteCache.InvalidateAll);
        PutSame(s, i, s.TenantOf(i).WithEdge(edge), id, key);
      case Record(i, node, success, latency, now) => RecordSame(s, i, node, success, latency, now, id, key);
      case Force(i, node) => if s.CanForce(i, node) { ProbeSame(s, i, node, id, key); } else { Unchanged(s, id, key); }
      case Probe(_, _, probed) => ProbesSame(s, probed, id, key);
      case _ => Unchanged(s, id, key);
    }
  }

  lemma Unchanged(s: State, id: TenantId, key: RouteKey)
    requires Sound(s) && Holds(s, id, key)
    ensures Same(s, s, id, key)
  {
    hide HealthLogged, RerouteSafe, Origin.Explains;
    assert TenantOk(s.tenants[id]);
    assert EntryOk(s.tenants[id], key, s.tenants[id].Cache().entries[key]);
  }

  lemma PushedSame(s: State, s': State, event: AuditEvent, id: TenantId, key: RouteKey)
    ensures Same(s, s'.Push(event), id, key) <==> Same(s, s', id, key)
    ensures Holds(s'.Push(event), id, key) <==> Holds(s', id, key)
  {
  }

  lemma RecordSame(s: State, i: TenantId, node: Node, success: bool, latency: nat, now: Instant, id: TenantId,
    key: RouteKey)
    requires Sound(s) && Holds(s.RecordResult(i, node, success, latency, now), id, key)
    ensures Same(s, s.RecordResult(i, node, success, latency, now), id, key)
  {
    hide Sound, Same, Holds, RouteCache.Run, Tracker.Record;
    var t := s.TenantOf(i);
    var t' := t.WithResult(node, success, latency, now);
    var tracker := t.TrackerOf(node).Record(success, latency, t.policy, now);
    DidCache(t.(health := t.health[node := tracker]), RouteCache.InvalidateNode(node));
    var event := HealthChanged(i, node, t.StateAfter(node, success, latency, now),
                               t.StateAfter(node, success, latency, now) != t.TrackerOf(node).state);
    PushedSame(s, s.Put(i, t'), event, id, key);
    PutSame(s, i, t', id, key);
  }

  lemma ProbeSame(s: State, i: TenantId, node: Node, id: TenantId, key: RouteKey)
    requires Sound(s) && i in s.tenants && Holds(s.OpenProbe(i, node), id, key)
    ensures Same(s, s.OpenProbe(i, node), id, key)
  {
    hide Sound, Same, Holds, RouteCache.Run, Tracker.HalfOpened;
    var t := s.tenants[i];
    DidCache(t.(health := t.health[node := t.TrackerOf(node).HalfOpened()]), RouteCache.InvalidateNode(node));
    PushedSame(s, s.Put(i, t.WithProbe(node)), RecoveryProbeOpened(i, node), id, key);
    PutSame(s, i, t.WithProbe(node), id, key);
  }

  lemma {:induction false} ProbesSame(s: State, probed: seq<(TenantId, Node)>, id: TenantId, key: RouteKey)
    requires Sound(s) && Holds(OpenAll(s, probed), id, key)
    ensures Same(s, OpenAll(s, probed), id, key)
  {
    hide Sound, State.OpenProbe, Tenant.Cache;
    if probed == [] {
      Unchanged(s, id, key);
    } else {
      var front := probed[..|probed| - 1];
      var (i, node) := probed[|probed| - 1];
      var before := OpenAll(s, front);
      ProbesOk(s, front);
      if i in before.tenants {
        ProbeSame(before, i, node, id, key);
      }
      ProbesSame(s, front, id, key);
    }
  }

  lemma SettleEntry(s: State, i: TenantId, start: Node, goal: Node, id: TenantId, key: RouteKey)
    requires Sound(s) && Holds(s.Settle(i, start, goal), id, key)
    ensures Same(s, s.Settle(i, start, goal), id, key) || Inserted(s, s.Settle(i, start, goal), id, key)
  {
    hide Sound, RouteCache.Run, ShortestPath, RouteCache.Without, RouteCache.Retain;
    var asked := RouteCache.RouteKey(start, goal);
    if i !in s.tenants {
      Unchanged(s, id, key);
    } else {
      var t := s.tenants[i];
      if asked in t.Cache().entries {
        DidCache(t, RouteCache.Get(asked));
        PutSame(s, i, t.Did(RouteCache.Get(asked)), id, key);
      } else {
        match ShortestPath(t.edges, t.health, t.model, start, goal) {
          case None => Unchanged(s, id, key);
          case Some(route) =>
            ShortestPathCorrect(t.edges, t.health, t.model, start, goal);
            MissEntry(s, i, asked, route, id, key);
        }
      }
    }
  }

  lemma MissEntry(s: State, i: TenantId, asked: RouteKey, route: Route, id: TenantId, key: RouteKey)
    requires Sound(s) && i in s.tenants && asked !in s.tenants[i].Cache().entries
    requires var t := s.tenants[i];
             ShortestPath(t.edges, t.health, t.model, asked.start, asked.goal) == Some(route) && !route.cacheHit
    requires Holds(s.Put(i, s.tenants[i].WithRoute(asked, route)), id, key)
    ensures var s' := s.Put(i, s.tenants[i].WithRoute(asked, route)); Same(s, s', id, key) || Inserted(s, s', id, key)
  {
    hide HealthLogged, RerouteSafe, TenantOk, RouteCache.Run, ShortestPath, RouteCache.Without;
    var t := s.tenants[i];
    var marked := t.(origins := t.origins[asked := Origin(t.edges, t.model, t.health)]);
    var cached := RouteCache.CachedPath(route.nodes, route.totalCost, NodeSet(route.nodes));
    DidCache(marked, RouteCache.Insert(asked, cached));
    assert marked.Cache() == t.Cache();
    if id != i || key != asked {
      Unchanged(s, id, key);
    }
  }

  lemma StepEntry(y: System, step: Step, id: TenantId, key: RouteKey)
    requires Sound(y.s) && Enabled(y, step) && Holds(Next(y, step).s, id, key)
    ensures Same(y.s, Next(y, step).s, id, key) || Inserted(y.s, Next(y, step).s, id, key)
  {
    hide Sound, Same, Holds, Inserted, Effect, State.Settle, State.Decide;
    match step {
      case ReadPhase(call, i, start, goal) =>
        if y.s.FastPath(i, start, goal).Some? {
          PushedSame(y.s, y.s, EventFor(i, start, goal, y.s.FastPath(i, start, goal).value), id, key);
        }
        Unchanged(y.s, id, key);
      case WritePhase(call) =>
        var c := y.calls[call];
        var settled := y.s.Settle(c.id, c.start, c.goal);
        var event := EventFor(c.id, c.start, c.goal, y.s.Decide(c.id, c.start, c.goal));
        PushedSame(y.s, settled, event, id, key);
        PushedInserted(y.s, settled, event, id, key);
        SettleEntry(y.s, c.id, c.start, c.goal, id, key);
      case _ => EffectSame(y.s, step, id, key);
    }
  }

  lemma PushedInserted(s: State, s': State, event: AuditEvent, id: TenantId, key: RouteKey)
    ensures Inserted(s, s'.Push(event), id, key) <==> Inserted(s, s', id, key)
  {
    hide ShortestPath;
  }

  lemma SameTransitive(a: State, b: State, c: State, id: TenantId, key: RouteKey)
    requires Same(a, b, id, key) && Same(b, c, id, key)
    ensures Same(a, c, id, key)
  {
  }

  lemma InsertedStays(a: State, b: State, c: State, id: TenantId, key: RouteKey)
    requires Inserted(a, b, id, key) && Same(b, c, id, key)
    ensures Inserted(a, c, id, key)
  {
    hide ShortestPath;
  }

  /** The position of the run at which the entry was inserted; it has been there ever since. */
  lemma {:induction false} InsertionPoint(trace: seq<System>, id: TenantId, key: RouteKey) returns (j: nat)
    requires IsRun(trace) && Holds(trace[|trace| - 1].s, id, key)
    ensures j < |trace| - 1 && Inserted(trace[j].s, trace[|trace| - 1].s, id, key)
    ensures forall i :: j < i < |trace| ==> Same(trace[i].s, trace[|trace| - 1].s, id, key)
  {
    hide Enabled, Next, Follows, Inserted, Same, Sound;
    var n := |trace| - 1;
    if n == 0 {
      assert false;
    }
    var step := LastStep(trace);
    RunOk(trace, n - 1);
    RunOk(trace, n);
    StepEntry(trace[n - 1], step, id, key);
    Unchanged(trace[n].s, id, key);
    if Inserted(trace[n - 1].s, trace[n].s, id, key) {
      j := n - 1;
    } else {
      assert Holds(trace[n - 1].s, id, key) by { SameHolds(trace[n - 1].s, trace[n].s, id, key); }
      j := InsertionPoint(trace[..n], id, key);
      InsertedStays(trace[j].s, trace[n - 1].s, trace[n].s, id, key);
      forall i | j < i < n ensures Same(trace[i].s, trace[n].s, id, key) {
        SameTransitive(trace[..n][i].s, trace[n - 1].s, trace[n].s, id, key);
      }
    }
  }

  lemma SameHolds(s: State, s': State, id: TenantId, key: RouteKey)
    requires Same(s, s', id, key)
    ensures Holds(s, id, key)
  {
  }

  /** A cached route was optimal at the position of the run where it was inserted, has been cached ever since, and at
      every position since then no node of it had another state. It is optimal today if the penalties on its way are
      those of its insertion and no other penalty is lower. */
  lemma CacheEntryHistory(trace: seq<System>, id: TenantId, key: RouteKey) returns (j: nat)
    requires IsRun(trace) && Holds(trace[|trace| - 1].s, id, key)
    ensures j < |trace| - 1 && id in trace[j].s.tenants && !Holds(trace[j].s, id, key)
    ensures var t0, t := trace[j].s.tenants[id], trace[|trace| - 1].s.tenants[id];
            var cached := t.Cache().entries[key]; var route := Route(cached.path, cached.weight, false);
            && t0.edges == t.edges && t0.model == t.model
            && ShortestPath(t0.edges, t0.health, t0.model, key.start, key.goal) == Some(route)
            && Optimal(t0.edges, t0.health, t0.model, key.start, key.goal, route)
            && (forall i, node :: j < i < |trace| && node in cached.path ==>
                  id in trace[i].s.tenants && StateOf(trace[i].s.tenants[id].health, node) == StateOf(t0.health, node))
            && ((forall k :: 1 <= k < |cached.path| ==>
                   PenaltyOf(t.health, cached.path[k]) == PenaltyOf(t0.health, cached.path[k]))
                && (forall node :: !PenaltyOf(t.health, node).Less(PenaltyOf(t0.health, node)))
                ==> Optimal(t.edges, t.health, t.model, key.start, key.goal, route))
  {
    hide ShortestPath, Optimal, PenaltyOf, IsRun, RouteCache.Run, StateOf, IsWalk;
    j := InsertionPoint(trace, id, key);
    CacheEntryGuarantee(trace, id, key);
    var t0, t := trace[j].s.tenants[id], trace[|trace| - 1].s.tenants[id];
    var cached := t.Cache().entries[key];
    var route := Route(cached.path, cached.weight, false);
    forall i, node | j < i < |trace| && node in cached.path
      ensures id in trace[i].s.tenants && StateOf(trace[i].s.tenants[id].health, node) == StateOf(t0.health, node)
    {
      assert Same(trace[i].s, trace[|trace| - 1].s, id, key);
      PrefixRun(trace, i + 1);
      CacheEntryGuarantee(trace[..i + 1], id, key);
    }
    if (forall k :: 1 <= k < |cached.path| ==>
        PenaltyOf(t.health, cached.path[k]) == PenaltyOf(t0.health, cached.path[k]))
       && (forall node :: !PenaltyOf(t.health, node).Less(PenaltyOf(t0.health, node)))
    {
      StaysOptimal(t.edges, t0.health, t.health, t.model, key.start, key.goal, route);
    }
  }
}
