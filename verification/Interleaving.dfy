/** Whole runs: any number of `route` calls, each in two atomic phases, among all other operations. */
module Interleaving {
  import opened Prelude
  import opened CostModel
  import opened Health
  import opened Multigraph
  import opened RouterSteps
  import opened RouterSafety
  import RouteCache

  /** A call to `route`: past a missed read-lock phase, or done; `at` is where its event sits in the log. */
  datatype Call =
    | Waiting(id: TenantId, start: Node, goal: Node)
    | Returned(id: TenantId, start: Node, goal: Node, decision: RouteDecision, at: nat)

  /** `owner` tells, for each event of the log, which call pushed it. */
  datatype System = System(s: State, calls: map<nat, Call>, owner: seq<Option<nat>>)

  datatype Step =
    | AddTenant(id: TenantId)
    | SetModel(id: TenantId, model: TenantCostModel)
    | SetPolicy(id: TenantId, policy: HealthPolicy)
    | AddEdge(id: TenantId, edge: Edge)
    | Record(id: TenantId, node: Node, success: bool, latency: nat, now: Instant)
    | Force(id: TenantId, node: Node)
    | Probe(cooldown: Duration, now: Instant, probed: seq<(TenantId, Node)>)
    | ReadPhase(call: nat, id: TenantId, start: Node, goal: Node)
    | WritePhase(call: nat)

  ghost predicate Enabled(y: System, step: Step) {
    match step
    case Probe(cooldown, now, probed) => y.s.ProbeList(cooldown, now, probed)
    case ReadPhase(call, _, _, _) => call !in y.calls
    case WritePhase(call) => call in y.calls && y.calls[call].Waiting?
    case _ => true
  }

  /** The shared state after a step that is not part of a `route` call. */
  function Effect(s: State, step: Step): State {
    match step
    case AddTenant(id) => s.AddTenant(id)
    case SetModel(id, model) => s.TrySetCostModel(id, model)
    case SetPolicy(id, policy) => s.TrySetHealthPolicy(id, policy)
    case AddEdge(id, edge) => s.AddEdge(id, edge)
    case Record(id, node, success, latency, now) => s.RecordResult(id, node, success, latency, now)
    case Force(id, node) => s.ForceHalfOpen(id, node)
    case Probe(_, _, probed) => OpenAll(s, probed)
    case _ => s
  }

  ghost function Next(y: System, step: Step): System
    requires Enabled(y, step)
  {
    match step
    case ReadPhase(call, id, start, goal) =>
      (match y.s.FastPath(id, start, goal)
       case Some(decision) =>
         System(y.s.Push(EventFor(id, start, goal, decision)),
                y.calls[call := Returned(id, start, goal, decision, |y.s.log|)], y.owner + [Some(call)])
       case None => y.(calls := y.calls[call := Waiting(id, start, goal)]))
    case WritePhase(call) =>
      var c := y.calls[call];
      System(y.s.SlowPath(c.id, c.start, c.goal),
             y.calls[call := Returned(c.id, c.start, c.goal, y.s.Decide(c.id, c.start, c.goal), |y.s.log|)],
             y.owner + [Some(call)])
    case _ =>
      var s := Effect(y.s, step);
      System(s, y.calls, y.owner + seq(if |s.log| > |y.s.log| then |s.log| - |y.s.log| else 0, _ => None))
  }

  const START := System(INITIAL, map[], [])

  ghost predicate IsRun(trace: seq<System>) {
    && |trace| > 0 && trace[0] == START
    && forall i :: 0 <= i < |trace| - 1 ==> Follows(trace[i], trace[i + 1])
  }

  ghost predicate Follows(y: System, y': System) {
    exists step :: Enabled(y, step) && Next(y, step) == y'
  }

  // ----- every call logs exactly one event -----

  predicate FromRoute(event: AuditEvent) {
    event.Reroute? || event.ExplicitEscalation?
  }

  ghost predicate CallOk(y: System, call: nat)
    requires call in y.calls
  {
    match y.calls[call]
    case Waiting(_, _, _) => forall i :: 0 <= i < |y.owner| ==> y.owner[i] != Some(call)
    case Returned(id, start, goal, decision, at) =>
      && at < |y.s.log| && y.s.log[at] == EventFor(id, start, goal, decision)
      && forall i :: 0 <= i < |y.owner| ==> (y.owner[i] == Some(call) <==> i == at)
  }

  ghost predicate CallsOk(y: System) {
    && |y.owner| == |y.s.log|
    && (forall call :: call in y.calls ==> CallOk(y, call))
    && (forall i :: 0 <= i < |y.owner| && y.owner[i].Some? ==> y.owner[i].value in y.calls)
    && (forall i :: 0 <= i < |y.owner| ==> (FromRoute(y.s.log[i]) <==> y.owner[i].Some?))
  }

  /** The events a step appends. */
  ghost predicate Appends(s: State, s': State, events: seq<AuditEvent>) {
    s'.log == s.log + events
  }

  lemma {:induction false} OpenAllAppends(s: State, probed: seq<(TenantId, Node)>) returns (events: seq<AuditEvent>)
    ensures Appends(s, OpenAll(s, probed), events)
    ensures forall i :: 0 <= i < |events| ==> !FromRoute(events[i])
  {
    if probed == [] {
      events := [];
    } else {
      events := OpenAllAppends(s, probed[..|probed| - 1]);
      var before := OpenAll(s, probed[..|probed| - 1]);
      var (id, node) := probed[|probed| - 1];
      if id in before.tenants {
        events := events + [RecoveryProbeOpened(id, node)];
      }
    }
  }

  lemma EffectAppends(s: State, step: Step) returns (events: seq<AuditEvent>)
    ensures Appends(s, Effect(s, step), events)
    ensures forall i :: 0 <= i < |events| ==> !FromRoute(events[i])
  {
    match step {
      case Probe(_, _, probed) => events := OpenAllAppends(s, probed);
      case Record(id, node, success, latency, now) =>
        events := [s.RecordResult(id, node, success, latency, now).log[|s.log|]];
      case Force(id, node) => events := if s.CanForce(id, node) then [RecoveryProbeOpened(id, node)] else [];
      case _ => events := [];
    }
  }

  lemma EffectOk(s: State, step: Step)
    requires Sound(s)
    ensures Sound(Effect(s, step))
  {
    hide Sound;
    match step {
      case AddTenant(id) => AdminOk(s, id, Edge("", "", Costs(NaN, NaN, 0, NaN), false), DEFAULT_MODEL, DEFAULT_POLICY);
      case SetModel(id, model) => AdminOk(s, id, Edge("", "", Costs(NaN, NaN, 0, NaN), false), model, DEFAULT_POLICY);
      case SetPolicy(id, policy) => AdminOk(s, id, Edge("", "", Costs(NaN, NaN, 0, NaN), false), DEFAULT_MODEL, policy);
      case AddEdge(id, edge) => AdminOk(s, id, edge, DEFAULT_MODEL, DEFAULT_POLICY);
      case Record(id, node, success, latency, now) => RecordOk(s, id, node, success, latency, now);
      case Force(id, node) => if s.CanForce(id, node) { ProbeOk(s, id, node); }
      case Probe(_, _, probed) => ProbesOk(s, probed);
      case _ =>
    }
  }

  lemma QuietStepCalls(y: System, s: State, events: seq<AuditEvent>)
    requires CallsOk(y) && Appends(y.s, s, events) && forall i :: 0 <= i < |events| ==> !FromRoute(events[i])
    ensures CallsOk(System(s, y.calls, y.owner + seq(|events|, _ => None)))
  {
    var y' := System(s, y.calls, y.owner + seq(|events|, _ => None));
    forall call | call in y'.calls ensures CallOk(y', call) {
      assert CallOk(y, call);
    }
  }

  /** A call that was not answered yet pushes its event and returns. */
  lemma ReturnCalls(y: System, s: State, call: nat, id: TenantId, start: Node, goal: Node, decision: RouteDecision)
    requires CallsOk(y) && (call in y.calls ==> y.calls[call].Waiting?)
    requires Appends(y.s, s, [EventFor(id, start, goal, decision)])
    ensures CallsOk(System(s, y.calls[call := Returned(id, start, goal, decision, |y.s.log|)], y.owner + [Some(call)]))
  {
    var y' := System(s, y.calls[call := Returned(id, start, goal, decision, |y.s.log|)], y.owner + [Some(call)]);
    assert call in y.calls ==> CallOk(y, call);
    forall c | c in y'.calls ensures CallOk(y', c) {
      if c != call {
        assert CallOk(y, c);
      }
    }
  }

  lemma WaitCalls(y: System, call: nat, id: TenantId, start: Node, goal: Node)
    requires CallsOk(y) && call !in y.calls
    ensures CallsOk(y.(calls := y.calls[call := Waiting(id, start, goal)]))
  {
    var y' := y.(calls := y.calls[call := Waiting(id, start, goal)]);
    forall c | c in y'.calls ensures CallOk(y', c) {
      if c != call {
        assert CallOk(y, c);
      }
    }
  }

  lemma StepOk(y: System, step: Step)
    requires Sound(y.s) && CallsOk(y) && Enabled(y, step)
    ensures Sound(Next(y, step).s) && CallsOk(Next(y, step))
  {
    hide Sound, CallsOk, State.Decide, State.Settle, Effect;
    match step {
      case ReadPhase(call, id, start, goal) =>
        if y.s.FastPath(id, start, goal).Some? {
          var decision := y.s.FastPath(id, start, goal).value;
          FastOk(y.s, id, start, goal);
          ReturnCalls(y, y.s.Push(EventFor(id, start, goal, decision)), call, id, start, goal, decision);
        } else {
          WaitCalls(y, call, id, start, goal);
        }
      case WritePhase(call) =>
        var c := y.calls[call];
        SlowOk(y.s, c.id, c.start, c.goal);
        SettleKeepsLog(y.s, c.id, c.start, c.goal);
        ReturnCalls(y, y.s.SlowPath(c.id, c.start, c.goal), call, c.id, c.start, c.goal,
            y.s.Decide(c.id, c.start, c.goal));
      case _ =>
        EffectOk(y.s, step);
        var events := EffectAppends(y.s, step);
        QuietStepCalls(y, Effect(y.s, step), events);
        assert y.owner + seq(|events|, _ => None) == Next(y, step).owner;
    }
  }

  lemma {:induction false} RunOk(trace: seq<System>, i: nat)
    requires IsRun(trace) && i < |trace|
    ensures Sound(trace[i].s) && CallsOk(trace[i])
  {
    hide Sound, CallsOk, Enabled, Next;
    if i == 0 {
      StartOk();
    } else {
      RunOk(trace, i - 1);
      assert Follows(trace[i - 1], trace[i - 1 + 1]);
      var step :| Enabled(trace[i - 1], step) && Next(trace[i - 1], step) == trace[i];
      StepOk(trace[i - 1], step);
    }
  }

  lemma StartOk()
    ensures Sound(START.s) && CallsOk(START)
  {
  }

  // ----- the main results over runs -----

  /** The audit log never shows a reroute through a node it has just called Open, the start aside. */
  lemma NoRerouteThroughOpen(trace: seq<System>, i: nat, k: nat)
    requires IsRun(trace)
    requires var log := trace[|trace| - 1].s.log; i < |log| && log[i].Reroute? && 1 <= k < |log[i].path|
    ensures var log := trace[|trace| - 1].s.log;
            LatestHealth(log[..i], log[i].tenant, log[i].path[k]) != Some(Open)
  {
    RunOk(trace, |trace| - 1);
    var log := trace[|trace| - 1].s.log;
    assert AvoidsOpen(log[..i], log[i].tenant, log[i].path);
  }

  /** A call that returned has logged its decision, and nothing else; one still waiting has logged nothing. */
  lemma OneEventPerCall(trace: seq<System>, call: nat)
    requires IsRun(trace) && call in trace[|trace| - 1].calls
    ensures var y := trace[|trace| - 1]; var pushed := set i | 0 <= i < |y.owner| && y.owner[i] == Some(call);
            match y.calls[call]
            case Waiting(_, _, _) => pushed == {}
            case Returned(id, start, goal, decision, at) =>
              && pushed == {at} && at < |y.s.log|
              && match decision
                 case Routed(route) => y.s.log[at] ==
                     Reroute(id, start, goal, route.nodes, route.totalCost, route.cacheHit)
                 case Escalate(context) => y.s.log[at] == ExplicitEscalation(context)
  {
    RunOk(trace, |trace| - 1);
    assert CallOk(trace[|trace| - 1], call);
  }

  lemma {:induction false} WalkSurvives(edges: seq<Edge>, before: HealthMap, after: HealthMap, model: TenantCostModel,
    start: Node, goal: Node, walk: seq<Edge>)
    requires IsWalk(edges, before, model, start, goal, walk)
    requires forall node :: node in WalkNodes(start, walk) ==> StateOf(after, node) == StateOf(before, node)
    ensures IsWalk(edges, after, model, start, goal, walk)
    decreases |walk|
  {
    hide EdgeCost;
    if walk != [] {
      var last, front := walk[|walk| - 1], walk[..|walk| - 1];
      assert WalkNodes(start, walk) == WalkNodes(start, front) + [last.to];
      EdgeCostMeaning(last, before, model);
      EdgeCostMeaning(last, after, model);
      WalkSurvives(edges, before, after, model, start, last.from, front);
    }
  }

  lemma EntryIsWalkable(t: Tenant, key: RouteKey, cached: RouteCache.CachedPath)
    requires EntryOk(t, key, cached)
    ensures exists walk ::
              IsWalk(t.edges, t.health, t.model, key.start, key.goal, walk) && WalkNodes(key.start, walk) == cached.path
    ensures Optimal(t.edges, t.origins[key].health, t.model, key.start, key.goal,
        Route(cached.path, cached.weight, false))
    ensures t.origins[key].health == t.health ==>
              ShortestPath(t.edges, t.health, t.model, key.start, key.goal) ==
                  Some(Route(cached.path, cached.weight, false))
  {
    hide ShortestPath, IsWalk;
    var o := t.origins[key];
    ShortestPathCorrect(o.edges, o.health, o.model, key.start, key.goal);
    var walk :| IsWalk(o.edges, o.health, o.model, key.start, key.goal, walk)
        && WalkNodes(key.start, walk) == cached.path;
    WalkSurvives(o.edges, o.health, t.health, o.model, key.start, key.goal, walk);
  }

  /** Every reachable cache entry is optimal for the health map at its insertion, still a walk of today's
      graph under today's breakers with no Open node after the start, and, when no health update happened since,
      exactly what a fresh search would return. */
  lemma CacheEntryGuarantee(trace: seq<System>, id: TenantId, key: RouteKey)
    requires IsRun(trace)
    requires var s := trace[|trace| - 1].s; id in s.tenants && key in s.tenants[id].Cache().entries
    ensures var t := trace[|trace| - 1].s.tenants[id]; var cached := t.Cache().entries[key];
            var route := Route(cached.path, cached.weight, false);
            && key in t.origins && t.origins[key].edges == t.edges && t.origins[key].model == t.model
            && (forall node :: node in cached.path ==> StateOf(t.health, node) == StateOf(t.origins[key].health, node))
            && Optimal(t.edges, t.origins[key].health, t.model, key.start, key.goal, route)
            && (exists walk :: WalkNodes(key.start, walk) == cached.path
                               && IsWalk(t.edges, t.health, t.model, key.start, key.goal, walk))
            && (forall k :: 1 <= k < |cached.path| ==> !StateOf(t.health, cached.path[k]).Open?)
            && (t.origins[key].health == t.health ==>
                  ShortestPath(t.edges, t.health, t.model, key.start, key.goal) == Some(route))
  {
    RunOk(trace, |trace| - 1);
    hide ShortestPath, IsWalk, Optimal, HealthLogged, RerouteSafe;
    var t := trace[|trace| - 1].s.tenants[id];
    var cached := t.Cache().entries[key];
    assert EntryOk(t, key, cached);
    EntryIsWalkable(t, key, cached);
    EntryAvoidsOpen(t, key, cached);
  }
}
