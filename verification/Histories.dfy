/** Runs of the whole router, seen from one breaker and from the log. */
module Histories {
  import opened Prelude
  import opened CostModel
  import opened Health
  import opened Multigraph
  import opened RouterSteps
  import opened RouterSafety
  import opened Interleaving
  import opened Decisions
  import opened Effects
  import RouteCache

  type Pair = (TenantId, Node)

  function Breaker(s: State, id: TenantId, node: Node): Tracker {
    s.TenantOf(id).TrackerOf(node)
  }

  // ----- a recovery probe -----

  ghost predicate Once(probed: seq<Pair>) {
    forall i, j :: 0 <= i < j < |probed| ==> probed[i] != probed[j]
  }

  lemma OpenProbeBreaker(s: State, p: Pair, id: TenantId, node: Node)
    requires p.0 in s.tenants && p.1 in s.tenants[p.0].health
    ensures var s' := s.OpenProbe(p.0, p.1);
            && Breaker(s', id, node) ==
                (if p == (id, node) then Breaker(s, id, node).HalfOpened() else Breaker(s, id, node))
            && (id in s'.tenants <==> id in s.tenants) && s'.TenantOf(id).policy == s.TenantOf(id).policy
            && (id in s.tenants ==> s'.tenants[id].health.Keys == s.tenants[id].health.Keys)
  {
    hide Dropped, State.OpenProbe;
    ProbeEffect(s, p.0, p.1);
  }

  /** Every listed node is half-opened, no other is touched. */
  lemma {:induction false} ProbedBreakers(s: State, probed: seq<Pair>, id: TenantId, node: Node)
    requires Once(probed) && forall p :: p in probed ==> p.0 in s.tenants && p.1 in s.tenants[p.0].health
    ensures var s' := OpenAll(s, probed);
            && Breaker(s', id, node) ==
                (if (id, node) in probed then Breaker(s, id, node).HalfOpened() else Breaker(s, id, node))
            && (id in s'.tenants <==> id in s.tenants) && s'.TenantOf(id).policy == s.TenantOf(id).policy
            && (id in s.tenants ==> s'.tenants[id].health.Keys == s.tenants[id].health.Keys)
  {
    hide State.OpenProbe, Breaker, Tracker.HalfOpened;
    if probed != [] {
      var front, p := probed[..|probed| - 1], probed[|probed| - 1];
      ProbedBreakers(s, front, id, node);
      ProbedBreakers(s, front, p.0, p.1);
      OpenProbeBreaker(OpenAll(s, front), p, id, node);
      assert probed == front + [p];
    }
  }

  // ----- one breaker -----

  /** What a step of the router is for the breaker of one node. */
  function OpOf(step: Step, id: TenantId, node: Node): seq<HealthOp> {
    match step
    case Record(i, n, success, latency, now) =>
      if i == id && n == node then [Result(success, latency, now)] else []
    case Force(i, n) => if i == id && n == node then [HealthOp.Force] else []
    case Probe(cooldown, now, _) => [HealthOp.Probe(cooldown, now)]
    case _ => []
  }

  /** The breaker after the operations, one by one. */
  function Moved(t: Tracker, ops: seq<HealthOp>, policy: HealthPolicy): Tracker {
    if ops == [] then t else Health.Apply(Moved(t, ops[..|ops| - 1], policy), ops[|ops| - 1], policy)
  }

  lemma MovedOne(t: Tracker, op: HealthOp, policy: HealthPolicy)
    ensures Moved(t, [op], policy) == Health.Apply(t, op, policy) && Moved(t, [], policy) == t
  {
    assert [op][..0] == [];
  }

  lemma RecordBreaker(s: State, i: TenantId, n: Node, success: bool, latency: nat, now: Instant, id: TenantId,
    node: Node)
    ensures var s' := s.RecordResult(i, n, success, latency, now);
            Breaker(s', id, node) ==
            if i == id && n == node then Health.Apply(Breaker(s, id, node), Result(success, latency, now),
                s.TenantOf(id).policy)
            else Breaker(s, id, node)
  {
    hide Dropped, Tracker.Record, State.RecordResult;
    RecordEffect(s, i, n, success, latency, now);
  }

  lemma ProbeBreaker(s: State, cooldown: Duration, now: Instant, probed: seq<Pair>, id: TenantId, node: Node)
    requires s.ProbeList(cooldown, now, probed)
    ensures Breaker(OpenAll(s, probed), id, node) ==
            Health.Apply(Breaker(s, id, node), HealthOp.Probe(cooldown, now), s.TenantOf(id).policy)
  {
    hide OpenAll;
    assert forall p: Pair :: p in probed ==> s.Ready(p.0, p.1, cooldown, now);
    ProbedBreakers(s, probed, id, node);
    assert (id, node) in probed <==> s.Ready(id, node, cooldown, now);
  }

  lemma AdminBreaker(s: State, i: TenantId, edge: Edge, model: TenantCostModel, policy: HealthPolicy, id: TenantId,
    node: Node)
    ensures Breaker(s.AddTenant(i), id, node) == Breaker(s.AddEdge(i, edge), id, node) == Breaker(s, id, node)
    ensures Breaker(s.TrySetCostModel(i, model), id, node) == Breaker(s, id, node)
    ensures Breaker(s.TrySetHealthPolicy(i, policy), id, node) == Breaker(s, id, node)
  {
    hide State.TrySetCostModel, State.TrySetHealthPolicy, State.AddEdge, TenantCostModel.Validate,
        HealthPolicy.Validate;
    AddEdgeEffect(s, i, edge);
    ConfigureEffect(s, i, model, policy);
  }

  /** Each step moves each breaker as this breaker alone would move, under its tenant's policy: other tenants, other
      nodes, routing and configuration do not touch it. */
  lemma StepBreaker(y: System, step: Step, id: TenantId, node: Node)
    requires Enabled(y, step)
    ensures Breaker(Next(y, step).s, id, node) ==
        Moved(Breaker(y.s, id, node), OpOf(step, id, node), y.s.TenantOf(id).policy)
  {
    hide Breaker, Health.Apply, State.Decide, State.Settle, OpenAll, State.ProbeList;
    var t := Breaker(y.s, id, node);
    MovedOne(t, HealthOp.Force, y.s.TenantOf(id).policy);
    match step {
      case AddTenant(i) => AdminBreaker(y.s, i, Edge("", "", Costs(NaN, NaN, 0, NaN), false), DEFAULT_MODEL,
          DEFAULT_POLICY, id, node);
      case SetModel(i, model) => AdminBreaker(y.s, i, Edge("", "", Costs(NaN, NaN, 0, NaN), false), model,
          DEFAULT_POLICY, id, node);
      case SetPolicy(i, policy) => AdminBreaker(y.s, i, Edge("", "", Costs(NaN, NaN, 0, NaN), false), DEFAULT_MODEL,
          policy, id, node);
      case AddEdge(i, edge) => AdminBreaker(y.s, i, edge, DEFAULT_MODEL, DEFAULT_POLICY, id, node);
      case Record(i, n, success, latency, now) =>
        MovedOne(t, Result(success, latency, now), y.s.TenantOf(id).policy);
        RecordBreaker(y.s, i, n, success, latency, now, id, node);
      case Force(i, n) => ForceBreaker(y.s, i, n, id, node);
      case Probe(cooldown, now, probed) =>
        MovedOne(t, HealthOp.Probe(cooldown, now), y.s.TenantOf(id).policy);
        ProbeBreaker(y.s, cooldown, now, probed, id, node);
      case ReadPhase(call, i, start, goal) => ReadBreaker(y, step, id, node);
      case WritePhase(call) =>
        WriteBreaker(y.s, y.calls[call].id, y.calls[call].start, y.calls[call].goal, id, node);
    }
  }

  lemma ForceBreaker(s: State, i: TenantId, n: Node, id: TenantId, node: Node)
    ensures Breaker(s.ForceHalfOpen(i, n), id, node) ==
            if i == id && n == node then Health.Apply(Breaker(s, id, node), HealthOp.Force, s.TenantOf(id).policy)
            else Breaker(s, id, node)
  {
    hide State.OpenProbe;
    if s.CanForce(i, n) {
      OpenProbeBreaker(s, (i, n), id, node);
    }
  }

  lemma ReadBreaker(y: System, step: Step, id: TenantId, node: Node)
    requires Enabled(y, step) && step.ReadPhase?
    ensures Breaker(Next(y, step).s, id, node) == Breaker(y.s, id, node)
  {
    hide State.FastPath;
  }

  lemma WriteBreaker(s: State, i: TenantId, start: Node, goal: Node, id: TenantId, node: Node)
    ensures Breaker(s.SlowPath(i, start, goal), id, node) == Breaker(s, id, node)
  {
    hide State.SlowPath, State.Decide;
    RouteEffect(s, i, start, goal);
  }

  /** The steps behind a run. */
  ghost predicate Driven(trace: seq<System>, steps: seq<Step>) {
    && |trace| == |steps| + 1 && trace[0] == START
    && forall i :: 0 <= i < |steps| ==> Drives(trace[i], steps[i], trace[i + 1])
  }

  ghost predicate Drives(y: System, step: Step, y': System) {
    Enabled(y, step) && Next(y, step) == y'
  }

  lemma {:induction false} StepsOfRun(trace: seq<System>) returns (steps: seq<Step>)
    requires IsRun(trace)
    ensures Driven(trace, steps)
  {
    hide Enabled, Next;
    var n := |trace| - 1;
    if n == 0 {
      steps := [];
    } else {
      var step := LastStep(trace);
      var front := StepsOfRun(trace[..n]);
      steps := front + [step];
      forall i | 0 <= i < |steps| ensures Drives(trace[i], steps[i], trace[i + 1]) {
        if i < n - 1 {
          assert Drives(trace[..n][i], front[i], trace[..n][i + 1]);
        }
      }
    }
  }

  /** The operations on one breaker among the steps of the router. */
  function OpsOf(steps: seq<Step>, id: TenantId, node: Node): seq<HealthOp> {
    if steps == [] then [] else OpsOf(steps[..|steps| - 1], id, node) + OpOf(steps[|steps| - 1], id, node)
  }

  lemma RunMoved(ops: seq<HealthOp>, step: Step, id: TenantId, node: Node, policy: HealthPolicy)
    ensures Health.Run(ops + OpOf(step, id, node), policy) ==
        Moved(Health.Run(ops, policy), OpOf(step, id, node), policy)
  {
    hide Health.Apply;
    var last := OpOf(step, id, node);
    if last == [] {
      assert ops + last == ops;
    } else {
      assert (ops + last)[..|ops|] == ops && last == [last[0]];
      MovedOne(Health.Run(ops, policy), last[0], policy);
    }
  }

  /** While a tenant keeps its policy, the breaker of a node is exactly the run of the results,
      forced probes and recovery
      probes of this node alone. All that is proved of such runs therefore holds in the router, under every
      interleaving. */
  lemma {:induction false} BreakerIsItsRun(trace: seq<System>, steps: seq<Step>, id: TenantId, node: Node,
    policy: HealthPolicy)
    requires Driven(trace, steps)
    requires forall i :: 0 <= i < |steps| ==> trace[i].s.TenantOf(id).policy == policy
    ensures Breaker(trace[|steps|].s, id, node) == Health.Run(OpsOf(steps, id, node), policy)
  {
    hide Enabled, Next, Health.Apply, Health.Run, OpOf;
    if steps == [] {
      RunEmpty(policy);
    } else {
      var n := |steps| - 1;
      assert Drives(trace[n], steps[n], trace[n + 1]);
      forall i | 0 <= i < n ensures Drives(trace[..n + 1][i], steps[..n][i], trace[..n + 1][i + 1]) {
        assert Drives(trace[i], steps[i], trace[i + 1]);
      }
      BreakerIsItsRun(trace[..n + 1], steps[..n], id, node, policy);
      StepBreaker(trace[n], steps[n], id, node);
      RunMoved(OpsOf(steps[..n], id, node), steps[n], id, node, policy);
    }
  }

  // ----- the health events of the log -----

  function StateIn(log: seq<AuditEvent>, id: TenantId, node: Node): NodeState {
    match LatestHealth(log, id, node) case Some(state) => state case None => Healthy
  }

  /** An event about a breaker is true to the log before it: a change is flagged exactly when the state is another one,
      and a probe opens only what was Open. */
  ghost predicate Truthful(log: seq<AuditEvent>, event: AuditEvent) {
    match event
    case HealthChanged(id, node, state, changed) => changed <==> state != StateIn(log, id, node)
    case RecoveryProbeOpened(id, node) => LatestHealth(log, id, node) == Some(Open)
    case _ => true
  }

  ghost predicate AllTruthful(log: seq<AuditEvent>) {
    forall i :: 0 <= i < |log| ==> Truthful(log[..i], log[i])
  }

  lemma PushTruthful(log: seq<AuditEvent>, event: AuditEvent)
    requires AllTruthful(log) && Truthful(log, event)
    ensures AllTruthful(log + [event])
  {
    hide Truthful;
    var log' := log + [event];
    forall i | 0 <= i < |log'| ensures Truthful(log'[..i], log'[i]) {
      assert log'[..i] == log[..i];
      assert log[..|log|] == log;
    }
  }

  lemma KnownState(s: State, id: TenantId, node: Node)
    requires Sound(s)
    ensures StateIn(s.log, id, node) == Breaker(s, id, node).state
    ensures LatestHealth(s.log, id, node) == Some(Open) <==> Breaker(s, id, node).state.Open?
  {
    hide RerouteSafe, TenantOk, LatestHealth;
    assert LatestHealth(s.log, id, node) == Known(s, id, node);
  }

  lemma {:induction false} ProbesTruthful(s: State, probed: seq<Pair>)
    requires Sound(s) && AllTruthful(s.log) && Once(probed)
    requires forall p :: p in probed ==>
               p.0 in s.tenants && p.1 in s.tenants[p.0].health && Breaker(s, p.0, p.1).state.Open?
    ensures AllTruthful(OpenAll(s, probed).log)
  {
    hide Sound, AllTruthful, Breaker;
    if probed != [] {
      var front, p := probed[..|probed| - 1], probed[|probed| - 1];
      ProbesTruthful(s, front);
      ProbesOk(s, front);
      ProbedBreakers(s, front, p.0, p.1);
      KnownState(OpenAll(s, front), p.0, p.1);
      PushTruthful(OpenAll(s, front).log, RecoveryProbeOpened(p.0, p.1));
      LogOfProbe(s, probed);
    }
  }

  lemma LogOfProbe(s: State, probed: seq<Pair>)
    requires probed != [] && probed[|probed| - 1].0 in OpenAll(s, probed[..|probed| - 1]).tenants
    ensures var p := probed[|probed| - 1];
            OpenAll(s, probed).log == OpenAll(s, probed[..|probed| - 1]).log + [RecoveryProbeOpened(p.0, p.1)]
  {
  }

  lemma StepTruthful(y: System, step: Step)
    requires Sound(y.s) && AllTruthful(y.s.log) && Enabled(y, step)
    ensures AllTruthful(Next(y, step).s.log)
  {
    hide Sound, AllTruthful, State.Decide, State.Settle, Tracker.Record, TenantCostModel.Validate,
        HealthPolicy.Validate;
    match step {
      case Record(id, node, success, latency, now) => RecordTruthful(y.s, id, node, success, latency, now);
      case Force(id, node) =>
        KnownState(y.s, id, node);
        if y.s.CanForce(id, node) {
          PushTruthful(y.s.log, RecoveryProbeOpened(id, node));
        }
      case Probe(cooldown, now, probed) =>
        forall p | p in probed
          ensures p.0 in y.s.tenants && p.1 in y.s.tenants[p.0].health && Breaker(y.s, p.0, p.1).state.Open?
        {
          assert y.s.Ready(p.0, p.1, cooldown, now);
        }
        ProbesTruthful(y.s, probed);
      case ReadPhase(_, id, start, goal) =>
        if y.s.FastPath(id, start, goal).Some? {
          PushTruthful(y.s.log, EventFor(id, start, goal, y.s.FastPath(id, start, goal).value));
        }
      case WritePhase(call) =>
        var c := y.calls[call];
        SettleKeepsLog(y.s, c.id, c.start, c.goal);
        PushTruthful(y.s.log, EventFor(c.id, c.start, c.goal, y.s.Decide(c.id, c.start, c.goal)));
      case _ =>
    }
  }

  lemma RecordTruthful(s: State, id: TenantId, node: Node, success: bool, latency: nat, now: Instant)
    requires Sound(s) && AllTruthful(s.log)
    ensures AllTruthful(s.RecordResult(id, node, success, latency, now).log)
  {
    hide Sound, AllTruthful, Tracker.Record;
    KnownState(s, id, node);
    var t := s.TenantOf(id);
    var state := t.StateAfter(node, success, latency, now);
    PushTruthful(s.log, HealthChanged(id, node, state, state != t.TrackerOf(node).state));
  }

  /** In every run, each health event of the log is true to the log before it. */
  lemma {:induction false} HealthEventsTruthful(trace: seq<System>)
    requires IsRun(trace)
    ensures AllTruthful(trace[|trace| - 1].s.log)
  {
    hide Enabled, Next, Interleaving.Follows, Truthful, Sound;
    var n := |trace| - 1;
    if n > 0 {
      var step := LastStep(trace);
      HealthEventsTruthful(trace[..n]);
      RunOk(trace, n - 1);
      StepTruthful(trace[n - 1], step);
    }
  }

  // ----- the route events of the log -----

  /** Every route event of the log belongs to a call that returned its decision,
      and the decision was right in a state of
      the run with exactly the log before the event. So a logged path leads from the start to the goal. */
  lemma RouteEventsRight(trace: seq<System>, i: nat) returns (j: nat, call: nat)
    requires IsRun(trace) && i < |trace[|trace| - 1].s.log| && FromRoute(trace[|trace| - 1].s.log[i])
    ensures var y := trace[|trace| - 1];
            && call in y.calls && y.calls[call].Returned? && y.calls[call].at == i
            && j < |trace| - 1 && trace[j].s.log == y.s.log[..i]
            && var c := y.calls[call];
            && RightIn(trace[j].s, c.id, c.start, c.goal, c.decision)
            && (match c.decision
                case Routed(route) =>
                  && y.s.log[i] == Reroute(c.id, c.start, c.goal, route.nodes, route.totalCost, route.cacheHit)
                  && route.nodes != [] && route.nodes[0] == c.start && route.nodes[|route.nodes| - 1] == c.goal
                case Escalate(context) => y.s.log[i] == ExplicitEscalation(context))
  {
    hide Sound, RightIn;
    RunOk(trace, |trace| - 1);
    var y := trace[|trace| - 1];
    call := y.owner[i].value;
    assert CallOk(y, call);
    j := DecisionsRight(trace, call);
    var c := y.calls[call];
    if c.decision.Routed? {
      RightEnds(trace[j].s, c.id, c.start, c.goal, c.decision.route);
    }
  }

  lemma RightEnds(s: State, id: TenantId, start: Node, goal: Node, route: Route)
    requires RightIn(s, id, start, goal, Routed(route))
    ensures route.nodes != [] && route.nodes[0] == start && route.nodes[|route.nodes| - 1] == goal
  {
    hide IsWalk, WalkNodes, Optimal;
    var t := s.tenants[id];
    var walk: seq<Edge> :| IsWalk(t.edges, t.health, t.model, start, goal, walk)
        && WalkNodes(start, walk) == route.nodes;
    WalkAvoidsOpen(t.edges, t.health, t.model, start, goal, walk);
  }
}
