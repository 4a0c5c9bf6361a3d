/** The four-state circuit breaker. */
module Health {
  import opened Prelude
  import opened CostModel
  import Ewma
  import Latency

  datatype NodeState = Healthy | Degraded | Open | HalfOpen

  /** A point on the monotonic clock, and a span on it. */
  type Instant = int
  type Duration = nat

  datatype HealthPolicy = HealthPolicy(
    openThreshold: nat, degradedThreshold: nat,
    halfOpenSuccessNeeded: nat, degradedSuccessNeeded: nat, cooldown: Duration)
  {
    function Validate(): Option<RouterError> {
      if degradedThreshold == 0 || openThreshold == 0 then
        Some(InvalidHealthPolicy("failure thresholds must be greater than zero"))
      else if degradedThreshold > openThreshold then
        Some(InvalidHealthPolicy("degraded_threshold cannot exceed open_threshold"))
      else if halfOpenSuccessNeeded == 0 || degradedSuccessNeeded == 0 then
        Some(InvalidHealthPolicy("success thresholds must be greater than zero"))
      else if cooldown == 0 then
        Some(InvalidHealthPolicy("cooldown must be greater than zero"))
      else None
    }

    predicate Valid() {
      Validate().None?
    }
  }

  /** Thresholds 5, 2, 3, 2 and thirty seconds (here in nanoseconds). */
  const DEFAULT_POLICY := HealthPolicy(5, 2, 3, 2, 30_000_000_000)

  /** The value of a tracker. */
  datatype Tracker = Tracker(
    state: NodeState, failures: nat, successes: nat, p99: nat, successRate: real,
    openedAt: Option<Instant>, samples: seq<nat>)
  {
    /** Added to the cost of every edge into the node. */
    function Penalty(): Float {
      var latency := p99 as real / 10000.0;
      var unreliability := 1.0 - Clamp(successRate, 0.0, 1.0);
      match state
      case Healthy => Finite(latency + unreliability)
      case Degraded => Finite(0.5 + latency + unreliability)
      case HalfOpen => Finite(0.3 + latency + unreliability)
      case Open => Infinity
    }

    function WithSample(latency: nat): Tracker {
      var window := Latency.Push(samples, latency);
      this.(samples := window, p99 := Latency.P99(window))
    }

    function Record(success: bool, latency: nat, policy: HealthPolicy, now: Instant): Tracker {
      var t := WithSample(latency);
      if success then
        var t := t.(successes := successes + 1, failures := 0, successRate := (successRate * 9.0 + 1.0) / 10.0);
        if (state.HalfOpen? && t.successes >= policy.halfOpenSuccessNeeded)
           || (state.Degraded? && t.successes >= policy.degradedSuccessNeeded)
        then t.(state := Healthy, openedAt := None)
        else t
      else
        var next := if failures + 1 >= policy.openThreshold then Open
                    else if failures + 1 >= policy.degradedThreshold then Degraded
                    else state;
        t.(failures := failures + 1, successes := 0, successRate := successRate * 9.0 / 10.0, state := next,
           openedAt := if next.Open? && !state.Open? then Some(now) else openedAt)
    }

    predicate Ready(cooldown: Duration, now: Instant) {
      state.Open? && openedAt.Some? && (if now < openedAt.value then 0 else now - openedAt.value) >= cooldown
    }

    /** The one transition out of Open that a probe makes. */
    function HalfOpened(): Tracker {
      this.(state := HalfOpen, successes := 0)
    }
  }

  const FRESH := Tracker(Healthy, 0, 0, 0, 1.0, None, [])

  /** The breakers of one tenant; a node without results has none. */
  type HealthMap = map<string, Tracker>

  function StateOf(health: HealthMap, node: string): NodeState {
    if node in health then health[node].state else Healthy
  }

  function PenaltyOf(health: HealthMap, node: string): Float {
    if node in health then health[node].Penalty() else Finite(0.0)
  }

  /** An Open node is fenced off; every other state adds a non-negative penalty. */
  lemma PenaltyRange(health: HealthMap, node: string)
    ensures PenaltyOf(health, node).Infinity? <==> StateOf(health, node).Open?
    ensures !PenaltyOf(health, node).Infinity? ==> PenaltyOf(health, node).NonNegative()
  {
  }

  /** At the same latency and success rate HalfOpen costs more than Healthy and Degraded more than HalfOpen;
      a slower or less reliable node costs more in any state that is not Open. */
  lemma PenaltyGrades(a: Tracker, b: Tracker)
    requires a.p99 <= b.p99 && b.successRate <= a.successRate
    ensures a.state.Healthy? && !b.state.Healthy? ==> a.Penalty().Less(b.Penalty())
    ensures a.state.HalfOpen? && b.state.Degraded? ==> a.Penalty().Less(b.Penalty())
    ensures a.state == b.state && !a.state.Open? ==> a.Penalty().value <= b.Penalty().value
    ensures a.state == b.state && !a.state.Open? && a.p99 < b.p99 ==> a.Penalty().Less(b.Penalty())
  {
  }

  /** What the penalty charges: ten seconds of p99 latency as much as losing every result, being HalfOpen 0.3 and being
      Degraded 0.5, each on its own; a node without results nothing. */
  lemma PenaltyParts(a: Tracker, b: Tracker, health: HealthMap, node: string)
    requires !a.state.Open? && !b.state.Open?
    requires 0.0 <= a.successRate <= 1.0 && 0.0 <= b.successRate <= 1.0
    ensures a.state == b.state ==>
              (b.Penalty().value - a.Penalty().value) * 10000.0 ==
              (b.p99 - a.p99) as real + 10000.0 * (a.successRate - b.successRate)
    ensures a == b.(state := a.state) && b.state.Healthy? ==>
              a.Penalty().value - b.Penalty().value ==
              (match a.state case Degraded => 0.5 case HalfOpen => 0.3 case _ => 0.0)
    ensures node !in health ==> PenaltyOf(health, node) == FRESH.Penalty() == Finite(0.0)
  {
  }

  // ----- the tracker as the object the router mutates -----

  class HealthTracker {
    var state: NodeState
    var consecutiveFailures: nat
    var consecutiveSuccesses: nat
    var p99LatencyMs: nat
    var successRate: real
    var openedAt: Option<Instant>
    var latencySamples: seq<nat>

    function View(): Tracker
      reads this
    {
      Tracker(state, consecutiveFailures, consecutiveSuccesses, p99LatencyMs, successRate, openedAt, latencySamples)
    }

    constructor ()
      ensures View() == FRESH
    {
      state, consecutiveFailures, consecutiveSuccesses := Healthy, 0, 0;
      p99LatencyMs, successRate, openedAt, latencySamples := 0, 1.0, None, [];
    }

    method RecordLatencySample(latencyMs: nat)
      modifies this
      ensures View() == old(View()).WithSample(latencyMs)
    {
      if |latencySamples| == Latency.SAMPLE_LIMIT {
        latencySamples := latencySamples[1..];
      }
      latencySamples := latencySamples + [latencyMs];
      var samples := Sort(Latency.CompareNat, latencySamples);
      var index := Latency.Index(|samples|);
      p99LatencyMs := samples[index];
    }

    method RecordResultWithPolicy(success: bool, latencyMs: nat, policy: HealthPolicy, now: Instant)
      returns (changed: bool)
      modifies this
      ensures View() == old(View()).Record(success, latencyMs, policy, now)
      ensures changed <==> state != old(state)
    {
      var previousState := state;
      RecordLatencySample(latencyMs);
      if success {
        consecutiveSuccesses := consecutiveSuccesses + 1;
        consecutiveFailures := 0;
        successRate := (successRate * 9.0 + 1.0) / 10.0;
        if state.HalfOpen? && consecutiveSuccesses >= policy.halfOpenSuccessNeeded {
          state, openedAt := Healthy, None;
        } else if state.Degraded? && consecutiveSuccesses >= policy.degradedSuccessNeeded {
          state, openedAt := Healthy, None;
        }
      } else {
        consecutiveFailures := consecutiveFailures + 1;
        consecutiveSuccesses := 0;
        successRate := successRate * 9.0 / 10.0;
        if consecutiveFailures >= policy.openThreshold {
          state := Open;
        } else if consecutiveFailures >= policy.degradedThreshold {
          state := Degraded;
        }
        if state.Open? && !previousState.Open? {
          openedAt := Some(now);
        }
      }
      changed := previousState != state;
    }

    method TransitionToHalfOpenIfReady(cooldown: Duration, now: Instant) returns (moved: bool)
      modifies this
      ensures moved <==> old(View()).Ready(cooldown, now)
      ensures View() == if moved then old(View()).HalfOpened() else old(View())
    {
      if !state.Open? || openedAt.None? {
        return false;
      }
      var elapsed := if now < openedAt.value then 0 else now - openedAt.value;
      if elapsed < cooldown {
        return false;
      }
      state, consecutiveSuccesses := HalfOpen, 0;
      return true;
    }

    method ForceHalfOpen() returns (moved: bool)
      modifies this
      ensures moved <==> old(state).Open?
      ensures View() == if moved then old(View()).HalfOpened() else old(View())
    {
      if !state.Open? {
        return false;
      }
      state, consecutiveSuccesses := HalfOpen, 0;
      return true;
    }
  }

  // ----- every run of one tracker under a fixed valid policy -----

  datatype HealthOp =
    | Result(success: bool, latency: nat, now: Instant)
    | Probe(cooldown: Duration, now: Instant)
    | Force

  function Apply(t: Tracker, op: HealthOp, policy: HealthPolicy): Tracker {
    match op
    case Result(success, latency, now) => t.Record(success, latency, policy, now)
    case Probe(cooldown, now) => if t.Ready(cooldown, now) then t.HalfOpened() else t
    case Force => if t.state.Open? then t.HalfOpened() else t
  }

  function Run(ops: seq<HealthOp>, policy: HealthPolicy): Tracker {
    if ops == [] then FRESH else Apply(Run(ops[..|ops| - 1], policy), ops[|ops| - 1], policy)
  }

  lemma RunStep(ops: seq<HealthOp>, policy: HealthPolicy)
    requires ops != []
    ensures Run(ops, policy) == Apply(Run(ops[..|ops| - 1], policy), ops[|ops| - 1], policy)
  {
  }

  lemma RunEmpty(policy: HealthPolicy)
    ensures Run([], policy) == FRESH
  {
  }

  /** Failed results since the last successful one; probes in between do not count. */
  function TrailingFailures(ops: seq<HealthOp>): nat {
    if ops == [] then 0
    else
      var last := ops[|ops| - 1];
      if !last.Result? then TrailingFailures(ops[..|ops| - 1])
      else if last.success then 0
      else 1 + TrailingFailures(ops[..|ops| - 1])
  }

  /** The last operation was a probe that took effect. */
  predicate ProbeOpened(ops: seq<HealthOp>, policy: HealthPolicy)
    requires ops != []
  {
    !ops[|ops| - 1].Result? && Run(ops[..|ops| - 1], policy).state.Open? && Run(ops, policy).state.HalfOpen?
  }

  /** The last operation brought the breaker into Open. */
  predicate EnteredOpen(ops: seq<HealthOp>, policy: HealthPolicy)
    requires ops != []
  {
    !Run(ops[..|ops| - 1], policy).state.Open? && Run(ops, policy).state.Open?
  }

  /** Successes since the last failure and since the last probe that took effect. */
  function TrailingSuccesses(ops: seq<HealthOp>, policy: HealthPolicy): nat {
    if ops == [] then 0
    else
      var last := ops[|ops| - 1];
      var before := TrailingSuccesses(ops[..|ops| - 1], policy);
      if last.Result? then (if last.success then 1 + before else 0)
      else if ProbeOpened(ops, policy) then 0 else before
  }

  /** When the breaker last went from another state to Open. */
  function LastOpened(ops: seq<HealthOp>, policy: HealthPolicy): Option<Instant> {
    if ops == [] then None
    else if EnteredOpen(ops, policy) && ops[|ops| - 1].Result? then Some(ops[|ops| - 1].now)
    else LastOpened(ops[..|ops| - 1], policy)
  }

  function Latencies(ops: seq<HealthOp>): seq<nat> {
    if ops == [] then []
    else Latencies(ops[..|ops| - 1]) + if ops[|ops| - 1].Result? then [ops[|ops| - 1].latency] else []
  }

  /** The counters are the trailing runs, and each state pins down what led to it. */
  lemma {:induction false} TrackerHistory(ops: seq<HealthOp>, policy: HealthPolicy)
    requires policy.Valid()
    ensures var t := Run(ops, policy);
            && t.failures == TrailingFailures(ops)
            && t.successes == TrailingSuccesses(ops, policy)
            && (t.state.Open? || t.state.HalfOpen? ==> t.openedAt.Some? && t.openedAt == LastOpened(ops, policy))
            && (t.openedAt.Some? ==> t.openedAt == LastOpened(ops, policy))
            && (t.state.Healthy? ==> t.failures < policy.degradedThreshold && t.openedAt.None?)
            && (t.state.Degraded? ==> t.failures < policy.openThreshold && t.successes < policy.degradedSuccessNeeded)
            && (t.state.HalfOpen? ==> t.successes < policy.halfOpenSuccessNeeded)
            && 0.0 <= t.successRate <= 1.0
  {
    hide Latency.P99, Latency.Push;
    if ops != [] {
      TrackerHistory(ops[..|ops| - 1], policy);
    }
  }

  /** The window and p99 of a tracker are those of the latencies it was given. */
  lemma {:induction false} TrackerLatency(ops: seq<HealthOp>, policy: HealthPolicy)
    ensures var t := Run(ops, policy); var latencies := Latencies(ops);
            t.samples == Latency.Window(latencies) &&
            (latencies != [] ==> t.samples != [] && t.p99 == Latency.P99(t.samples))
  {
    hide Latency.P99, Run;
    if ops == [] {
      assert Run(ops, policy) == FRESH by { RunEmpty(policy); }
    } else {
      TrackerLatency(ops[..|ops| - 1], policy);
      RunStep(ops, policy);
      var before := Latencies(ops[..|ops| - 1]);
      if ops[|ops| - 1].Result? {
        assert (before + [ops[|ops| - 1].latency])[..|before|] == before;
      } else {
        assert before + [] == before;
      }
    }
  }

  /** The results of a run as numbers, after the 1.0 a fresh tracker starts from. */
  function Outcomes(ops: seq<HealthOp>): (r: seq<real>)
    ensures r != []
  {
    if ops == [] then [1.0]
    else
      var last := ops[|ops| - 1];
      Outcomes(ops[..|ops| - 1]) + if last.Result? then [if last.success then 1.0 else 0.0] else []
  }

  /** The success rate is the exponentially weighted mean of all results with smoothing factor 0.1. */
  lemma {:induction false} SuccessRateIsEwma(ops: seq<HealthOp>, policy: HealthPolicy)
    ensures Run(ops, policy).successRate == Ewma.Mean(0.1, Outcomes(ops))
  {
    hide Latency.P99, Latency.Push, Ewma.Mean, Ewma.Variance, Ewma.NextVariance, Run;
    if ops == [] {
      RunEmpty(policy);
      Ewma.FirstStep(0.1, 1.0);
    } else {
      var front, last := ops[..|ops| - 1], ops[|ops| - 1];
      SuccessRateIsEwma(front, policy);
      RunStep(ops, policy);
      if last.Result? {
        Ewma.UpdateStep(0.1, Outcomes(front), if last.success then 1.0 else 0.0);
      } else {
        assert Outcomes(front) + [] == Outcomes(front);
      }
    }
  }

  // ----- every transition, in terms of the run before it -----

  /** The breaker opens exactly with a failed result that finds it not Open and completes a run of at least
      `open_threshold` failures. */
  lemma OpensIff(ops: seq<HealthOp>, policy: HealthPolicy)
    requires policy.Valid() && ops != []
    ensures EnteredOpen(ops, policy) <==>
              && ops[|ops| - 1].Result? && !ops[|ops| - 1].success
              && !Run(ops[..|ops| - 1], policy).state.Open? && TrailingFailures(ops) >= policy.openThreshold
  {
    hide Latency.P99, Latency.Push;
    TrackerHistory(ops[..|ops| - 1], policy);
  }

  /** A failed result, from any state: Open at `open_threshold` failures in a row, Degraded at `degraded_threshold`,
      and otherwise nothing. */
  lemma FailureOutcome(ops: seq<HealthOp>, policy: HealthPolicy, latency: nat, now: Instant)
    requires policy.Valid()
    ensures var all := ops + [Result(false, latency, now)];
            && TrailingFailures(all) == TrailingFailures(ops) + 1
            && (TrailingFailures(all) >= policy.openThreshold ==> Run(all, policy).state == Open)
            && (policy.degradedThreshold <= TrailingFailures(all) < policy.openThreshold ==>
                Run(all, policy).state == Degraded)
            && (TrailingFailures(all) < policy.degradedThreshold ==> Run(all, policy).state == Run(ops, policy).state)
  {
    hide Latency.P99, Latency.Push;
    var all := ops + [Result(false, latency, now)];
    assert all[..|ops|] == ops;
    TrackerHistory(ops, policy);
  }

  /** A successful result heals a HalfOpen or Degraded breaker when it completes the run asked for, and otherwise leaves
      every state as it is. */
  lemma SuccessOutcome(ops: seq<HealthOp>, policy: HealthPolicy, latency: nat, now: Instant)
    requires policy.Valid()
    ensures var was, all := Run(ops, policy).state, ops + [Result(true, latency, now)];
            && TrailingSuccesses(all, policy) == TrailingSuccesses(ops, policy) + 1
            && (Run(all, policy).state != was <==>
                  || (was.HalfOpen? && TrailingSuccesses(all, policy) >= policy.halfOpenSuccessNeeded)
                  || (was.Degraded? && TrailingSuccesses(all, policy) >= policy.degradedSuccessNeeded))
            && (Run(all, policy).state != was ==> Run(all, policy).state == Healthy)
  {
    hide Latency.P99, Latency.Push;
    var all := ops + [Result(true, latency, now)];
    assert all[..|ops|] == ops;
    TrackerHistory(ops, policy);
  }

  /** A recovery probe acts exactly on an Open breaker whose latest entry into Open lies at least the cooldown back (a
      time before that entry counts as no time at all), a forced one on every Open breaker; both lead to HalfOpen. */
  lemma ProbeOutcome(ops: seq<HealthOp>, policy: HealthPolicy, cooldown: Duration, now: Instant)
    requires policy.Valid()
    ensures var was := Run(ops, policy);
            && (was.state.Open? ==> LastOpened(ops, policy).Some?)
            && (if was.state.Open? && (now - LastOpened(ops, policy).value >= cooldown || cooldown == 0)
                then Run(ops + [Probe(cooldown, now)], policy).state == HalfOpen
                else Run(ops + [Probe(cooldown, now)], policy) == was)
            && (if was.state.Open? then Run(ops + [Force], policy).state == HalfOpen
                else Run(ops + [Force], policy) == was)
  {
    hide Latency.P99, Latency.Push, Run;
    TrackerHistory(ops, policy);
    hide TrailingFailures, TrailingSuccesses, LastOpened;
    assert (ops + [Probe(cooldown, now)])[..|ops|] == ops && (ops + [Force])[..|ops|] == ops;
    RunStep(ops + [Probe(cooldown, now)], policy);
    RunStep(ops + [Force], policy);
  }

  /** A tracker starts Healthy; a policy is accepted exactly within these bounds, and the default one is. */
  lemma PolicyValidIff(p: HealthPolicy)
    ensures Run([], p).state == Healthy && Run([], p).Penalty() == Finite(0.0)
    ensures p.Valid() <==> 0 < p.degradedThreshold <= p.openThreshold
                           && p.halfOpenSuccessNeeded > 0 && p.degradedSuccessNeeded > 0 && p.cooldown > 0
    ensures p.Validate() == Some(InvalidHealthPolicy("failure thresholds must be greater than zero")) <==>
              p.degradedThreshold == 0 || p.openThreshold == 0
    ensures p.Validate() == Some(InvalidHealthPolicy("degraded_threshold cannot exceed open_threshold")) <==>
              p.degradedThreshold > p.openThreshold > 0
    ensures p.degradedThreshold <= p.openThreshold && p.degradedThreshold > 0 ==>
              (p.Validate() == Some(InvalidHealthPolicy("success thresholds must be greater than zero")) <==>
               p.halfOpenSuccessNeeded == 0 || p.degradedSuccessNeeded == 0)
    ensures p.Validate() == Some(InvalidHealthPolicy("cooldown must be greater than zero")) ==> p.cooldown == 0
    ensures DEFAULT_POLICY.Valid() && DEFAULT_POLICY.openThreshold == 5 && DEFAULT_POLICY.degradedThreshold == 2
    ensures DEFAULT_POLICY.halfOpenSuccessNeeded == 3 && DEFAULT_POLICY.degradedSuccessNeeded == 2
    ensures DEFAULT_POLICY.cooldown == 30 * 1_000_000_000
  {
  }

  predicate AllResults(ops: seq<HealthOp>, success: bool) {
    forall i :: 0 <= i < |ops| ==> ops[i].Result? && ops[i].success == success
  }

  lemma {:induction false} FailuresAddUp(before: seq<HealthOp>, fails: seq<HealthOp>)
    requires AllResults(fails, false)
    ensures TrailingFailures(before + fails) == TrailingFailures(before) + |fails|
  {
    if fails == [] {
      assert before + fails == before;
    } else {
      FailuresAddUp(before, fails[..|fails| - 1]);
      assert (before + fails)[..|before + fails| - 1] == before + fails[..|fails| - 1];
    }
  }

  /** `open_threshold` failures in a row end in Open, whatever came before. */
  lemma FailuresOpen(before: seq<HealthOp>, fails: seq<HealthOp>, policy: HealthPolicy)
    requires policy.Valid() && AllResults(fails, false) && |fails| >= policy.openThreshold
    ensures Run(before + fails, policy).state == Open
  {
    var ops := before + fails;
    FailuresAddUp(before, fails);
    TrackerHistory(ops[..|ops| - 1], policy);
    TrackerHistory(ops, policy);
    assert ops[|ops| - 1] == fails[|fails| - 1];
  }

  /** Successes alone never leave Open. */
  lemma {:induction false} SuccessesStayOpen(before: seq<HealthOp>, successes: seq<HealthOp>, policy: HealthPolicy)
    requires Run(before, policy).state == Open && AllResults(successes, true)
    ensures Run(before + successes, policy).state == Open
  {
    hide Latency.P99, Latency.Push, Run;
    if successes == [] {
      assert before + successes == before;
    } else {
      var ops := before + successes;
      RunStep(ops, policy);
      SuccessesStayOpen(before, successes[..|successes| - 1], policy);
      assert ops[..|ops| - 1] == before + successes[..|successes| - 1];
    }
  }

  /** A breaker that is HalfOpen or Degraded becomes Healthy with exactly the success that completes the run the
      policy asks for, and until then stays as it is. */
  lemma {:induction false} RecoversIff(before: seq<HealthOp>, successes: seq<HealthOp>, policy: HealthPolicy)
    requires policy.Valid() && AllResults(successes, true)
    requires Run(before, policy).state.HalfOpen? || Run(before, policy).state.Degraded?
    ensures var was := Run(before, policy).state;
            var needed := if was.HalfOpen? then policy.halfOpenSuccessNeeded else policy.degradedSuccessNeeded;
            Run(before + successes, policy).state ==
              if TrailingSuccesses(before, policy) + |successes| >= needed then Healthy else was
    ensures Run(before + successes, policy).successes == TrailingSuccesses(before, policy) + |successes|
  {
    hide Latency.P99, Latency.Push, Run;
    if successes == [] {
      assert before + successes == before;
      TrackerHistory(before, policy);
    } else {
      var ops := before + successes;
      assert ops[..|ops| - 1] == before + successes[..|successes| - 1];
      RecoversIff(before, successes[..|successes| - 1], policy);
      RunStep(ops, policy);
    }
  }

  /** A failed probe reopens the breaker only when the failures in a row, counted across the probe, reach the
      threshold; a success in between keeps the next failure from doing so. */
  lemma FailedProbeReopensIff(ops: seq<HealthOp>, policy: HealthPolicy, latency: nat, now: Instant)
    requires policy.Valid() && Run(ops, policy).state.HalfOpen?
    ensures Run(ops + [Result(false, latency, now)], policy).state.Open? <==>
        TrailingFailures(ops) + 1 >= policy.openThreshold
  {
    var all := ops + [Result(false, latency, now)];
    assert all[..|ops|] == ops;
    TrackerHistory(ops, policy);
  }

  /** The exception happens under the default policy: opened, probed, one success, one failure, and not Open. */
  lemma FailedProbeStaysHalfOpen(fails: seq<HealthOp>, latency: nat, now: Instant)
    requires AllResults(fails, false) && |fails| >= DEFAULT_POLICY.openThreshold
    ensures Run(fails + [Force] + [Result(true, latency, now)]
        + [Result(false, latency, now)], DEFAULT_POLICY).state.HalfOpen?
  {
    hide Latency.P99, Latency.Push, Run;
    FailuresOpen([], fails, DEFAULT_POLICY);
    assert [] + fails == fails;
    var a := fails + [Force];
    var b := a + [Result(true, latency, now)];
    var c := b + [Result(false, latency, now)];
    assert a[..|fails|] == fails && b[..|a|] == a && c[..|b|] == b;
    RunStep(a, DEFAULT_POLICY);
    assert Run(a, DEFAULT_POLICY).state.HalfOpen? && Run(a, DEFAULT_POLICY).successes == 0;
    RunStep(b, DEFAULT_POLICY);
    assert Run(b, DEFAULT_POLICY).state.HalfOpen? && Run(b, DEFAULT_POLICY).failures == 0;
    RunStep(c, DEFAULT_POLICY);
  }
}
