/** The node lifecycle state machine and its bounded transition log. */
module Lifecycle {
  datatype NodeState = Healthy | Degraded | Suspect | Draining | Failed | Recovering

  /** A logged transition; reason and wall-clock time are left out. */
  datatype Transition = Transition(from: NodeState, to: NodeState, revision: nat)

  datatype Node = Node(
    state: NodeState, failures: nat, successes: nat, transitions: seq<Transition>, maxTransitions: nat, revision: nat)
  {
    function To(next: NodeState): Node {
      var kept := if |transitions| >= maxTransitions && transitions != [] then transitions[1..] else transitions;
      this.(revision := revision + 1, transitions := kept + [Transition(state, next, revision + 1)], state := next)
    }

    function Succeeded(): Node {
      var n := this.(successes := successes + 1, failures := 0);
      if state.Recovering? && n.successes >= 3 then n.To(Healthy)
      else if state.Degraded? && n.successes >= 2 then n.To(Healthy)
      else if state.Suspect? && n.successes >= 1 then n.To(Degraded)
      else n
    }

    function Failing(): Node {
      var n := this.(failures := failures + 1, successes := 0);
      if n.failures >= 5 && !state.Failed? then n.To(Failed)
      else if n.failures >= 3 && state.Healthy? then n.To(Suspect)
      else if n.failures >= 2 && (state.Healthy? || state.Degraded?) then n.To(Degraded)
      else n
    }

    function Drained(): Node {
      if state.Draining? then this else To(Draining)
    }

    function Recover(): Node {
      if state.Failed? then To(Recovering).(failures := 0, successes := 0) else this
    }
  }

  function NewNode(maxTransitions: nat): Node {
    Node(Healthy, 0, 0, [], if maxTransitions < 1 then 1 else if maxTransitions > 1000 then 1000 else maxTransitions, 0)
  }

  class NodeLifecycle {
    var state: NodeState
    var consecutiveFailures: nat
    var consecutiveSuccesses: nat
    var transitions: seq<Transition>
    const maxTransitions: nat
    var revision: nat

    function View(): Node
      reads this
    {
      Node(state, consecutiveFailures, consecutiveSuccesses, transitions, maxTransitions, revision)
    }

    constructor (maxTransitions: nat)
      ensures View() == NewNode(maxTransitions)
    {
      state, consecutiveFailures, consecutiveSuccesses, transitions, revision := Healthy, 0, 0, [], 0;
      this.maxTransitions := if maxTransitions < 1 then 1 else if maxTransitions > 1000 then 1000 else maxTransitions;
    }

    method TransitionTo(to: NodeState)
      modifies this
      ensures View() == old(View()).To(to)
    {
      revision := revision + 1;
      var record := Transition(state, to, revision);
      if |transitions| >= maxTransitions && transitions != [] {
        transitions := transitions[1..];
      }
      transitions := transitions + [record];
      state := to;
    }

    method RecordSuccess()
      modifies this
      ensures View() == old(View()).Succeeded()
    {
      consecutiveSuccesses := consecutiveSuccesses + 1;
      consecutiveFailures := 0;
      if state.Recovering? && consecutiveSuccesses >= 3 {
        TransitionTo(Healthy);
      } else if state.Degraded? && consecutiveSuccesses >= 2 {
        TransitionTo(Healthy);
      } else if state.Suspect? && consecutiveSuccesses >= 1 {
        TransitionTo(Degraded);
      }
    }

    method RecordFailure()
      modifies this
      ensures View() == old(View()).Failing()
    {
      consecutiveFailures := consecutiveFailures + 1;
      consecutiveSuccesses := 0;
      if consecutiveFailures >= 5 && !state.Failed? {
        TransitionTo(Failed);
      } else if consecutiveFailures >= 3 && state.Healthy? {
        TransitionTo(Suspect);
      } else if consecutiveFailures >= 2 && (state.Healthy? || state.Degraded?) {
        TransitionTo(Degraded);
      }
    }

    method Drain()
      modifies this
      ensures View() == old(View()).Drained()
    {
      if !state.Draining? {
        TransitionTo(Draining);
      }
    }

    method BeginRecovery()
      modifies this
      ensures View() == old(View()).Recover()
    {
      if state.Failed? {
        TransitionTo(Recovering);
        consecutiveFailures, consecutiveSuccesses := 0, 0;
      }
    }
  }

  // ----- runs -----

  datatype Event = Success | Failure | Drain | BeginRecovery

  function Apply(n: Node, e: Event): Node {
    match e
    case Success => n.Succeeded()
    case Failure => n.Failing()
    case Drain => n.Drained()
    case BeginRecovery => n.Recover()
  }

  function Run(maxTransitions: nat, events: seq<Event>): Node {
    if events == [] then NewNode(maxTransitions)
    else Apply(Run(maxTransitions, events[..|events| - 1]), events[|events| - 1])
  }

  /** The retained log is a gapless chain that ends in the current state and revision. */
  ghost predicate Chained(n: Node) {
    var log := n.transitions;
    && |log| == (if n.revision < n.maxTransitions then n.revision else n.maxTransitions)
    && (forall i :: 0 <= i < |log| ==> log[i].revision == n.revision - |log| + 1 + i)
    && (forall i :: 0 <= i < |log| - 1 ==> log[i].to == log[i + 1].from)
    && (if log == [] then n.state == Healthy else log[|log| - 1].to == n.state)
    && 1 <= n.maxTransitions <= 1000
  }

  lemma ToChained(n: Node, next: NodeState)
    requires Chained(n)
    ensures Chained(n.To(next))
  {
  }

  /** In every run the log chains, a Healthy node has failed at most once in a row, and Suspect is never entered. */
  lemma {:induction false} RunChained(maxTransitions: nat, events: seq<Event>)
    ensures var n := Run(maxTransitions, events);
            Chained(n) && (n.state.Healthy? ==> n.failures <= 1) && !n.state.Suspect?
            && (!n.state.Failed? && !n.state.Draining? ==> n.failures < 5)
            && (n.state.Recovering? ==> n.successes < 3) && (n.state.Degraded? ==> n.successes < 2)
  {
    if events != [] {
      RunChained(maxTransitions, events[..|events| - 1]);
      var n := Run(maxTransitions, events[..|events| - 1]);
      hide Chained;
      LogStep(n, events[|events| - 1]);
    }
  }

  /** The log does not depend on the counters. */
  lemma CountersApart(n: Node, failures: nat, successes: nat)
    ensures Chained(n.(failures := failures, successes := successes)) <==> Chained(n)
  {
  }

  lemma LogStep(n: Node, e: Event)
    requires Chained(n)
    ensures Chained(Apply(n, e))
  {
    hide Chained, Node.To;
    var s := n.(successes := n.successes + 1, failures := 0);
    var f := n.(failures := n.failures + 1, successes := 0);
    CountersApart(n, 0, n.successes + 1);
    CountersApart(n, n.failures + 1, 0);
    match e {
      case Success =>
        ToChained(s, Healthy);
        ToChained(s, Degraded);
      case Failure =>
        ToChained(f, Failed);
        ToChained(f, Suspect);
        ToChained(f, Degraded);
      case Drain => ToChained(n, Draining);
      case BeginRecovery =>
        ToChained(n, Recovering);
        CountersApart(n.To(Recovering), 0, 0);
    }
  }

  /** Every transition ever made, for comparison with the bounded log. */
  function Made(maxTransitions: nat, events: seq<Event>): seq<Transition> {
    if events == [] then []
    else
      var before := Run(maxTransitions, events[..|events| - 1]);
      var after := Run(maxTransitions, events);
      Made(maxTransitions, events[..|events| - 1]) +
      if after.revision > before.revision then [Transition(before.state, after.state, after.revision)] else []
  }

  /** An event logs nothing, or exactly one transition from the old state to the new one. */
  lemma StepLog(n: Node, e: Event)
    ensures var m := Apply(n, e);
            || (m.revision == n.revision && m.transitions == n.transitions && m.state == n.state)
            || (m.revision == n.revision + 1 && m.transitions == n.To(m.state).transitions)
    ensures Apply(n, e).maxTransitions == n.maxTransitions
  {
  }

  lemma SuffixPush(made: seq<Transition>, n: Node, next: NodeState)
    requires |n.transitions| <= |made| && n.transitions == made[|made| - |n.transitions|..]
    ensures var log := n.To(next).transitions; var made' := made + [Transition(n.state, next, n.revision + 1)];
            |log| <= |made'| && log == made'[|made'| - |log|..]
  {
  }

  /** The log holds exactly the last min(revision, max) transitions of the whole history. */
  lemma {:induction false} LogIsSuffix(maxTransitions: nat, events: seq<Event>)
    ensures var n := Run(maxTransitions, events); var made := Made(maxTransitions, events);
            && |made| == n.revision && |n.transitions| <= |made|
            && n.transitions == made[|made| - |n.transitions|..]
  {
    hide Apply, Node.To;
    if events != [] {
      var front := events[..|events| - 1];
      LogIsSuffix(maxTransitions, front);
      var before := Run(maxTransitions, front);
      StepLog(before, events[|events| - 1]);
      SuffixPush(Made(maxTransitions, front), before, Run(maxTransitions, events).state);
    }
  }

  predicate All(events: seq<Event>, e: Event) {
    forall i :: 0 <= i < |events| ==> events[i] == e
  }

  lemma RunStep(maxTransitions: nat, events: seq<Event>)
    requires events != []
    ensures Run(maxTransitions, events) == Apply(Run(maxTransitions, events[..|events| - 1]), events[|events| - 1])
  {
  }

  /** Five failures in a row end in Failed, whatever came before, draining included. */
  lemma {:induction false} FailuresFail(maxTransitions: nat, before: seq<Event>, fails: seq<Event>)
    requires All(fails, Failure)
    ensures var n := Run(maxTransitions, before + fails); n.failures >= |fails| && (|fails| >= 5 ==> n.state.Failed?)
  {
    hide Run;
    if fails != [] {
      var events := before + fails;
      assert events[..|events| - 1] == before + fails[..|fails| - 1];
      FailuresFail(maxTransitions, before, fails[..|fails| - 1]);
      RunStep(maxTransitions, events);
    }
  }

  /** A recovering node is Healthy with its third success in a row, a degraded one with its second, not earlier. */
  lemma {:induction false} RecoversIff(maxTransitions: nat, before: seq<Event>, successes: seq<Event>)
    requires All(successes, Success)
    requires var s := Run(maxTransitions, before).state; s.Recovering? || s.Degraded?
    ensures var was, n := Run(maxTransitions, before), Run(maxTransitions, before + successes);
            && n.successes == was.successes + |successes|
            && n.state == if n.successes >= (if was.state.Recovering? then 3 else 2) then Healthy else was.state
  {
    hide Run;
    if successes == [] {
      assert before + successes == before;
      RunChained(maxTransitions, before);
    } else {
      var events := before + successes;
      assert events[..|events| - 1] == before + successes[..|successes| - 1];
      RecoversIff(maxTransitions, before, successes[..|successes| - 1]);
      RunStep(maxTransitions, events);
    }
  }

  // ----- every transition, in terms of the run before it -----

  /** Failures since the last success, or since a recovery began. */
  function TrailingFailures(maxTransitions: nat, events: seq<Event>): nat {
    if events == [] then 0
    else
      var front := events[..|events| - 1];
      match events[|events| - 1]
      case Success => 0
      case Failure => TrailingFailures(maxTransitions, front) + 1
      case Drain => TrailingFailures(maxTransitions, front)
      case BeginRecovery => if Run(maxTransitions, front).state.Failed? then 0
          else TrailingFailures(maxTransitions, front)
  }

  /** Successes since the last failure, or since a recovery began. */
  function TrailingSuccesses(maxTransitions: nat, events: seq<Event>): nat {
    if events == [] then 0
    else
      var front := events[..|events| - 1];
      match events[|events| - 1]
      case Success => TrailingSuccesses(maxTransitions, front) + 1
      case Failure => 0
      case Drain => TrailingSuccesses(maxTransitions, front)
      case BeginRecovery => if Run(maxTransitions, front).state.Failed? then 0
          else TrailingSuccesses(maxTransitions, front)
  }

  lemma {:induction false} CountersTrail(maxTransitions: nat, events: seq<Event>)
    ensures Run(maxTransitions, events).failures == TrailingFailures(maxTransitions, events)
    ensures Run(maxTransitions, events).successes == TrailingSuccesses(maxTransitions, events)
  {
    if events != [] {
      CountersTrail(maxTransitions, events[..|events| - 1]);
    }
  }

  /** A failure leads to Failed from the fifth in a row on, from any state; before that a Healthy or Degraded node goes
      to Degraded with the second (again and again, each time logged), and every other case changes nothing. */
  lemma FailureOutcome(maxTransitions: nat, events: seq<Event>)
    ensures var was, now := Run(maxTransitions, events), Run(maxTransitions, events + [Failure]);
            var f := TrailingFailures(maxTransitions, events) + 1;
            var degrades := 2 <= f < 5 && (was.state.Healthy? || was.state.Degraded?);
            && now.state == (if f >= 5 then Failed else if degrades then Degraded else was.state)
            && now.revision == was.revision + if degrades || (f >= 5 && !was.state.Failed?) then 1 else 0
  {
    assert (events + [Failure])[..|events|] == events;
    CountersTrail(maxTransitions, events);
    RunChained(maxTransitions, events);
  }

  /** A success heals a Recovering node with the third in a row and a Degraded one with the second,
      and otherwise changes
      nothing; draining leads to Draining from everywhere, and recovery begins exactly at a Failed node. */
  lemma OtherOutcomes(maxTransitions: nat, events: seq<Event>)
    ensures var was := Run(maxTransitions, events); var now := Run(maxTransitions, events + [Success]);
            var s := TrailingSuccesses(maxTransitions, events) + 1;
            var heals := (was.state.Recovering? && s >= 3) || (was.state.Degraded? && s >= 2);
            && now.state == (if heals then Healthy else was.state)
            && now.revision == was.revision + if heals then 1 else 0
    ensures var was := Run(maxTransitions, events); var now := Run(maxTransitions, events + [Drain]);
            && now.state == Draining && now.revision == was.revision + if was.state.Draining? then 0 else 1
    ensures var was := Run(maxTransitions, events); var now := Run(maxTransitions, events + [BeginRecovery]);
            && now.state == (if was.state.Failed? then Recovering else was.state)
            && now.revision == was.revision + if was.state.Failed? then 1 else 0
    ensures Run(maxTransitions, []).state == Healthy && Run(maxTransitions, []).revision == 0
    ensures var kept := Run(maxTransitions, []).maxTransitions;
            if maxTransitions < 1 then kept == 1 else if maxTransitions > 1000 then kept == 1000
                else kept == maxTransitions
  {
    assert (events + [Success])[..|events|] == events && (events + [Drain])[..|events|] == events;
    assert (events + [BeginRecovery])[..|events|] == events;
    CountersTrail(maxTransitions, events);
    RunChained(maxTransitions, events);
  }
}
