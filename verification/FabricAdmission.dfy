/** Load shedding with two relaxed atomic counters: every load and every add is a step of its own. */
module FabricAdmission {
  datatype Decision = Accept | Queue | Shed

  /** Where a thread stands in `evaluate`. */
  datatype Pc = Idle | Accepting | FullSeen | Queueing

  /** The two counters, the threads, and how often each counter was raised and lowered. */
  datatype System = System(
    limit: nat, maxQueue: nat, active: int, queue: int, threads: seq<Pc>,
    accepts: nat, completes: nat, enqueues: nat, dequeues: nat)

  datatype Step = LoadActive(i: nat) | AddActive(i: nat) | LoadQueue(i: nat) | AddQueue(i: nat) | Complete | Dequeue

  /** A thread takes its next step; a caller completes or dequeues only what was accepted or queued. */
  predicate Enabled(s: System, step: Step) {
    match step
    case LoadActive(i) => i < |s.threads| && s.threads[i].Idle?
    case AddActive(i) => i < |s.threads| && s.threads[i].Accepting?
    case LoadQueue(i) => i < |s.threads| && s.threads[i].FullSeen?
    case AddQueue(i) => i < |s.threads| && s.threads[i].Queueing?
    case Complete => s.completes < s.accepts
    case Dequeue => s.dequeues < s.enqueues
  }

  function Next(s: System, step: Step): System
    requires Enabled(s, step)
  {
    match step
    case LoadActive(i) => s.(threads := s.threads[i := if s.active < s.limit then Accepting else FullSeen])
    case AddActive(i) => s.(threads := s.threads[i := Idle], active := s.active + 1, accepts := s.accepts + 1)
    case LoadQueue(i) => s.(threads := s.threads[i := if s.queue < s.maxQueue then Queueing else Idle])
    case AddQueue(i) => s.(threads := s.threads[i := Idle], queue := s.queue + 1, enqueues := s.enqueues + 1)
    case Complete => s.(active := s.active - 1, completes := s.completes + 1)
    case Dequeue => s.(queue := s.queue - 1, dequeues := s.dequeues + 1)
  }

  function Start(limit: nat, maxQueue: nat, t: nat): System {
    System(limit, maxQueue, 0, 0, seq(t, _ => Idle), 0, 0, 0, 0)
  }

  ghost predicate Leads(s: System, steps: seq<Step>, s': System)
    decreases |steps|
  {
    if steps == [] then s == s'
    else Enabled(s, steps[0]) && Leads(Next(s, steps[0]), steps[1..], s')
  }

  function Count(threads: seq<Pc>, pc: Pc): nat {
    if threads == [] then 0 else (if threads[0] == pc then 1 else 0) + Count(threads[1..], pc)
  }

  lemma {:induction false} CountSet(threads: seq<Pc>, i: nat, now: Pc, pc: Pc)
    requires i < |threads|
    ensures Count(threads[i := now], pc) ==
            Count(threads, pc) - (if threads[i] == pc then 1 else 0) + if now == pc then 1 else 0
    ensures threads[i] != pc ==> Count(threads, pc) < |threads|
  {
    CountBound(threads[1..], pc);
    if i > 0 {
      CountSet(threads[1..], i - 1, now, pc);
      assert threads[i := now][1..] == threads[1..][i - 1 := now];
    }
  }

  lemma {:induction false} CountBound(threads: seq<Pc>, pc: Pc)
    ensures Count(threads, pc) <= |threads|
  {
    if threads != [] {
      CountBound(threads[1..], pc);
    }
  }

  /** Claims in flight count against the limit, which the threads can overrun by one each but the first. */
  ghost predicate Inv(s: System) {
    var t := |s.threads|;
    && t > 0
    && s.active == s.accepts - s.completes && s.completes <= s.accepts
    && s.queue == s.enqueues - s.dequeues && s.dequeues <= s.enqueues
    && s.active + Count(s.threads, Accepting) <= s.limit + t - 1
    && s.queue + Count(s.threads, Queueing) <= s.maxQueue + t - 1
  }

  lemma InvStep(s: System, step: Step)
    requires Inv(s) && Enabled(s, step)
    ensures Inv(Next(s, step))
  {
    match step {
      case LoadActive(i) =>
        var now := if s.active < s.limit then Accepting else FullSeen;
        CountSet(s.threads, i, now, Accepting);
        CountSet(s.threads, i, now, Queueing);
      case AddActive(i) =>
        CountSet(s.threads, i, Idle, Accepting);
        CountSet(s.threads, i, Idle, Queueing);
      case LoadQueue(i) =>
        var now := if s.queue < s.maxQueue then Queueing else Idle;
        CountSet(s.threads, i, now, Accepting);
        CountSet(s.threads, i, now, Queueing);
      case AddQueue(i) =>
        CountSet(s.threads, i, Idle, Accepting);
        CountSet(s.threads, i, Idle, Queueing);
      case _ =>
    }
  }

  lemma {:induction false} InvRun(s: System, steps: seq<Step>, s': System)
    requires Inv(s) && Leads(s, steps, s')
    ensures Inv(s') && |s'.threads| == |s.threads| && s'.limit == s.limit && s'.maxQueue == s.maxQueue
    decreases |steps|
  {
    if steps != [] {
      InvStep(s, steps[0]);
      InvRun(Next(s, steps[0]), steps[1..], s');
    }
  }

  lemma {:induction false} CountIdle(t: nat, pc: Pc)
    requires pc != Idle
    ensures Count(seq(t, _ => Idle), pc) == 0
  {
    if t > 0 {
      assert seq(t, _ => Idle)[1..] == seq(t - 1, _ => Idle);
      CountIdle(t - 1, pc);
    }
  }

  /** However `t` threads interleave, the limits are overrun by at most t - 1, claims in flight included,
      and the counters are exactly what was accepted and queued minus what was released. */
  lemma OverrunBound(limit: nat, maxQueue: nat, t: nat, steps: seq<Step>, s: System)
    requires t > 0 && Leads(Start(limit, maxQueue, t), steps, s)
    ensures 0 <= s.active && s.active + Count(s.threads, Accepting) <= limit + t - 1
    ensures 0 <= s.queue && s.queue + Count(s.threads, Queueing) <= maxQueue + t - 1
    ensures s.active == s.accepts - s.completes && s.queue == s.enqueues - s.dequeues
    ensures t == 1 ==> s.active <= limit && s.queue <= maxQueue
  {
    CountIdle(t, Accepting);
    CountIdle(t, Queueing);
    InvRun(Start(limit, maxQueue, t), steps, s);
  }

  // ----- the bound is reached -----

  lemma {:induction false} LeadsJoin(s: System, a: seq<Step>, m: System, b: seq<Step>, s': System)
    requires Leads(s, a, m) && Leads(m, b, s')
    ensures Leads(s, a + b, s')
    decreases |a|
  {
    if a == [] {
      assert a + b == b;
    } else {
      LeadsJoin(Next(s, a[0]), a[1..], m, b, s');
      assert (a + b)[0] == a[0] && (a + b)[1..] == a[1..] + b;
    }
  }

  lemma LeadsTwo(s: System, a: Step, b: Step)
    requires Enabled(s, a) && Enabled(Next(s, a), b)
    ensures Leads(s, [a, b], Next(Next(s, a), b))
  {
    assert [a, b][1..] == [b] && [b][1..] == [];
    assert Leads(Next(Next(s, a), b), [], Next(Next(s, a), b));
    assert Leads(Next(s, a), [b], Next(Next(s, a), b));
  }

  lemma LeadsOne(s: System, a: Step)
    requires Enabled(s, a)
    ensures Leads(s, [a], Next(s, a))
  {
    assert [a][1..] == [];
    assert Leads(Next(s, a), [], Next(s, a));
  }

  /** The first `k` threads stand at `to`, the others still at `from`. */
  function Swept(s: System, from: Pc, to: Pc, k: nat): System {
    var t := |s.threads|;
    s.(threads := seq(t, i => if i < k then to else from))
  }

  /** The step of thread `i` moves it from `from` to `to` and changes nothing else. */
  ghost predicate Moves(s: System, from: Pc, to: Pc, step: nat -> Step) {
    forall threads: seq<Pc>, i: nat :: |threads| == |s.threads| && i < |threads| && threads[i] == from ==>
      Enabled(s.(threads := threads), step(i))
          && Next(s.(threads := threads), step(i)) == s.(threads := threads[i := to])
  }

  /** One thread after the other takes the same step. */
  lemma {:induction false} Sweep(s: System, from: Pc, to: Pc, step: nat -> Step, k: nat) returns (steps: seq<Step>)
    requires Moves(s, from, to, step) && k <= |s.threads|
    ensures Leads(Swept(s, from, to, 0), steps, Swept(s, from, to, k))
  {
    if k == 0 {
      steps := [];
    } else {
      var front := Sweep(s, from, to, step, k - 1);
      var m := Swept(s, from, to, k - 1);
      assert s.(threads := m.threads) == m && m.threads[k - 1] == from;
      LeadsOne(m, step(k - 1));
      assert m.threads[k - 1 := to] == Swept(s, from, to, k).threads;
      LeadsJoin(Swept(s, from, to, 0), front, m, [step(k - 1)], Swept(s, from, to, k));
      steps := front + [step(k - 1)];
    }
  }

  lemma SweptAll(s: System, from: Pc, to: Pc, onward: Pc)
    ensures Swept(s, from, to, |s.threads|) == Swept(s, to, onward, 0)
  {
  }

  /** `n` requests accepted and `q` queued, with every thread at `pc`. */
  function At(limit: nat, maxQueue: nat, t: nat, n: nat, q: nat, pc: Pc): System {
    System(limit, maxQueue, n, q, seq(t, _ => pc), n, 0, q, 0)
  }

  /** Thread 0 alone fills the limit, then the queue. */
  lemma {:induction false} Fill(limit: nat, maxQueue: nat, t: nat, n: nat, q: nat) returns (steps: seq<Step>)
    requires t > 0 && n <= limit && q <= maxQueue && (q > 0 ==> n == limit)
    ensures Leads(Start(limit, maxQueue, t), steps, At(limit, maxQueue, t, n, q, Idle))
    decreases n + q
  {
    var goal := At(limit, maxQueue, t, n, q, Idle);
    if q > 0 {
      var s := At(limit, maxQueue, t, n, q - 1, Idle);
      var front := Fill(limit, maxQueue, t, n, q - 1);
      var full := Next(s, LoadActive(0));
      LeadsOne(s, LoadActive(0));
      LeadsTwo(full, LoadQueue(0), AddQueue(0));
      assert Next(Next(full, LoadQueue(0)), AddQueue(0)).threads == s.threads;
      LeadsJoin(s, [LoadActive(0)], full, [LoadQueue(0), AddQueue(0)], goal);
      steps := [LoadActive(0)] + [LoadQueue(0), AddQueue(0)];
      LeadsJoin(Start(limit, maxQueue, t), front, s, steps, goal);
      steps := front + steps;
    } else if n > 0 {
      var s := At(limit, maxQueue, t, n - 1, 0, Idle);
      var front := Fill(limit, maxQueue, t, n - 1, 0);
      LeadsTwo(s, LoadActive(0), AddActive(0));
      assert Next(Next(s, LoadActive(0)), AddActive(0)).threads == s.threads;
      LeadsJoin(Start(limit, maxQueue, t), front, s, [LoadActive(0), AddActive(0)], goal);
      steps := front + [LoadActive(0), AddActive(0)];
    } else {
      steps := [];
    }
  }

  /** `k` of the threads that read the counter below its limit have added to it. */
  function Accepted(s: System, k: nat): System {
    Swept(s, Accepting, Idle, k).(active := s.active + k, accepts := s.accepts + k)
  }

  function Queued(s: System, k: nat): System {
    Swept(s, Queueing, Idle, k).(queue := s.queue + k, enqueues := s.enqueues + k)
  }

  lemma {:induction false} AddAllActive(s: System, k: nat) returns (steps: seq<Step>)
    requires k <= |s.threads|
    ensures Leads(Accepted(s, 0), steps, Accepted(s, k))
  {
    if k == 0 {
      steps := [];
    } else {
      var front := AddAllActive(s, k - 1);
      LeadsOne(Accepted(s, k - 1), AddActive(k - 1));
      assert Next(Accepted(s, k - 1), AddActive(k - 1)).threads == Accepted(s, k).threads;
      LeadsJoin(Accepted(s, 0), front, Accepted(s, k - 1), [AddActive(k - 1)], Accepted(s, k));
      steps := front + [AddActive(k - 1)];
    }
  }

  lemma {:induction false} AddAllQueue(s: System, k: nat) returns (steps: seq<Step>)
    requires k <= |s.threads|
    ensures Leads(Queued(s, 0), steps, Queued(s, k))
  {
    if k == 0 {
      steps := [];
    } else {
      var front := AddAllQueue(s, k - 1);
      LeadsOne(Queued(s, k - 1), AddQueue(k - 1));
      assert Next(Queued(s, k - 1), AddQueue(k - 1)).threads == Queued(s, k).threads;
      LeadsJoin(Queued(s, 0), front, Queued(s, k - 1), [AddQueue(k - 1)], Queued(s, k));
      steps := front + [AddQueue(k - 1)];
    }
  }

  function LoadsActive(i: nat): Step { LoadActive(i) }

  function LoadsQueue(i: nat): Step { LoadQueue(i) }

  lemma LoadingMoves(s: System)
    ensures s.active < s.limit ==> Moves(s, Idle, Accepting, LoadsActive)
    ensures s.active >= s.limit ==> Moves(s, Idle, FullSeen, LoadsActive)
    ensures s.queue < s.maxQueue ==> Moves(s, FullSeen, Queueing, LoadsQueue)
  {
  }

  lemma SweptNone(s: System, from: Pc, to: Pc)
    requires forall i :: 0 <= i < |s.threads| ==> s.threads[i] == from
    ensures Swept(s, from, to, 0) == s
  {
    assert Swept(s, from, to, 0).threads == s.threads;
  }

  /** The overrun is real: `t` threads can drive the counter to exactly limit + t - 1. */
  lemma OverrunReached(limit: nat, maxQueue: nat, t: nat) returns (steps: seq<Step>, s: System)
    requires limit > 0 && t > 0
    ensures Leads(Start(limit, maxQueue, t), steps, s) && s.active == limit + t - 1
  {
    hide Leads, Moves, Next, Enabled, Start;
    var start, full := Start(limit, maxQueue, t), At(limit, maxQueue, t, limit - 1, 0, Idle);
    s := Accepted(full, t);
    LoadingMoves(full);
    var a := Fill(limit, maxQueue, t, limit - 1, 0);
    var b := Sweep(full, Idle, Accepting, LoadsActive, t);
    var c := AddAllActive(full, t);
    SweptAll(full, Idle, Accepting, Idle);
    SweptNone(full, Idle, Accepting);
    assert Accepted(full, 0) == Swept(full, Accepting, Idle, 0);
    hide Swept;
    LeadsJoin(start, a, full, b, Accepted(full, 0));
    LeadsJoin(start, a + b, Accepted(full, 0), c, s);
    steps := a + b + c;
  }

  /** So is that of the queue, to exactly maxQueue + t - 1. */
  lemma QueueOverrunReached(limit: nat, maxQueue: nat, t: nat) returns (steps: seq<Step>, s: System)
    requires maxQueue > 0 && t > 0
    ensures Leads(Start(limit, maxQueue, t), steps, s) && s.queue == maxQueue + t - 1
  {
    var start, full := Start(limit, maxQueue, t), At(limit, maxQueue, t, limit, maxQueue - 1, Idle);
    s := Queued(full, t);
    LoadingMoves(full);
    hide Leads, Moves, Next, Enabled;
    var a := Fill(limit, maxQueue, t, limit, maxQueue - 1);
    var b := Sweep(full, Idle, FullSeen, LoadsActive, t);
    var c := Sweep(full, FullSeen, Queueing, LoadsQueue, t);
    var d := AddAllQueue(full, t);
    SweptAll(full, Idle, FullSeen, Queueing);
    SweptAll(full, FullSeen, Queueing, Idle);
    assert Swept(full, Idle, FullSeen, 0).threads == full.threads;
    LeadsJoin(start, a, full, b, Swept(full, FullSeen, Queueing, 0));
    LeadsJoin(start, a + b, Swept(full, FullSeen, Queueing, 0), c, Queued(full, 0));
    LeadsJoin(start, a + b + c, Queued(full, 0), d, s);
    steps := a + b + c + d;
  }

  // ----- the controller used by one thread -----

  /** The atomic steps of an undisturbed call of thread 0, by its decision. */
  function StepsOf(d: Decision): seq<Step> {
    match d
    case Accept => [LoadActive(0), AddActive(0)]
    case Queue => [LoadActive(0), LoadQueue(0), AddQueue(0)]
    case Shed => [LoadActive(0), LoadQueue(0)]
  }

  lemma LeadsThree(s: System, a: Step, b: Step, c: Step)
    requires Enabled(s, a) && Enabled(Next(s, a), b) && Enabled(Next(Next(s, a), b), c)
    ensures Leads(s, [a, b, c], Next(Next(Next(s, a), b), c))
  {
    LeadsTwo(Next(s, a), b, c);
    assert [a, b, c][1..] == [b, c];
  }

  class AdmissionController {
    const globalConcurrencyLimit: nat
    const maxQueueDepth: nat
    var activeRequests: nat
    var queueDepth: nat
    /** How often each counter was raised; with the counters, also how often it was lowered. */
    ghost var accepts: nat
    ghost var enqueues: nat

    ghost predicate Valid()
      reads this
    {
      activeRequests <= accepts && queueDepth <= enqueues
    }

    /** The system of this controller and one idle thread. */
    ghost function View(): System
      requires Valid()
      reads this
    {
      System(globalConcurrencyLimit, maxQueueDepth, activeRequests, queueDepth, [Idle],
             accepts, accepts - activeRequests, enqueues, enqueues - queueDepth)
    }

    constructor (limit: nat, maxQueue: nat)
      ensures Valid() && View() == Start(limit, maxQueue, 1)
    {
      globalConcurrencyLimit, maxQueueDepth, activeRequests, queueDepth := limit, maxQueue, 0, 0;
      accepts, enqueues := 0, 0;
      new;
      assert [Idle] == seq(1, _ => Idle);
    }

    /** Undisturbed, a call accepts below the limit, then queues below the depth, then sheds; it takes the atomic
        steps of the interleaved system. */
    method Evaluate() returns (d: Decision)
      requires Valid()
      modifies this
      ensures Valid() && Leads(old(View()), StepsOf(d), View())
      ensures d == if old(activeRequests) < globalConcurrencyLimit then Accept
                   else if old(queueDepth) < maxQueueDepth then Queue else Shed
      ensures activeRequests == old(activeRequests) + if d.Accept? then 1 else 0
      ensures queueDepth == old(queueDepth) + if d.Queue? then 1 else 0
      ensures old(activeRequests) <= globalConcurrencyLimit ==> activeRequests <= globalConcurrencyLimit
      ensures old(queueDepth) <= maxQueueDepth ==> queueDepth <= maxQueueDepth
    {
      hide Leads;
      ghost var s := View();
      var active := activeRequests;
      if active < globalConcurrencyLimit {
        activeRequests := activeRequests + 1;
        accepts := accepts + 1;
        LeadsTwo(s, LoadActive(0), AddActive(0));
        assert View().threads == Next(Next(s, LoadActive(0)), AddActive(0)).threads;
        return Accept;
      }
      var queue := queueDepth;
      if queue < maxQueueDepth {
        queueDepth := queueDepth + 1;
        enqueues := enqueues + 1;
        LeadsThree(s, LoadActive(0), LoadQueue(0), AddQueue(0));
        assert View().threads == Next(Next(Next(s, LoadActive(0)), LoadQueue(0)), AddQueue(0)).threads;
        return Queue;
      }
      LeadsTwo(s, LoadActive(0), LoadQueue(0));
      assert View().threads == Next(Next(s, LoadActive(0)), LoadQueue(0)).threads;
      return Shed;
    }

    method Complete()
      requires Valid() && activeRequests > 0
      modifies this
      ensures Valid() && View() == Next(old(View()), Step.Complete)
    {
      activeRequests := activeRequests - 1;
    }

    method Dequeue()
      requires Valid() && queueDepth > 0
      modifies this
      ensures Valid() && View() == Next(old(View()), Step.Dequeue)
    {
      queueDepth := queueDepth - 1;
    }
  }
}
