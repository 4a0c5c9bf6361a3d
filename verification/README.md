# Trust Router: a verified model

Trust Router chooses a path of tools for an agent. Each tenant owns a graph of tools with measured costs, a
four-state circuit breaker for every tool, and a bounded cache of computed paths. A request is answered from the
cache under a read lock or searched under a write lock, and every decision and every health change is logged.
Around this core the repository has deterministic planners for inference placement, numeric trackers, two admission
controllers, a rate limiter, leases, a node lifecycle and a hash-chained audit ring.

This project models that core and the components around it in Dafny and proves what they promise.

`dafny verify dfyconfig.toml` checks everything.

## How the model is built

Components that the program mutates are classes with the program's fields, methods and loops (`Graphs.ToolGraph`,
`Health.HealthTracker`, `Tenants.TenantState`, `Routers.Router`, `Ewma.EwmaTracker`, `TokenBucket.Limiter`,
`Lease.InMemoryLeaseStore`, `Lifecycle.NodeLifecycle`, `AuditChain.AuditChain` and both `AdmissionController`s). In all
but three, each method is proved equal to one step on the value of the object, and the theorems about all runs are
stated over those steps. The exceptions are `Ewma.EwmaTracker`, whose `Update` is specified directly by the history of
accepted samples; `Tenants.AuditPipeline`, whose ring is specified by the history of events; and
`FabricAdmission.AdmissionController`, whose `Evaluate` is proved to take a sequence of two or three atomic steps of the
interleaved system.

| module | what it holds |
|---|---|
| `Prelude` | floats as reals with infinities and NaN, `Ordering`, the stable sort, one-pass filters |
| `CostModel`, `Latency`, `Health` | edge weights, the rolling p99, the circuit breaker |
| `Dijkstra` | the search loop on ids: one iteration as a function, its invariant, its bounds |
| `Multigraph`, `Graphs` | interning, walks over named edges, optimality; the graph object with the search loop |
| `RouteCache` | the bounded cache and its recency queue |
| `RouterSteps`, `RouterSafety`, `Interleaving` | every router operation as a step, what each step keeps, all runs |
| `Effects` | what each router operation changes, field by field, and what it keeps |
| `Decisions`, `Histories`, `ReadHits` | what decisions, cache entries, log events and breakers are worth over whole runs; the run that shows the cache is no LRU |
| `RecoveryProbe`, `Tenants`, `Routers` | the two sweeps of a probe; `TenantState` and `AuditPipeline`; the `Router` object |
| `Inference`, `SystemPlanning` | the two deterministic planners |
| `Ewma`, `TokenBucket` | the trackers and limiters with real arithmetic |
| `FabricAdmission`, `Admission` | racy admission on atomic counters; admission under a mutex |
| `Lease`, `Lifecycle`, `AuditChain` | fencing epochs, the lifecycle log, the hash chain |

**Concurrency.** A lock phase is one atomic step. `route` is two: a read-lock phase that may answer from the cache, and
a write-lock phase that looks again before it searches. Between the two any number of other steps may happen, of any
tenant. An event is pushed while the lock is held, in the same step. In `FabricAdmission` each atomic load and each
atomic add is a step of its own.

**Time.** Every call to a clock is a parameter. Where a theorem needs the clock not to run backwards it says so.

## Where the code and its documents disagree

The model follows the code.

- README.md:38, README.md:114 and ARCHITECTURE.md:149 speak of a SHA-256 chain. `AuditRecord::compute_hash` takes
  md5 of three fields joined by `-` without escaping, so two appends can differ and yet produce the same hash, whatever
  the digest (`AuditChain.JoinCollides`). The chain protects more than that suggests, because every record after the
  first must name a digest as its predecessor. Under every digest of one fixed length, the length and the last hash
  determine the ring from its second record on, up to a collision of the digest that the two chains exhibit, exactly
  when no dash-delimited segment of a later event id (but its first) or actor (but its last) is as long as a digest;
  for the 32 digits of md5, ids of at most 32 characters always qualify. The oldest record alone can be read differently if its event id or actor holds a
  dash, because nothing checks that the chain starts at "genesis" (`AuditChain.TamperEvidentIff`,
  `AuditChain.TamperEvident`, `AuditChain.FirstRecordRereadable`).
- README.md:106 says an Open node is completely fenced out. The start of a route is not: its breaker has no
  influence on routing at all (`Multigraph.StartBreakerIgnored`), and every other node of a route is fenced
  (`Interleaving.NoRerouteThroughOpen`).
- README.md:79 and ARCHITECTURE.md:139 call the cache LRU. A hit under the read lock does not count as a use; a
  just-read entry is the next victim exactly under the condition of `RouterSafety.ReadHitSurvivesIff`, and
  `ReadHits.LastUsedEvicted` is a run in which the entry used last of all is evicted.
- The test at src/lib.rs:1487 suggests that a failed probe reopens the circuit. It does exactly when the failures in a
  row, counted across the probe, reach the threshold (`Health.FailedProbeReopensIff`); one success in between is enough to
  prevent it under the default policy (`Health.FailedProbeStaysHalfOpen`).
- A placement whose estimate holds a NaN passes the gates, fails scoring, and is then missing from the list of
  rejections, because it is looked up again with `==` (`SystemPlanning.RejectionsExact`, `SystemPlanning.LostIsSilent`).
- Admission on atomic counters overruns its limit by at most the number of threads minus one, and that many are
  reachable, for the active counter and for the queue (`FabricAdmission.OverrunBound`,
  `FabricAdmission.OverrunReached`, `FabricAdmission.QueueOverrunReached`).
- A clock that steps back makes the token bucket refill the same span twice (`TokenBucket.ClockStepBack`). What bounds
  the grants on any clock is how far it moved forward (`TokenBucket.RateBound`).
- `NodeLifecycle` has a Suspect state that no run enters (`Lifecycle.RunChained`).
- An audit ring of capacity 0 grows without bound (`Tenants.Retained`); the router uses 10 000.

## Model

| member | source | states |
|---|---|---|
| Multigraph.ShortestPathCorrect | src/lib.rs:1012-1097 | for every list of added edges, health map and cost model: a returned route is a walk over enabled, valid edges into nodes that are not Open, its total is the walk's cost and minimal among all walks, no node repeats; None exactly when there is no walk; start equal to goal costs nothing |
| Multigraph.RouteCharges | src/lib.rs:1012-1097 | the same in the terms of the inputs alone: a route follows added edges that are enabled, finite and not into Open nodes, its total is the sum over them of weight plus target penalty, no such path is charged less, and None means there is none |
| Multigraph.WalkIsPath | src/lib.rs:1064-1083 | the walks of the proofs are exactly these paths, at the same cost |
| Graphs.ToolGraph.ShortestPath | src/lib.rs:1012-1097 | the method with distance and predecessor vectors, heap loop and path reconstruction returns exactly that route, for the edges added to this object |
| Graphs.ToolGraph.Explore | src/lib.rs:1029-1097 | the main loop terminates and ends as the run of `Dijkstra.Iterate` does, goal test before stale test, with the path the predecessors spell |
| Graphs.ToolGraph.RelaxNode | src/lib.rs:1064-1093 | the inner loop over outgoing edges performs the relaxations of one expansion, skipping disabled, invalid and infinite edges |
| Graphs.ToolGraph.StoredCost | src/lib.rs:1065-1083 | the looked-up edge cost is the arc's cost: weight plus penalty of the target, or skipped |
| Graphs.ToolGraph.WalkBack | src/lib.rs:1043-1052 | the unguarded predecessor loop terminates and names the nodes from start to goal |
| Graphs.ToolGraph.PopTop | src/lib.rs:1041 | yields the entry the max-heap order puts first |
| Graphs.ToolGraph.AddEdge | src/lib.rs:999-1010 | the object stores the edges added so far plus the new one |
| Graphs.ToolGraph.GetOrInsertNode | src/lib.rs:987-997 | a known name keeps its id, a new one gets the next; ids and names stay in bijection |
| Graphs.PathAt | src/lib.rs:1042-1052 | whenever the goal is popped its predecessors lead back to the start |
| Multigraph.BuildStores | src/lib.rs:987-1010 | interning loses nothing: adjacency lists hold every added edge once, parallel ones included, in insertion order |
| Multigraph.BuildNames | src/lib.rs:999-1010 | an interned name is the endpoint of an added edge |
| Multigraph.EdgeCostMeaning | src/lib.rs:1065-1083 | an edge is usable exactly when it is enabled and valid, the model is valid and its target is not Open; it then costs its weight plus the penalty of its target, which is never negative |
| Multigraph.WalkBounded | src/lib.rs:1041-1094 | at any moment of the search no walk is cheaper than its end's distance and every queue entry |
| Multigraph.PathIsWalk | src/lib.rs:1043-1052 | the predecessors spell a walk of the named multigraph whose cost is the goal's distance |
| Multigraph.FoundOptimal | src/lib.rs:1042-1058 | popping the goal yields an optimal route |
| Multigraph.StartBreakerIgnored | src/lib.rs:1067-1083 | two health maps that differ only at the start give a route or none alike, at the same cost |
| Multigraph.StaysOptimal | src/lib.rs:1067-1083 | an optimal route stays optimal while the penalties on its way are unchanged and no other is lower |
| Multigraph.PopBound | src/lib.rs:1041-1094 | a search over the built graph pops at most 1 + number of added edges entries |
| Dijkstra.InvStep | src/lib.rs:1041-1094 | every iteration keeps the settled-set invariant: queue exact for unexpanded nodes, frontier above expanded ones, edges of expanded nodes relaxed, predecessors expanded earlier |
| Dijkstra.Reached | src/lib.rs:1041-1094 | the invariant holds in every state the search passes through |
| Dijkstra.WorkBound | src/lib.rs:1041-1094 | pops plus queued entries never exceed 1 + number of edges, so the loop ends |
| Dijkstra.ExpandedOnce | src/lib.rs:1060-1094 | no two iterations expand the same node, zero-cost edges or not |
| Dijkstra.GoalPop | src/lib.rs:1042-1058 | the first popped goal entry carries the goal's distance, a lower bound for all walks, although staleness is tested later |
| Dijkstra.EmptyQueue | src/lib.rs:1041-1096 | an empty queue excludes every walk to the goal |
| Dijkstra.BoundStep | src/lib.rs:1085-1092 | extending a walk by an edge keeps it from undercutting the search |
| Dijkstra.LastState | src/lib.rs:1041-1096 | the outcome follows from the last state before the loop ended, which satisfies the invariant |
| Dijkstra.BackPath | src/lib.rs:1043-1052 | from any reached node the predecessors lead to the start over edges that explain the distances, without repeating a node |
| Dijkstra.BackPathUnique | src/lib.rs:1043-1052 | the predecessor walk is unique |
| Dijkstra.Top | src/lib.rs:1122-1130 | the heap order leaves no choice of the entry to pop |
| Dijkstra.TopMeaning | src/lib.rs:1122-1130 | the popped entry is the cheapest, and among equally cheap ones that of the largest node id |
| CostModel.WeightRange | src/lib.rs:961-977 | a weight is finite exactly for a valid edge under a valid model, and then between 0 and the sum of the tenant's weights |
| CostModel.WeightMonotone | src/lib.rs:961-977 | raising any cost of an edge never lowers its weight |
| CostModel.WeightAtCeilings | src/lib.rs:961-977 | a zero cost adds nothing, a cost at or above its ceiling adds exactly its own weight, in every combination of the four |
| CostModel.WeightLinear | src/lib.rs:961-977 | up to the ceilings the weight is linear: each cost counts with its own weight, per its own ceiling |
| CostModel.WeightSaturates | src/lib.rs:1100-1106 | a cost above its ceiling weighs what the ceiling weighs |
| CostModel.ModelValidIff | src/lib.rs:117-183 | which models are accepted and what is complained about; the defaults, whose weights sum to 1 |
| Health.TrackerHistory | src/lib.rs:292-374 | in every run under a valid policy the counters are the trailing failures and the successes since the last probe; Open and HalfOpen remember the latest entry into Open; Healthy has none and fewer failures than the degraded threshold; Degraded has fewer than the open threshold; both HalfOpen and Degraded have fewer successes than would heal them |
| Health.OpensIff | src/lib.rs:320-334 | over every run, an operation brings the breaker into Open exactly when it is a failed result, the state was another one and the failures in a row reach the open threshold |
| Health.FailureOutcome | src/lib.rs:320-334 | a failed result from any state: Open from the open threshold on, Degraded from the degraded threshold on, and below it no change |
| Health.SuccessOutcome | src/lib.rs:302-319 | a successful result changes the state exactly when it completes the run that heals a HalfOpen or Degraded breaker |
| Health.ProbeOutcome | src/lib.rs:348-374 | a recovery probe acts exactly on an Open breaker whose latest entry into Open is at least the cooldown ago, a forced one on every Open breaker |
| Health.PolicyValidIff | src/lib.rs:34-88 | which policies are accepted and what is complained about; the defaults; a tracker starts Healthy at no penalty |
| Health.FailuresOpen | src/lib.rs:320-334 | open-threshold failures in a row end in Open from any state |
| Health.SuccessesStayOpen | src/lib.rs:301-319 | successes alone never leave Open |
| Health.RecoversIff | src/lib.rs:302-319 | a HalfOpen or Degraded breaker turns Healthy with exactly the success that completes the run the policy asks for, and stays as it is until then |
| Health.FailedProbeReopensIff | src/lib.rs:320-334 | a failure in HalfOpen reopens exactly when the failures in a row reach the threshold |
| Health.FailedProbeStaysHalfOpen | src/lib.rs:324-328 | under the default policy: opened, probed, one success, one failure, and still HalfOpen |
| Health.TrackerLatency | src/lib.rs:337-346 | the window and the p99 of a tracker are those of the latencies it was given, across all operations |
| Health.SuccessRateIsEwma | src/lib.rs:302-323 | after any run the success rate is the exponentially weighted mean of all results with factor 0.1, starting from 1 |
| Health.PenaltyRange | src/lib.rs:376-387 | the penalty is infinite exactly for an Open node and otherwise not negative |
| Health.PenaltyGrades | src/lib.rs:376-387 | at equal measurements Healthy is cheaper than HalfOpen and HalfOpen than Degraded; slower or less reliable nodes cost more |
| Health.PenaltyParts | src/lib.rs:376-387 | latency counts per ten seconds, lost reliability one for one, HalfOpen 0.3 and Degraded 0.5, each on its own; an unknown node counts nothing |
| Health.HealthTracker.RecordResultWithPolicy | src/lib.rs:292-335 | the whole new state after a result, and whether the state changed |
| Health.HealthTracker.RecordLatencySample | src/lib.rs:337-346 | pushes into the 128-sample window and sets the p99 |
| Health.HealthTracker.TransitionToHalfOpenIfReady | src/lib.rs:348-364 | moves exactly when Open for at least the cooldown, otherwise changes nothing |
| Health.HealthTracker.ForceHalfOpen | src/lib.rs:366-374 | moves exactly when Open, otherwise changes nothing |
| Latency.P99Meaning | src/lib.rs:337-346 | after any history the p99 is the order statistic at round(0.99(n-1)) of exactly the last n = min(count, 128) latencies |
| Latency.WindowIsRecent | src/lib.rs:338-341 | the window is the end of the history |
| Latency.OrderStatisticUnique | src/lib.rs:342-345 | that order statistic is one number, so the previous claim fixes the result |
| RouteCache.QueueByRecency | src/lib.rs:892-921 | over all inserts, write-lock hits and invalidations the queue lists exactly the cached keys, each once, at most 1024, from least to most recently touched |
| RouteCache.EvictsOldest | src/lib.rs:911-921 | inserting a new key evicts only when full, and then exactly the least recently touched key |
| RouteCache.EntriesAfter | src/lib.rs:892-921 | what each operation leaves: a hit everything, a node invalidation exactly the entries not touching the node, an insertion everything but the least recently touched entry, and that only for a new key in a full cache |
| Interleaving.NoRerouteThroughOpen | src/lib.rs:599-838 | in every interleaving the log never shows a reroute that visits, after its first node, a node whose latest logged health event says Open |
| Interleaving.OneEventPerCall | src/lib.rs:731-838 | a returned call has pushed exactly one event, a Reroute with its tenant, start, goal and the path, cost and cache flag of its decision, or its escalation; a call between its phases has pushed none |
| Histories.RouteEventsRight | src/lib.rs:731-838 | every route event of the log belongs to a returned call, equals its decision field by field, and the decision was right in the state with the log before it; a logged path leads from the start to the goal |
| Histories.HealthEventsTruthful | src/lib.rs:599-649 | every logged health event is true to the log before it: a change is flagged exactly when the state is another one, and only Open nodes are half-opened |
| Histories.BreakerIsItsRun | src/lib.rs:599-729 | in every interleaving the breaker of a node is exactly the run of its own results and probes under its tenant's policy; other tenants, nodes, routing and configuration do not touch it |
| Histories.StepBreaker | src/lib.rs:557-838 | the same for each step, whatever the policies |
| Histories.ProbedBreakers | src/lib.rs:705-729 | a recovery probe half-opens every listed breaker and no other |
| Interleaving.CacheEntryGuarantee | src/lib.rs:562-625 | every reachable cache entry has the tenant's graph and cost model, unchanged node states on its path, is optimal for the health map at insertion, is still a walk without Open nodes after the start, and equals a fresh search when health has not changed |
| Interleaving.StepOk | src/lib.rs:557-838 | every step of the system keeps all of this |
| Decisions.DecisionsRight | src/lib.rs:731-838 | every returned decision was right in a state of the run at the position of its event: a fresh route optimal, a cached one walkable around Open nodes, no route only where there is no walk, blocked nodes exactly those the log called Open, in name order |
| Decisions.DecisionPoint | src/lib.rs:731-838 | a call returns what the write phase decides in the state its event was pushed in, also when the read phase answered |
| Decisions.BlockedExact | src/lib.rs:923-931 | the blocked nodes are the Open ones in strictly rising name order |
| Decisions.CacheEntryHistory | src/lib.rs:562-625 | a cached route was optimal at the position of the run where it was inserted, no node of it had another state at any position since, and it is optimal today if the penalties on its way are unchanged and no other is lower |
| Decisions.InsertionPoint | src/lib.rs:797-812 | every cache entry was inserted at a position of the run by a write phase that found none, and has been cached ever since |
| RouterSafety.RecordOk | src/lib.rs:599-625 | recording a result keeps the guarantee although only paths through the node are dropped, and only on a state change |
| RouterSafety.ProbeOk | src/lib.rs:627-649 | so does half-opening a node |
| RouterSafety.SlowOk | src/lib.rs:775-838 | so does the write-lock phase, hit, miss and escalation |
| RouterSafety.FastOk | src/lib.rs:747-773 | so does the read-lock phase |
| RouterSafety.AdminOk | src/lib.rs:557-597 | so do adding tenants and edges and replacing the model or the policy |
| Effects.RecordEffect | src/lib.rs:599-625 | a result moves one breaker under the tenant's policy, drops exactly the cached paths through its node exactly when its state changes, and logs the new state and whether it is new; all else is kept |
| Effects.ProbeEffect | src/lib.rs:627-649 | half-opening a node drops exactly the cached paths through it and logs the probe; all else is kept |
| Effects.ForceEffect | src/lib.rs:627-649 | forcing acts exactly on a known Open node |
| Effects.RouteEffect | src/lib.rs:775-838 | the write phase logs one event; a hit moves its key to the back of the queue, a found route is cached with its path, cost and nodes, an escalation changes nothing; other tenants, graph, health and configuration are kept |
| Effects.AddEdgeEffect | src/lib.rs:592-597 | adds the edge and empties the cache; all else is kept |
| Effects.AddTenantEffect | src/lib.rs:557-560 | a new tenant is empty with default model and policy, a known one is kept |
| Effects.ConfigureEffect | src/lib.rs:566-590 | a valid model or policy replaces the tenant's and empties its cache, an invalid one changes nothing; all else is kept |
| RouterSafety.EntryAvoidsOpen | src/lib.rs:892-902 | a cached path has no node after the start that is Open now |
| RouterSafety.ReadHitSurvivesIff | src/lib.rs:747-773 | an entry just read under the read lock survives the next inserting miss exactly when the cache is not full or the entry is not at the front of the queue |
| ReadHits.LastUsedEvicted | src/lib.rs:747-773 | a run from the start that fills the cache, reads the oldest entry under the read lock, and evicts exactly this entry with the next miss |
| RecoveryProbe.TwoSweeps | src/lib.rs:705-729 | half-opening all ready nodes first and invalidating and logging them afterwards equals doing it one node at a time |
| Tenants.AuditPipeline.Push | src/lib.rs:518-524 | the ring holds the last events of the unbounded history |
| Tenants.RetainedMeaning | src/lib.rs:518-524 | what the ring retains is the latest events up to its capacity, all of them for capacity 0 |
| Tenants.AuditPipeline.LastEvent | src/lib.rs:531-534 | the last event of the unbounded history, whatever was evicted |
| Tenants.TenantState.InvalidateForNode | src/lib.rs:898-902 | drops exactly the entries that touch the node, from map and queue |
| Tenants.TenantState.InvalidateAllCache | src/lib.rs:893-896 | empties map and queue |
| Tenants.TenantState.GetCached | src/lib.rs:904-909 | answers from the map and moves the key to the back of the queue |
| Tenants.TenantState.InsertCache | src/lib.rs:911-921 | evicts the front key when full, then inserts |
| Tenants.TenantState.BlockedNodes | src/lib.rs:923-931 | exactly the Open nodes in name order, whatever order the map iterates in |
| Tenants.TenantState.RecordResult | src/lib.rs:610-617 | one tracker changes, the others do not; the cache changes only with the state |
| Tenants.TenantState.HalfOpenReady | src/lib.rs:711-715 | exactly the trackers whose cooldown has passed are moved, each once |
| Tenants.TenantState.ComputeRoute | src/lib.rs:797-812 | searches with the current health and model and caches a found route with its touched nodes |
| Routers.Router.RecordResult | src/lib.rs:599-625 | the router object performs the step that the run theorems speak of, other tenants untouched |
| Routers.Router.ForceHalfOpen | src/lib.rs:627-649 | likewise; true exactly for a known Open node |
| Routers.Router.RunRecoveryProbeOnce | src/lib.rs:705-729 | half-opens, invalidates and logs exactly the ready nodes of all tenants and returns their number |
| Routers.Router.RouteUnderReadLock | src/lib.rs:747-773 | a hit is returned and logged with its path and cost as a cache hit, and changes no tenant; a miss changes nothing |
| Routers.Router.RouteUnderWriteLock | src/lib.rs:775-838 | decides from the cache or by search, caches, and logs the decision field by field |
| Routers.Router.RouteUndisturbed | src/lib.rs:731-838 | a call nobody comes between: both phases agree on the decision and one event logs it field by field |
| Routers.Router.AddEdge | src/lib.rs:592-597 | adds the edge and drops the tenant's cache |
| Routers.Router.AddTenant | src/lib.rs:557-560 | creates the tenant unless it exists |
| Routers.Router.TrySetCostModel | src/lib.rs:566-577 | an invalid model is refused and changes nothing; a valid one replaces the model and drops the cache |
| Routers.Router.TrySetHealthPolicy | src/lib.rs:579-590 | the same for the policy |
| Inference.DecisionSelectsLeast | src/inference.rs:123-183 | the selected candidate is feasible and least by (score, candidate order) among all feasible ones; none exactly when none is feasible |
| Inference.DecisionSplits | src/inference.rs:132-168 | rejected and feasible candidates together are the input with multiplicity, each rejection names the first failed constraint, and they come in candidate order |
| Inference.DecisionReports | src/inference.rs:123-183 | a decision reports no error and falls back to exactly the lower strategies of what it selected; an invalid configuration is reported as such |
| Inference.RejectsAll | src/inference.rs:193-206 | the fail-closed entry point rejects every candidate as often as it occurs, in order |
| Inference.DecisionForgetsOrder | src/inference.rs:168-182 | permuting the candidates changes nothing in the explanation |
| Inference.ScoreRange | src/inference.rs:157-161 | a feasible score lies between 0 and the sum of the weights |
| Inference.ScoreDifference | src/inference.rs:157-161 | two feasible scores differ by latency and cost per ceiling, failure rate and lack of quality, each times its own weight; the perfect candidate scores 0 |
| Inference.ScoreOfOneMeasure | src/inference.rs:157-161 | candidates that differ in one measure differ in score by that measure's weight times the difference |
| Inference.ReasonIff | src/inference.rs:133-153 | which reason is given: the first that applies of senseless estimate, latency, cost, quality |
| Inference.ConfigErrorIff | src/inference.rs:30-72 | which constraints and weights are accepted; constraints are complained about first |
| Inference.ScoreDominates | src/inference.rs:157-161 | a candidate no worse in all four measures scores no higher, and one better in some scores lower when all weights are positive |
| Inference.SelectedUndominated | src/inference.rs:123-183 | with positive weights no feasible candidate dominates the selected one |
| Inference.CandidateOrderTotal | src/inference.rs:113-121 | candidates that compare equal are equal, so no tie is left to the input order |
| Inference.CandidateOrderMeaning | src/inference.rs:113-121 | which candidate comes first: the first of model, version, strategy, latency, cost, failure rate, quality that differs decides, smaller first |
| Inference.OutputOrderMeaning | src/inference.rs:168-173 | lower scores come first, equal ones in candidate order; rejections in candidate order, then as the reasons are tested |
| Inference.Fallback | src/inference.rs:209-220 | the fallbacks are exactly the lower strategies, highest first |
| Inference.TryDecide | src/inference.rs:123-183 | the validating, gating, scoring and sorting method computes the decision the lemmas speak of |
| Inference.Decide | src/inference.rs:186-207 | the entry point that fails closed: invalid configuration rejects every candidate |
| SystemPlanning.PlanSelectsLeast | src/system_planning.rs:67-177 | the plan takes the least (score, estimate) among placements that pass every gate, bound to the first (backend, node) with that estimate; none exactly when none passes |
| SystemPlanning.PassesIff | src/system_planning.rs:89-118 | a placement passes exactly when identifiers, model, node health, region, residency, memory, queue, backend capability, configuration and all constraints hold; the order of the tests decides only the reason |
| SystemPlanning.FirstReasonIff | src/system_planning.rs:89-118 | which reason is given for a placement: the first gate it fails, one label per gate |
| SystemPlanning.NodeRejectionIff | src/capacity.rs:94-110 | which reason is given for a node: the first of health, region, residency, memory, queue that fails |
| SystemPlanning.PlanReports | src/system_planning.rs:130-176 | a plan reports the configuration error, exactly the unavailable nodes with their reasons in name order, and its rejections in placement order |
| Prelude.IdentifierOfParts | src/system_planning.rs:205-211 | a longer text is an identifier exactly when both parts of any split are, up to 128 characters |
| Prelude.IdentifierOfOne | src/system_planning.rs:205-211 | which single characters are identifiers; the empty text is none |
| SystemPlanning.RejectionsExact | src/system_planning.rs:86-169 | a placement is listed with a reason exactly when this is its first failing reason and it is not lost to NaN |
| SystemPlanning.LostIsSilent | src/system_planning.rs:149-157 | a lost placement fails with an invalid estimate yet is listed with no reason |
| SystemPlanning.LostExample | src/system_planning.rs:149-157 | such a placement exists |
| SystemPlanning.PlanForgetsOrder | src/system_planning.rs:83-84 | permuting the placements changes nothing in the decision |
| SystemPlanning.UnavailableExact | src/capacity.rs:87-118 | the unavailable nodes are exactly those that fail, each with its first failure |
| SystemPlanning.PlacementOrderTotal | src/system_planning.rs:185-203 | placements that compare equal are equal |
| SystemPlanning.PlacementOrderMeaning | src/system_planning.rs:179-203 | placements come by backend, node, then estimate, smaller first |
| SystemPlanning.RejectionRanks | src/system_planning.rs:22-32 | rejections of one placement come in the order of the gates |
| SystemPlanning.Decide | src/system_planning.rs:67-177 | the method computes the plan the lemmas speak of |
| SystemPlanning.Sift | src/system_planning.rs:86-124 | the gating loop separates the placements that pass from those that fail, with reasons, in order |
| SystemPlanning.GateOf | src/system_planning.rs:89-118 | looking up the two capacity lists and the registry gives the first failing gate |
| SystemPlanning.RebindRejections | src/system_planning.rs:149-157 | rejected estimates are traced back to every placement that carries them |
| SystemPlanning.Evaluate | src/capacity.rs:87-118 | the snapshot loop splits the nodes into eligible and rejected ones in key order |
| Ewma.EwmaTracker.Update | src/intelligence.rs:275-288 | after any sequence the two stored numbers are the exponentially weighted mean and variance of exactly the accepted samples |
| Ewma.EwmaTracker.Predict | src/intelligence.rs:290-307 | a prediction needs the minimum of samples; its bounds enclose the mean, are not negative, and miss at most a quarter of the sample weight; the confidence c over n samples satisfies c(n + 10) = n and lies strictly between 0 and 1 |
| Ewma.UpdateStep | src/intelligence.rs:284-286 | the constant-space recurrence computes the weighted mean and variance of all samples |
| Ewma.WeightsSum | src/intelligence.rs:284-286 | the weights sum to 1 |
| Ewma.WeightsPositive | src/intelligence.rs:284-286 | every accepted sample keeps a positive weight |
| Ewma.Bounds | src/intelligence.rs:275-288 | the mean lies between the extremes and 0 <= variance <= (max - mean)(mean - min) |
| Ewma.FewOutside | src/intelligence.rs:294-301 | Chebyshev: at most a quarter of the weight lies outside two standard deviations |
| TokenBucket.RateBound | src/sidecar_security.rs:32-52 | in any window of any run, on any clock, the grants are at most capacity + rate * forward movement of the clock, both ends included; that is capacity + rate * elapsed when the clock does not step back within the window |
| TokenBucket.Conservation | src/sidecar_security.rs:32-52 | on any clock, tokens left plus tokens granted never exceed the start plus the refill for every span the clock moved forward |
| TokenBucket.ExactConservation | src/sidecar_security.rs:32-52 | before the bucket could be full nothing is lost: tokens left plus grants equal the start plus the refill, so a grant takes one token and a refusal none |
| TokenBucket.BurstExact | src/sidecar_security.rs:32-44 | of any number of calls at one moment exactly as many are granted as there are whole tokens |
| TokenBucket.RetryAfterSuffices | src/sidecar_security.rs:39-43 | after a refusal and only refusals since, a call is granted exactly when the missing fraction has accrued; at or after the told delay it is, before it never, unless the delay told is the least one of a millisecond |
| TokenBucket.ClockStepBack | src/sidecar_security.rs:46-52 | with a clock that steps back, elapsed time does not bound the grants |
| TokenBucket.Limiter.TryAcquireAt | src/sidecar_security.rs:32-44 | the whole new state, and None or the retry delay |
| TokenBucket.Limiter.Refill | src/sidecar_security.rs:46-52 | refills to at most the capacity and moves the refill time |
| FabricAdmission.OverrunBound | src/fabric.rs:399-421 | however t threads interleave, active plus claims in flight stay below limit + t, likewise the queue; active is accepts minus completes; one thread keeps the limits exactly |
| FabricAdmission.OverrunReached | src/fabric.rs:399-404 | t threads can drive active to exactly limit + t - 1 |
| FabricAdmission.QueueOverrunReached | src/fabric.rs:405-409 | t threads can drive the queue to exactly maxQueue + t - 1 |
| FabricAdmission.InvStep | src/fabric.rs:399-421 | every atomic step keeps the bound |
| FabricAdmission.AdmissionController.Evaluate | src/fabric.rs:399-411 | undisturbed, a call accepts below the limit, then queues below the depth, then sheds, and takes the atomic steps of one thread of the interleaved system |
| Admission.BooksBalance | src/admission.rs:116-183 | after any interleaving of admissions and drops the total is the live permits and the sum of the tenant counts, each count is the tenant's live permits and positive, both limits hold |
| Admission.RefusedIff | src/admission.rs:116-138 | in every run a tenant is refused exactly for an invalid name, a full house, or as many live permits of its own as the limit, in this order, and admitted otherwise |
| Admission.RunAccounts | src/admission.rs:116-183 | the accounting invariant holds in every run |
| Admission.AdmissionController.Admit | src/admission.rs:116-148 | admits or refuses with the first failing check, as one step of the interleaved system; a refusal changes nothing |
| Admission.AdmissionController.Drop | src/admission.rs:172-183 | dropping a live permit releases exactly one slot and forgets a tenant that reaches zero, as one step of the system |
| Admission.AdmissionController.New | src/admission.rs:104-110 | a controller exists only for a valid policy and starts empty |
| Admission.AdmissionPolicy.Validate | src/admission.rs:30-47 | accepts exactly 0 < per-tenant limit <= global limit |
| Lease.GrantHistory | src/fabric.rs:636-652 | epochs number the grants, the store holds the latest, ownership passes only past an expired lease |
| Lease.LeaseRuns | src/fabric.rs:636-658 | a lease granted at t for d verifies exactly before t + d, as long as no later request is granted |
| Lease.RefusedIff | src/fabric.rs:636-652 | a request is refused exactly when the last grant went to another owner and its time to live has not passed; the owner may renew |
| Lease.LastGrantedHeld | src/fabric.rs:644-650 | the lease held is that of the last granted request: its owner, from its time for its ttl |
| Lease.OnlyLatestVerifies | src/fabric.rs:654-658 | an epoch verifies exactly when it is the latest granted and has not expired |
| Lease.FencedForever | src/fabric.rs:636-658 | a granted epoch that stopped verifying never verifies again |
| Lease.HandOver | src/fabric.rs:636-652 | when another owner is granted a lease, every earlier owner's latest lease has expired |
| Lease.InMemoryLeaseStore.Acquire | src/fabric.rs:636-652 | refuses exactly while another owner's lease runs, otherwise grants the next epoch |
| Lifecycle.RunChained | src/fabric.rs:504-591 | in every run the log is gapless and ends in the current state and revision, Healthy has at most one failure in a row, and Suspect is never entered |
| Lifecycle.LogIsSuffix | src/fabric.rs:577-591 | the log is the last min(revision, max) of all transitions made |
| Lifecycle.FailuresFail | src/fabric.rs:537-557 | five failures in a row end in Failed from any state, draining included |
| Lifecycle.FailureOutcome | src/fabric.rs:537-557 | a failure leads to Failed exactly from the fifth in a row on, a Healthy or Degraded node to Degraded from the second on, each time logged, and changes nothing otherwise |
| Lifecycle.OtherOutcomes | src/fabric.rs:504-571 | what a success, draining and beginning recovery lead to from every state, and what is logged; the log bound is kept between 1 and 1000 |
| Lifecycle.CountersTrail | src/fabric.rs:520-571 | the counters are the failures and successes in a row, counted anew when a recovery begins |
| Lifecycle.RecoversIff | src/fabric.rs:520-535 | a recovering node is Healthy with exactly its third success in a row, a degraded one with its second |
| Lifecycle.NodeLifecycle.RecordFailure | src/fabric.rs:537-557 | the whole new state after a failure, by the first matching arm |
| Lifecycle.NodeLifecycle.RecordSuccess | src/fabric.rs:520-535 | the whole new state after a success |
| Lifecycle.NodeLifecycle.TransitionTo | src/fabric.rs:577-591 | logs the transition, evicting the oldest when full |
| AuditChain.AppendsVerify | src/fabric.rs:900-936 | any run of appends passes the integrity check, ring eviction included |
| AuditChain.RunIsSuffix | src/fabric.rs:900-919 | the ring is the end of the chain that never evicts |
| AuditChain.LastHashDetermines | src/fabric.rs:921-936 | for any hash of three fields, two verifying chains of equal length with the same last hash are equal or exhibit a collision at one place; equal outright for a collision-free hash |
| AuditChain.JoinCollides | src/fabric.rs:879-919 | for every digest, one append each to two empty rings gives different records under the same hash, so the code's hash is not collision-free on its fields |
| AuditChain.UniqueIffDashFree | src/fabric.rs:879-884 | taken alone, a joined text has one reading exactly when none of the three fields holds a dash |
| AuditChain.TamperEvident | src/fabric.rs:878-936 | under any digest of fixed length, a ring whose later ids have no segment as long as a digest is determined from its second record on by its length and last hash, up to a collision exhibited by the two chains; from the first record on if that one is dash-free |
| AuditChain.TamperEvidentIff | src/fabric.rs:878-936 | both conditions are exact: without them some digest of that length, without collision in the chains, admits another ring |
| AuditChain.TextsDetermine | src/fabric.rs:921-936 | the same for any two verifying chains |
| AuditChain.OneReading | src/fabric.rs:879-884 | a text whose middle is a digest has one reading unless a segment of an id can pass for a digest |
| AuditChain.ShortIdsReadOnce | src/fabric.rs:879-884 | ids no longer than a digest meet the condition, dashes or not |
| AuditChain.FirstRecordRereadable | src/fabric.rs:921-936 | under every digest the oldest record of a ring can be re-read if its event id or actor holds a dash |
| AuditChain.LaterRecordRereadable | src/fabric.rs:921-936 | a later record with a segment as long as a digest can be re-read under a digest that produces the segment |
| AuditChain.AuditChain.Append | src/fabric.rs:900-919 | the new ring, after eviction when full |
| AuditChain.AuditChain.VerifyIntegrity | src/fabric.rs:921-936 | succeeds exactly on chains that verify, otherwise reports the first defect in order |

## Left out

- Floating point: f64 is a real, an infinity or a single NaN, without rounding, overflow or negative zero. At the one place where rounding decides, the p99 index, both give the same index for all window sizes up to 128.
- Machine integers are unbounded: overflow of u32 and u64 counters and more than 2^32 - 2 nodes. The predecessor marker `u32::MAX` is an option.
- The binary heap of the standard library is a multiset whose greatest entry is taken; the order is total, so there is only one such entry.
- Hash maps iterate in an arbitrary order; the model proves its results for all of them.
- Relaxed atomics: a load reads the current value. Stale reads would overrun further.
- Ewma.EwmaTracker.Predict: takes the standard deviation as a parameter whose square is the variance, because Dafny has no square root of reals; a NaN smoothing factor, the model version, the source revision and the time are left out.
- FabricAdmission.AdmissionController.Complete: a caller that completes more than was accepted (a debug assertion in the code, a wrap-around in release builds) is excluded; so for Dequeue.
- md5 is an arbitrary function of strings with digests of one length and no dash; how hard its collisions are to find is not modelled, so the theorems exhibit them. The chain covers neither the time nor the world revision, and nothing is claimed about them.
- Breaker runs fix one valid policy; after a policy change the counters stay what they are, but the thresholds they are compared with are new.
- Strings are sequences of characters; identifiers are ASCII, for which character and byte lengths agree.
- `ComputeNode` fields that no gate reads, descriptor registration and its validation, and lifecycle reasons and timestamps.
- The sidecar and its HTTP handlers, SDKs, load tools, OpenTelemetry, JSON lines, fsync and flush loops: input and output.
- Tokio tasks: the recovery loop is an arbitrary probe step of the interleaving.
- Configuration loading, API keys, bounded queues, canary thresholds, decision traces, `PipelineEngine`, `DecisionFirewall` and the KV strategy ladders: easy members or long branch ladders without state.
