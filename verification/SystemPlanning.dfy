/** Placement planning: capacity and capability gates around the inference decision. */
module SystemPlanning {
  import opened Prelude
  import opened Inference

  // ----- capacity -----

  /** In comparison order. */
  datatype CapacityRejection = Unhealthy | RegionMismatch | ModelNotResident | InsufficientMemory | QueueLimit

  datatype ComputeNode = ComputeNode(
    region: string, availableMemoryMb: nat, queueDepth: nat, healthy: bool, residentModels: set<ModelReference>)

  datatype Requirement = Requirement(
    model: ModelReference, region: Option<string>, minAvailableMemoryMb: nat, maxQueueDepth: nat)

  type Capacity = map<string, ComputeNode>

  function NodeRejection(node: ComputeNode, r: Requirement): Option<CapacityRejection> {
    if !node.healthy then Some(Unhealthy)
    else if r.region.Some? && r.region.value != node.region then Some(RegionMismatch)
    else if r.model !in node.residentModels then Some(ModelNotResident)
    else if node.availableMemoryMb < r.minAvailableMemoryMb then Some(InsufficientMemory)
    else if node.queueDepth > r.maxQueueDepth then Some(QueueLimit)
    else None
  }

  type Unavailable = (string, CapacityRejection)

  function NodeReject(capacity: Capacity, r: Requirement): string -> Option<Unavailable> {
    id => if id !in capacity then None
          else match NodeRejection(capacity[id], r) case Some(reason) => Some((id, reason)) case None => None
  }

  /** The nodes that cannot serve the requirement, by name. */
  ghost function UnavailableNodes(capacity: Capacity, r: Requirement): seq<Unavailable> {
    FilterMap(NodeReject(capacity, r), Sort(CompareString, Listed(capacity.Keys)))
  }

  // ----- capability -----

  type Registry = map<string, map<ModelReference, set<KvStrategy>>>

  /** `BackendRegistry::supports`; None for an unknown backend. */
  function Supports(registry: Registry, backend: string, model: ModelReference, strategy: KvStrategy): Option<bool> {
    if backend !in registry then None
    else Some(model in registry[backend] && strategy in registry[backend][model])
  }

  // ----- placements -----

  datatype Placement = Placement(backendId: string, computeNodeId: string, estimate: Candidate)

  /** In comparison order. */
  datatype PlacementRejection =
    | InvalidCandidate
    | ModelMismatch
    | UnknownComputeNode
    | CapacityGate(capacity: CapacityRejection)
    | UnknownBackend
    | UnsupportedBackendCapability
    | InferenceGate(reason: RejectionReason)
  {
    /** Position in the derived order: constructor first, then its argument. */
    function Code(): int {
      match this
      case InvalidCandidate => 0
      case ModelMismatch => 10
      case UnknownComputeNode => 20
      case CapacityGate(c) =>
        30 + (match c case Unhealthy => 0 case RegionMismatch => 1 case ModelNotResident => 2
              case InsufficientMemory => 3 case QueueLimit => 4)
      case UnknownBackend => 40
      case UnsupportedBackendCapability => 50
      case InferenceGate(r) => 60 + r.Rank()
    }
  }

  type RejectedPlacement = (Placement, PlacementRejection)

  datatype Selection = Selection(backendId: string, computeNodeId: string, scored: Scored, fallback: seq<KvStrategy>)

  datatype SystemDecision = SystemDecision(
    selected: Option<Selection>, rejected: seq<RejectedPlacement>,
    unavailable: seq<Unavailable>, configError: Option<DecisionError>)

  function ByNode(a: Placement, b: Placement): Ordering {
    CompareString(a.computeNodeId, b.computeNodeId).Then(CandidateOrder(a.estimate, b.estimate))
  }

  function PlacementOrder(a: Placement, b: Placement): Ordering {
    CompareString(a.backendId, b.backendId).Then(ByNode(a, b))
  }

  function CompareRejection(a: PlacementRejection, b: PlacementRejection): Ordering { CompareInt(a.Code(), b.Code()) }

  function RejectedOrder(a: RejectedPlacement, b: RejectedPlacement): Ordering {
    PlacementOrder(a.0, b.0).Then(CompareRejection(a.1, b.1))
  }

  lemma PlacementOrderTotal()
    ensures TotalOrder(PlacementOrder)
  {
    CandidateOrderTotal();
    StringOrder();
    hide CandidateOrder, CompareString;
    TotalIsWeak(CandidateOrder);
    TotalIsWeak(CompareString);
    var estimate := (a: Placement, b: Placement) => CandidateOrder(a.estimate, b.estimate);
    KeyWeak(CandidateOrder, (p: Placement) => p.estimate, estimate);
    var node := (a: Placement, b: Placement) => CompareString(a.computeNodeId, b.computeNodeId);
    KeyWeak(CompareString, (p: Placement) => p.computeNodeId, node);
    ThenWeak(node, estimate, ByNode);
    var backend := (a: Placement, b: Placement) => CompareString(a.backendId, b.backendId);
    KeyWeak(CompareString, (p: Placement) => p.backendId, backend);
    ThenWeak(backend, ByNode, PlacementOrder);
    WeakIsTotal(PlacementOrder);
  }

  // ----- gates -----

  datatype Planner = Planner(registry: Registry, capacity: Capacity, requirement: Requirement)
  {
    /** The first gate a placement fails before scoring. */
    function Gate(p: Placement): Option<PlacementRejection> {
      if !ValidIdentifier(p.backendId) || !ValidIdentifier(p.computeNodeId) then Some(InvalidCandidate)
      else if p.estimate.model != requirement.model then Some(ModelMismatch)
      else if p.computeNodeId !in capacity then Some(UnknownComputeNode)
      else
        match NodeRejection(capacity[p.computeNodeId], requirement)
        case Some(reason) => Some(CapacityGate(reason))
        case None =>
          match Supports(registry, p.backendId, p.estimate.model, p.estimate.strategy)
          case None => Some(UnknownBackend)
          case Some(false) => Some(UnsupportedBackendCapability)
          case Some(true) => None
    }

    function Stop(): Placement -> Option<RejectedPlacement> {
      p => match Gate(p) case Some(reason) => Some((p, reason)) case None => None
    }

    function Pass(): Placement -> Option<Placement> {
      p => if Gate(p).None? then Some(p) else None
    }

    /** The first reason, over gates, configuration and constraints, not to use a placement. */
    function FirstReason(p: Placement, k: Constraints, w: Weights): Option<PlacementRejection> {
      match Gate(p)
      case Some(reason) => Some(reason)
      case None =>
        if ConfigError(k, w).Some? then Some(InferenceGate(InvalidPlanningConfig))
        else match Reason(p.estimate, k) case Some(reason) => Some(InferenceGate(reason)) case None => None
    }
  }

  // ----- the decision -----

  function EstimateOf(p: Placement): Option<Candidate> { Some(p.estimate) }

  function Misconfigured(p: Placement): Option<RejectedPlacement> { Some((p, InferenceGate(InvalidPlanningConfig))) }

  /** `==` on estimates: NaN fields differ from themselves. */
  predicate SameEstimate(a: Candidate, b: Candidate) {
    && a.model == b.model && a.strategy == b.strategy
    && a.latencyMs.Equals(b.latencyMs) && a.cost.Equals(b.cost)
    && a.failureRate.Equals(b.failureRate) && a.quality.Equals(b.quality)
  }

  predicate HasNaN(c: Candidate) {
    c.latencyMs.NaN? || c.cost.NaN? || c.failureRate.NaN? || c.quality.NaN?
  }

  function Rebind(estimate: Candidate, reason: RejectionReason): Placement -> Option<RejectedPlacement> {
    (p: Placement) => if SameEstimate(p.estimate, estimate) then Some((p, InferenceGate(reason))) else None
  }

  /** Rejected estimates traced back to every placement that carries them. */
  function RebindAll(rejected: seq<Rejection>, feasible: seq<Placement>): seq<RejectedPlacement> {
    if rejected == [] then []
    else
      var (estimate, reason) := rejected[|rejected| - 1];
      RebindAll(rejected[..|rejected| - 1], feasible) + FilterMap(Rebind(estimate, reason), feasible)
  }

  /** The first placement with the given estimate. */
  function FirstWith(feasible: seq<Placement>, estimate: Candidate): Option<Placement> {
    if feasible == [] then None
    else if SameEstimate(feasible[0].estimate, estimate) then Some(feasible[0])
    else FirstWith(feasible[1..], estimate)
  }

  function Bind(feasible: seq<Placement>, e: Explanation): Option<Selection> {
    match e.selected
    case None => None
    case Some(scored) =>
      match FirstWith(feasible, scored.candidate)
      case None => None
      case Some(p) => Some(Selection(p.backendId, p.computeNodeId, scored, e.fallback))
  }

  ghost function Plan(pl: Planner, candidates: seq<Placement>, k: Constraints, w: Weights): SystemDecision {
    var ordered := Sort(PlacementOrder, candidates);
    var stopped := FilterMap(pl.Stop(), ordered);
    var feasible := FilterMap(pl.Pass(), ordered);
    var unavailable := UnavailableNodes(pl.capacity, pl.requirement);
    match Decision(FilterMap(EstimateOf, feasible), k, w)
    case Err(error) =>
      SystemDecision(None, Sort(RejectedOrder, stopped + FilterMap(Misconfigured, feasible)), unavailable, Some(error))
    case Ok(e) =>
      SystemDecision(Bind(feasible, e), Sort(RejectedOrder, stopped + RebindAll(e.rejected, feasible)), unavailable,
          None)
  }

  // ----- the program -----

  ghost function EligibleIn(capacity: Capacity, r: Requirement, keys: seq<string>): set<string> {
    set id | id in keys && id in capacity && NodeRejection(capacity[id], r).None?
  }

  lemma EligibleSnoc(capacity: Capacity, r: Requirement, keys: seq<string>, id: string)
    requires id in capacity
    ensures EligibleIn(capacity, r, keys + [id]) ==
            EligibleIn(capacity, r, keys) + if NodeRejection(capacity[id], r).None? then {id} else {}
  {
    hide NodeRejection;
  }

  method Evaluate(capacity: Capacity, requirement: Requirement)
    returns (eligible: set<string>, rejected: seq<Unavailable>)
    ensures eligible == set id | id in capacity && NodeRejection(capacity[id], requirement).None?
    ensures rejected == UnavailableNodes(capacity, requirement)
  {
    hide NodeRejection, Sort, FilterMap;
    var keys := SortedKeys(capacity.Keys);
    KeysRise(capacity.Keys);
    eligible, rejected := Assess(capacity, requirement, keys);
  }

  /** The loop over the snapshot, in key order. */
  method Assess(capacity: Capacity, requirement: Requirement, keys: seq<string>)
    returns (eligible: set<string>, rejected: seq<Unavailable>)
    requires forall id :: id in keys ==> id in capacity
    ensures eligible == EligibleIn(capacity, requirement, keys)
    ensures rejected == FilterMap(NodeReject(capacity, requirement), keys)
  {
    hide NodeRejection, FilterMap;
    assert EligibleIn(capacity, requirement, []) == {};
    hide EligibleIn;
    FilterMapNone(NodeReject(capacity, requirement));
    eligible, rejected := {}, [];
    for i := 0 to |keys|
      invariant eligible == EligibleIn(capacity, requirement, keys[..i])
      invariant rejected == FilterMap(NodeReject(capacity, requirement), keys[..i])
    {
      var id := keys[i];
      assert id in keys;
      assert keys[..i + 1] == keys[..i] + [id];
      FilterMapSnoc(NodeReject(capacity, requirement), keys[..i], id);
      EligibleSnoc(capacity, requirement, keys[..i], id);
      var reason := NodeRejection(capacity[id], requirement);
      if reason.Some? {
        rejected := rejected + [(id, reason.value)];
      } else {
        eligible := eligible + {id};
      }
    }
    assert keys[..|keys|] == keys;
  }

  method Decide(pl: Planner, candidates: seq<Placement>, k: Constraints, w: Weights) returns (d: SystemDecision)
    ensures d == Plan(pl, candidates, k, w)
  {
    hide Planner.Gate, FilterMap, Sort, Decision, RebindAll, Bind, UnavailableNodes;
    var eligible, unavailable := Evaluate(pl.capacity, pl.requirement);
    var ordered := Sort(PlacementOrder, candidates);
    var rejected, feasible := Sift(pl, eligible, unavailable, ordered);
    var estimates := FilterMap(EstimateOf, feasible);
    var decision := TryDecide(estimates, k, w);
    match decision {
      case Err(error) =>
        d := SystemDecision(None, Sort(RejectedOrder, rejected + FilterMap(Misconfigured, feasible)), unavailable,
            Some(error));
      case Ok(e) =>
        var rebound := RebindRejections(e.rejected, feasible);
        d := SystemDecision(Bind(feasible, e), Sort(RejectedOrder, rejected + rebound), unavailable, None);
    }
  }

  /** The gating loop. */
  method Sift(pl: Planner, eligible: set<string>, unavailable: seq<Unavailable>, ordered: seq<Placement>)
    returns (rejected: seq<RejectedPlacement>, feasible: seq<Placement>)
    requires eligible == set id | id in pl.capacity && NodeRejection(pl.capacity[id], pl.requirement).None?
    requires unavailable == UnavailableNodes(pl.capacity, pl.requirement)
    ensures rejected == FilterMap(pl.Stop(), ordered) && feasible == FilterMap(pl.Pass(), ordered)
  {
    hide Planner.Gate, FilterMap, NodeRejection, UnavailableNodes;
    rejected, feasible := [], [];
    FilterMapNone(pl.Stop());
    FilterMapNone(pl.Pass());
    for i := 0 to |ordered|
      invariant rejected == FilterMap(pl.Stop(), ordered[..i])
      invariant feasible == FilterMap(pl.Pass(), ordered[..i])
    {
      var p := ordered[i];
      assert ordered[..i + 1] == ordered[..i] + [p];
      FilterMapSnoc(pl.Stop(), ordered[..i], p);
      FilterMapSnoc(pl.Pass(), ordered[..i], p);
      var reason := GateOf(pl, eligible, unavailable, p);
      if reason.Some? {
        rejected := rejected + [(p, reason.value)];
      } else {
        feasible := feasible + [p];
      }
    }
    assert ordered[..|ordered|] == ordered;
  }

  /** The gate as the loop evaluates it, from the capacity snapshot's two lists. */
  method GateOf(pl: Planner, eligible: set<string>, unavailable: seq<Unavailable>, p: Placement)
    returns (reason: Option<PlacementRejection>)
    requires eligible == set id | id in pl.capacity && NodeRejection(pl.capacity[id], pl.requirement).None?
    requires unavailable == UnavailableNodes(pl.capacity, pl.requirement)
    ensures reason == pl.Gate(p)
  {
    hide ValidIdentifier, UnavailableNodes, NodeRejection, Supports;
    if !ValidIdentifier(p.backendId) || !ValidIdentifier(p.computeNodeId) {
      return Some(InvalidCandidate);
    }
    if p.estimate.model != pl.requirement.model {
      return Some(ModelMismatch);
    }
    if p.computeNodeId !in eligible {
      var found := Lookup(unavailable, p.computeNodeId);
      UnavailableExact(pl.capacity, pl.requirement);
      return Some(match found case Some(r) => CapacityGate(r) case None => UnknownComputeNode);
    }
    return match Supports(pl.registry, p.backendId, p.estimate.model, p.estimate.strategy)
      case None => Some(UnknownBackend)
      case Some(false) => Some(UnsupportedBackendCapability)
      case Some(true) => None;
  }

  /** The map built from the unavailable list: the last entry for a key wins. */
  method Lookup(list: seq<Unavailable>, id: string) returns (found: Option<CapacityRejection>)
    ensures found.Some? ==> (id, found.value) in list
    ensures found.None? ==> forall r :: (id, r) !in list
  {
    found := None;
    for i := 0 to |list|
      invariant found.Some? ==> (id, found.value) in list[..i]
      invariant found.None? ==> forall r :: (id, r) !in list[..i]
    {
      assert list[..i + 1] == list[..i] + [list[i]];
      if list[i].0 == id {
        found := Some(list[i].1);
      }
    }
    assert list[..|list|] == list;
  }

  method RebindRejections(rejected: seq<Rejection>, feasible: seq<Placement>) returns (r: seq<RejectedPlacement>)
    ensures r == RebindAll(rejected, feasible)
  {
    r := [];
    for i := 0 to |rejected|
      invariant r == RebindAll(rejected[..i], feasible)
    {
      assert rejected[..i + 1][..i] == rejected[..i];
      var (estimate, reason) := rejected[i];
      r := r + FilterMap(Rebind(estimate, reason), feasible);
    }
    assert rejected[..|rejected|] == rejected;
  }

  /** The unavailable list names exactly the nodes that fail, each with its first failure. */
  lemma UnavailableExact(capacity: Capacity, r: Requirement)
    ensures forall id, reason :: (id, reason) in UnavailableNodes(capacity, r) <==>
              id in capacity && NodeRejection(capacity[id], r) == Some(reason)
  {
    hide NodeRejection, Sort, FilterMap;
    var keys := Sort(CompareString, Listed(capacity.Keys));
    forall id, reason
      ensures (id, reason) in UnavailableNodes(capacity, r) <==>
          id in capacity && NodeRejection(capacity[id], r) == Some(reason)
    {
      FilterMapMember(NodeReject(capacity, r), keys, (id, reason));
      assert id in keys <==> id in multiset(keys);
      if id in capacity && NodeRejection(capacity[id], r) == Some(reason) {
        assert NodeReject(capacity, r)(id) == Some((id, reason));
      }
    }
  }

  // ----- what a plan promises -----

  /** The placements that survive the gates, in order. */
  ghost function Feasible(pl: Planner, candidates: seq<Placement>): seq<Placement> {
    FilterMap(pl.Pass(), Sort(PlacementOrder, candidates))
  }

  lemma SameMembers<T>(cmp: (T, T) -> Ordering, s: seq<T>)
    ensures forall x :: x in Sort(cmp, s) <==> x in s
  {
    assert forall x :: x in Sort(cmp, s) <==> x in multiset(Sort(cmp, s));
    assert forall x :: x in s <==> x in multiset(s);
  }

  lemma FeasibleMembers(pl: Planner, candidates: seq<Placement>)
    ensures forall p :: p in Feasible(pl, candidates) <==> p in candidates && pl.Gate(p).None?
    ensures forall c :: c in FilterMap(EstimateOf, Feasible(pl, candidates)) <==>
              exists p :: p in candidates && pl.Gate(p).None? && p.estimate == c
  {
    hide Planner.Gate, FilterMap, Sort;
    var ordered, feasible := Sort(PlacementOrder, candidates), Feasible(pl, candidates);
    SameMembers(PlacementOrder, candidates);
    forall p ensures p in feasible <==> p in candidates && pl.Gate(p).None? {
      FilterMapMember(pl.Pass(), ordered, p);
      if p in candidates && pl.Gate(p).None? {
        assert pl.Pass()(p) == Some(p);
      }
    }
    forall c ensures c in FilterMap(EstimateOf, feasible) <==>
      exists p :: p in candidates && pl.Gate(p).None? && p.estimate == c
    {
      FilterMapMember(EstimateOf, feasible, c);
      if p :| p in candidates && pl.Gate(p).None? && p.estimate == c {
        assert p in feasible && EstimateOf(p) == Some(c);
      }
    }
  }

  /** Filtering a sorted list leaves it sorted. */
  lemma {:induction false} FeasibleSorted(pl: Planner, ordered: seq<Placement>)
    requires Sorted(PlacementOrder, ordered)
    ensures Sorted(PlacementOrder, FilterMap(pl.Pass(), ordered))
  {
    hide Planner.Gate, PlacementOrder;
    if ordered != [] {
      var front, p := ordered[..|ordered| - 1], ordered[|ordered| - 1];
      FeasibleSorted(pl, front);
      var kept := FilterMap(pl.Pass(), front);
      forall i | 0 <= i < |kept| ensures PlacementOrder(kept[i], p) != GT {
        FilterMapMember(pl.Pass(), front, kept[i]);
        var j :| 0 <= j < |front| && front[j] == kept[i];
      }
    }
  }

  /** On estimates without NaN, `==` is equality; with NaN it never holds. */
  lemma SameEstimateMeaning(a: Candidate, b: Candidate)
    ensures SameEstimate(a, b) <==> a == b && !HasNaN(a)
  {
  }

  lemma {:induction false} FirstWithLeast(feasible: seq<Placement>, estimate: Candidate)
    requires Sorted(PlacementOrder, feasible)
    ensures match FirstWith(feasible, estimate)
            case None => forall p :: p in feasible ==> !SameEstimate(p.estimate, estimate)
            case Some(first) =>
              && first in feasible && SameEstimate(first.estimate, estimate)
              && forall p :: p in feasible && SameEstimate(p.estimate, estimate) ==> PlacementOrder(first, p) != GT
  {
    PlacementOrderTotal();
    hide PlacementOrder, SameEstimate;
    if feasible != [] {
      if SameEstimate(feasible[0].estimate, estimate) {
        assert PlacementOrder(feasible[0], feasible[0]) == EQ;
      } else {
        FirstWithLeast(feasible[1..], estimate);
      }
    }
  }

  predicate Passes(pl: Planner, p: Placement, k: Constraints, w: Weights) {
    pl.FirstReason(p, k, w).None?
  }

  /** What it takes to pass, gate by gate: the order of the tests decides only the reason given. */
  lemma PassesIff(pl: Planner, p: Placement, k: Constraints, w: Weights)
    ensures Passes(pl, p, k, w) <==>
              && ValidIdentifier(p.backendId) && ValidIdentifier(p.computeNodeId)
              && p.estimate.model == pl.requirement.model
              && p.computeNodeId in pl.capacity
              && (var node := pl.capacity[p.computeNodeId];
                  && node.healthy && (pl.requirement.region.Some? ==> node.region == pl.requirement.region.value)
                  && pl.requirement.model in node.residentModels
                  && node.availableMemoryMb >= pl.requirement.minAvailableMemoryMb
                  && node.queueDepth <= pl.requirement.maxQueueDepth)
              && p.backendId in pl.registry && p.estimate.model in pl.registry[p.backendId]
              && p.estimate.strategy in pl.registry[p.backendId][p.estimate.model]
              && k.Valid() && w.Valid()
              && p.estimate.latencyMs.NonNegative() && p.estimate.latencyMs.value <= k.maxLatencyMs.value
              && p.estimate.cost.NonNegative() && p.estimate.cost.value <= k.maxCost.value
              && p.estimate.failureRate.NonNegative() && p.estimate.failureRate.value <= 1.0
              && p.estimate.quality.NonNegative() && k.minQuality.value <= p.estimate.quality.value <= 1.0
  {
    hide ValidIdentifier;
  }

  /** The node can serve the requirement, test by test. */
  ghost predicate UpTo(node: ComputeNode, r: Requirement, tests: nat) {
    && (tests > 0 ==> node.healthy)
    && (tests > 1 ==> r.region.None? || r.region.value == node.region)
    && (tests > 2 ==> r.model in node.residentModels)
    && (tests > 3 ==> node.availableMemoryMb >= r.minAvailableMemoryMb)
    && (tests > 4 ==> node.queueDepth <= r.maxQueueDepth)
  }

  /** A node is rejected for the first test it fails: health, region, residency, memory, queue. */
  lemma NodeRejectionIff(node: ComputeNode, r: Requirement)
    ensures NodeRejection(node, r) == Some(Unhealthy) <==> !UpTo(node, r, 1)
    ensures NodeRejection(node, r) == Some(RegionMismatch) <==> UpTo(node, r, 1) && !UpTo(node, r, 2)
    ensures NodeRejection(node, r) == Some(ModelNotResident) <==> UpTo(node, r, 2) && !UpTo(node, r, 3)
    ensures NodeRejection(node, r) == Some(InsufficientMemory) <==> UpTo(node, r, 3) && !UpTo(node, r, 4)
    ensures NodeRejection(node, r) == Some(QueueLimit) <==> UpTo(node, r, 4) && !UpTo(node, r, 5)
    ensures NodeRejection(node, r).None? <==> UpTo(node, r, 5)
  {
  }

  /** The reason given for a placement is the first of these: identifiers, model, node unknown, node rejected, backend
      unknown, capability missing, configuration, constraint. */
  lemma FirstReasonIff(pl: Planner, p: Placement, k: Constraints, w: Weights)
    ensures var reason := pl.FirstReason(p, k, w);
            var named := ValidIdentifier(p.backendId) && ValidIdentifier(p.computeNodeId);
            var fits := named && p.estimate.model == pl.requirement.model;
            var known := fits && p.computeNodeId in pl.capacity;
            var open := known && NodeRejection(pl.capacity[p.computeNodeId], pl.requirement).None?;
            var backed := open && p.backendId in pl.registry;
            var able := backed && p.estimate.model in pl.registry[p.backendId]
                        && p.estimate.strategy in pl.registry[p.backendId][p.estimate.model];
            && (reason == Some(InvalidCandidate) <==> !named)
            && (reason == Some(ModelMismatch) <==> named && !fits)
            && (reason == Some(UnknownComputeNode) <==> fits && !known)
            && (forall c :: reason == Some(CapacityGate(c)) <==>
                  known && NodeRejection(pl.capacity[p.computeNodeId], pl.requirement) == Some(c))
            && (reason == Some(UnknownBackend) <==> open && !backed)
            && (reason == Some(UnsupportedBackendCapability) <==> backed && !able)
            && (forall r :: reason == Some(InferenceGate(r)) <==>
                  able && if ConfigError(k, w).Some? then r == InvalidPlanningConfig
                      else Reason(p.estimate, k) == Some(r))
  {
    hide ValidIdentifier, NodeRejection, Reason, ConfigError;
  }

  /** The order of placements: backend, node, then estimate,
      smaller first; rejections of one placement come in the order
      of the gates. */
  lemma PlacementOrderMeaning(a: Placement, b: Placement)
    ensures PlacementOrder(a, b) == LT <==>
              || CompareString(a.backendId, b.backendId) == LT
              || (a.backendId == b.backendId && CompareString(a.computeNodeId, b.computeNodeId) == LT)
              || (a.backendId == b.backendId && a.computeNodeId == b.computeNodeId
                  && CandidateOrder(a.estimate, b.estimate) == LT)
    ensures forall r, s :: PlacementOrder(a, b) == LT ==> RejectedOrder((a, r), (b, s)) == LT
  {
    CompareStringEq(a.backendId, b.backendId);
    CompareStringEq(a.computeNodeId, b.computeNodeId);
    hide CompareString, CandidateOrder;
  }

  lemma RejectionRanks(p: Placement, c: CapacityRejection, r: RejectionReason)
    ensures RejectedOrder((p, InvalidCandidate), (p, ModelMismatch)) == LT
    ensures RejectedOrder((p, ModelMismatch), (p, UnknownComputeNode)) == LT
    ensures RejectedOrder((p, UnknownComputeNode), (p, CapacityGate(c))) == LT
    ensures RejectedOrder((p, CapacityGate(Unhealthy)), (p, CapacityGate(RegionMismatch))) == LT
    ensures RejectedOrder((p, CapacityGate(RegionMismatch)), (p, CapacityGate(ModelNotResident))) == LT
    ensures RejectedOrder((p, CapacityGate(ModelNotResident)), (p, CapacityGate(InsufficientMemory))) == LT
    ensures RejectedOrder((p, CapacityGate(InsufficientMemory)), (p, CapacityGate(QueueLimit))) == LT
    ensures RejectedOrder((p, CapacityGate(c)), (p, UnknownBackend)) == LT
    ensures RejectedOrder((p, UnknownBackend), (p, UnsupportedBackendCapability)) == LT
    ensures RejectedOrder((p, UnsupportedBackendCapability), (p, InferenceGate(r))) == LT
    ensures RejectedOrder((p, InferenceGate(InvalidEstimate)), (p, InferenceGate(LatencyConstraint))) == LT
    ensures RejectedOrder((p, InferenceGate(LatencyConstraint)), (p, InferenceGate(CostConstraint))) == LT
    ensures RejectedOrder((p, InferenceGate(CostConstraint)), (p, InferenceGate(QualityConstraint))) == LT
    ensures RejectedOrder((p, InferenceGate(QualityConstraint)), (p, InferenceGate(InvalidPlanningConfig))) == LT
  {
    PlacementOrderTotal();
    hide PlacementOrder;
  }

  ghost predicate NamesRise(list: seq<Unavailable>) {
    forall i, j :: 0 <= i < j < |list| ==> CompareString(list[i].0, list[j].0) == LT
  }

  lemma {:induction false} RejectsRise(capacity: Capacity, r: Requirement, keys: seq<string>)
    requires Rising(keys)
    ensures NamesRise(FilterMap(NodeReject(capacity, r), keys))
  {
    hide NodeRejection, CompareString;
    if keys != [] {
      var n := |keys| - 1;
      RejectsRise(capacity, r, keys[..n]);
      var front := FilterMap(NodeReject(capacity, r), keys[..n]);
      forall i | 0 <= i < |front| ensures CompareString(front[i].0, keys[n]) == LT {
        FilterMapMember(NodeReject(capacity, r), keys[..n], front[i]);
        var j :| 0 <= j < n && keys[j] == front[i].0;
      }
    }
  }

  /** What a plan reports besides its choice: the configuration error, the unavailable nodes in name order, and the
      rejections in placement order. */
  lemma PlanReports(pl: Planner, candidates: seq<Placement>, k: Constraints, w: Weights)
    ensures var plan := Plan(pl, candidates, k, w);
            && plan.configError == ConfigError(k, w)
            && NamesRise(plan.unavailable)
            && (forall id, reason :: (id, reason) in plan.unavailable <==>
                  id in pl.capacity && NodeRejection(pl.capacity[id], pl.requirement) == Some(reason))
            && Sorted(RejectedOrder, plan.rejected)
  {
    hide Sort, FilterMap, RebindAll, Bind, NodeRejection, NamesRise, Sorted, Planner.Gate;
    UnavailableExact(pl.capacity, pl.requirement);
    KeysRise(pl.capacity.Keys);
    RejectsRise(pl.capacity, pl.requirement, Sort(CompareString, Listed(pl.capacity.Keys)));
    RejectedOrderTotal();
    var feasible := Feasible(pl, candidates);
    var stopped := FilterMap(pl.Stop(), Sort(PlacementOrder, candidates));
    DecisionFails(FilterMap(EstimateOf, feasible), k, w);
    if ConfigError(k, w).Some? {
      SortSorted(RejectedOrder, stopped + FilterMap(Misconfigured, feasible));
    } else {
      SortSorted(RejectedOrder, stopped
          + RebindAll(Decision(FilterMap(EstimateOf, feasible), k, w).value.rejected, feasible));
    }
  }

  lemma RejectedOrderTotal()
    ensures TotalOrder(RejectedOrder)
  {
    PlacementOrderTotal();
    hide PlacementOrder;
    TotalIsWeak(PlacementOrder);
    var placement := (a: RejectedPlacement, b: RejectedPlacement) => PlacementOrder(a.0, b.0);
    KeyWeak(PlacementOrder, (r: RejectedPlacement) => r.0, placement);
    var reason := (a: RejectedPlacement, b: RejectedPlacement) => CompareRejection(a.1, b.1);
    assert WeakOrder(reason);
    ThenWeak(placement, reason, RejectedOrder);
    CodesDiffer();
    hide PlacementRejection.Code;
    WeakIsTotal(RejectedOrder);
  }

  lemma CodesDiffer()
    ensures forall a: PlacementRejection, b: PlacementRejection :: a.Code() == b.Code() ==> a == b
  {
  }

  lemma FeasibleHasNoNaN(c: Candidate, k: Constraints)
    requires Reason(c, k).None?
    ensures !HasNaN(c)
  {
  }

  /** The plan takes the least (score, estimate) among the placements that pass everything, bound to the first
      (backend, node) that offers this estimate; it takes none only when no placement passes. */
  lemma PlanSelectsLeast(pl: Planner, candidates: seq<Placement>, k: Constraints, w: Weights)
    ensures match Plan(pl, candidates, k, w).selected
            case None => forall p :: p in candidates ==> !Passes(pl, p, k, w)
            case Some(sel) =>
              var chosen := Placement(sel.backendId, sel.computeNodeId, sel.scored.candidate);
              && chosen in candidates && Passes(pl, chosen, k, w)
              && sel.fallback == Fallback(chosen.estimate.strategy)
              && k.Valid() && w.Valid() && Reason(chosen.estimate, k).None?
              && sel.scored.score == Score(chosen.estimate, k, w)
              && (forall p :: p in candidates && Passes(pl, p, k, w) ==>
                    Reason(p.estimate, k).None?
                    && ScoredOrder(sel.scored, Scored(p.estimate, Score(p.estimate, k, w))) != GT)
              && (forall p :: p in candidates && Passes(pl, p, k, w) && p.estimate == chosen.estimate ==>
                    PlacementOrder(chosen, p) != GT)
  {
    hide Plan, Planner.Gate, FilterMap, Sort, Sorted, Reason, Score, ScoredOrder, PlacementOrder, Decision, Feasible;
    PlanSelected(pl, candidates, k, w);
    FeasibleMembers(pl, candidates);
    if ConfigError(k, w).None? {
      var feasible := Feasible(pl, candidates);
      var estimates := FilterMap(EstimateOf, feasible);
      DecisionSelectsLeast(estimates, k, w);
      FeasibleInOrder(pl, candidates);
      DecisionFallback(estimates, k, w);
      var e := Decision(estimates, k, w).value;
      if e.selected.Some? {
        FeasibleHasNoNaN(e.selected.value.candidate, k);
        BindLeast(feasible, e.selected.value.candidate);
      }
    }
  }

  lemma PlanSelected(pl: Planner, candidates: seq<Placement>, k: Constraints, w: Weights)
    ensures var estimates := FilterMap(EstimateOf, Feasible(pl, candidates));
            (Decision(estimates, k, w).Ok? <==> ConfigError(k, w).None?) &&
            Plan(pl, candidates, k, w).selected ==
              if ConfigError(k, w).Some? then None else Bind(Feasible(pl, candidates), Decision(estimates, k, w).value)
  {
    hide FilterMap, Sort, UnavailableNodes, RebindAll, Bind, Decision;
    DecisionFails(FilterMap(EstimateOf, Feasible(pl, candidates)), k, w);
  }

  lemma FeasibleInOrder(pl: Planner, candidates: seq<Placement>)
    ensures Sorted(PlacementOrder, Feasible(pl, candidates))
  {
    PlacementOrderTotal();
    SortSorted(PlacementOrder, candidates);
    FeasibleSorted(pl, Sort(PlacementOrder, candidates));
  }

  lemma BindLeast(feasible: seq<Placement>, estimate: Candidate)
    requires Sorted(PlacementOrder, feasible) && !HasNaN(estimate)
    requires exists p :: p in feasible && p.estimate == estimate
    ensures FirstWith(feasible, estimate).Some?
    ensures var first := FirstWith(feasible, estimate).value;
            first in feasible && first.estimate == estimate &&
            forall p :: p in feasible && p.estimate == estimate ==> PlacementOrder(first, p) != GT
  {
    hide SameEstimate, PlacementOrder, Sorted;
    FirstWithLeast(feasible, estimate);
    SameEstimateMeaning(estimate, estimate);
    if FirstWith(feasible, estimate).Some? {
      SameEstimateMeaning(FirstWith(feasible, estimate).value.estimate, estimate);
    }
  }

  lemma DecisionFallback(candidates: seq<Candidate>, k: Constraints, w: Weights)
    requires k.Valid() && w.Valid()
    ensures var e := Decision(candidates, k, w).value; e.fallback == FallbackOf(e.selected)
  {
  }

  // ----- rejections -----

  lemma {:induction false} RebindMembers(rejected: seq<Rejection>, feasible: seq<Placement>, p: Placement,
    reason: PlacementRejection)
    ensures (p, reason) in RebindAll(rejected, feasible) <==>
              p in feasible &&
              exists e, r :: (e, r) in rejected && SameEstimate(p.estimate, e) && reason == InferenceGate(r)
  {
    hide SameEstimate;
    if rejected != [] {
      var front := rejected[..|rejected| - 1];
      var (estimate, why) := rejected[|rejected| - 1];
      RebindMembers(front, feasible, p, reason);
      FilterMapMember(Rebind(estimate, why), feasible, (p, reason));
      assert rejected == front + [(estimate, why)];
      if p in feasible && SameEstimate(p.estimate, estimate) && reason == InferenceGate(why) {
        assert Rebind(estimate, why)(p) == Some((p, reason));
        assert (estimate, why) in rejected;
      }
    }
  }

  /** A placement that passes the gates but whose estimate holds a NaN: `==` cannot find it again. */
  predicate Lost(pl: Planner, p: Placement, k: Constraints, w: Weights) {
    pl.Gate(p).None? && ConfigError(k, w).None? && HasNaN(p.estimate)
  }

  lemma StoppedMembers(pl: Planner, candidates: seq<Placement>, p: Placement, reason: PlacementRejection)
    ensures (p, reason) in FilterMap(pl.Stop(), Sort(PlacementOrder, candidates)) <==>
              p in candidates && pl.Gate(p) == Some(reason)
  {
    hide Planner.Gate, FilterMap, Sort;
    SameMembers(PlacementOrder, candidates);
    FilterMapMember(pl.Stop(), Sort(PlacementOrder, candidates), (p, reason));
    if p in candidates && pl.Gate(p) == Some(reason) {
      assert pl.Stop()(p) == Some((p, reason));
    }
  }

  lemma MisconfiguredMembers(feasible: seq<Placement>, p: Placement, reason: PlacementRejection)
    ensures (p, reason) in FilterMap(Misconfigured, feasible) <==>
        p in feasible && reason == InferenceGate(InvalidPlanningConfig)
  {
    hide FilterMap;
    FilterMapMember(Misconfigured, feasible, (p, reason));
    if p in feasible && reason == InferenceGate(InvalidPlanningConfig) {
      assert Misconfigured(p) == Some((p, reason));
    }
  }

  lemma ReboundMembers(pl: Planner, candidates: seq<Placement>, k: Constraints, w: Weights, p: Placement,
    reason: PlacementRejection)
    requires ConfigError(k, w).None?
    ensures var feasible := Feasible(pl, candidates);
            (p, reason) in RebindAll(Decision(FilterMap(EstimateOf, feasible), k, w).value.rejected, feasible) <==>
              p in candidates && pl.Gate(p).None? && !HasNaN(p.estimate)
              && exists r :: Reason(p.estimate, k) == Some(r) && reason == InferenceGate(r)
  {
    hide Planner.Gate, FilterMap, Sort, Reason, SameEstimate, HasNaN, RebindAll;
    var feasible := Feasible(pl, candidates);
    var estimates := FilterMap(EstimateOf, feasible);
    var rejected := Decision(estimates, k, w).value.rejected;
    FeasibleMembers(pl, candidates);
    DecisionSplits(estimates, k, w);
    RebindMembers(rejected, feasible, p, reason);
    hide Decision;
    if e, r :| (e, r) in rejected && SameEstimate(p.estimate, e) && reason == InferenceGate(r) {
      SameEstimateMeaning(p.estimate, e);
    }
    if p in candidates && pl.Gate(p).None? && !HasNaN(p.estimate) && Reason(p.estimate, k).Some? {
      SameEstimateMeaning(p.estimate, p.estimate);
      assert (p.estimate, Reason(p.estimate, k).value) in rejected;
    }
  }

  /** As a set, the rejections are exactly the failing placements, each with its first failing reason,
      except for those lost to NaN. */
  lemma RejectionsExact(pl: Planner, candidates: seq<Placement>, k: Constraints, w: Weights, p: Placement,
    reason: PlacementRejection)
    ensures (p, reason) in Plan(pl, candidates, k, w).rejected <==>
              p in candidates && pl.FirstReason(p, k, w) == Some(reason) && !Lost(pl, p, k, w)
  {
    FeasibleMembers(pl, candidates);
    StoppedMembers(pl, candidates, p, reason);
    hide Planner.Gate, FilterMap, Sort, Reason, HasNaN, RebindAll, Decision, UnavailableNodes;
    var feasible := Feasible(pl, candidates);
    var stopped := FilterMap(pl.Stop(), Sort(PlacementOrder, candidates));
    DecisionFails(FilterMap(EstimateOf, feasible), k, w);
    if ConfigError(k, w).Some? {
      MisconfiguredMembers(feasible, p, reason);
      SameMembers(RejectedOrder, stopped + FilterMap(Misconfigured, feasible));
    } else {
      ReboundMembers(pl, candidates, k, w, p, reason);
      SameMembers(RejectedOrder, stopped
          + RebindAll(Decision(FilterMap(EstimateOf, feasible), k, w).value.rejected, feasible));
    }
  }

  /** A lost placement fails, yet is reported with no reason at all. */
  lemma LostIsSilent(pl: Planner, candidates: seq<Placement>, k: Constraints, w: Weights, p: Placement)
    requires p in candidates && Lost(pl, p, k, w)
    ensures pl.FirstReason(p, k, w) == Some(InferenceGate(InvalidEstimate))
    ensures forall reason :: (p, reason) !in Plan(pl, candidates, k, w).rejected
  {
    hide Plan, Planner.Gate;
    forall reason ensures (p, reason) !in Plan(pl, candidates, k, w).rejected {
      RejectionsExact(pl, candidates, k, w, p, reason);
    }
  }

  /** The exception is real: one placement with a NaN latency. */
  lemma LostExample() returns (pl: Planner, p: Placement, k: Constraints, w: Weights)
    ensures Lost(pl, p, k, w)
  {
    var model := ModelReference("m", "1");
    pl := Planner(map["b" := map[model := {NoKv}]], map["n" := ComputeNode("r", 0, 0, true, {model})],
                  Requirement(model, None, 0, 0));
    p := Placement("b", "n", Candidate(model, NoKv, NaN, Finite(0.0), Finite(0.0), Finite(1.0)));
    k := Constraints(Finite(1.0), Finite(1.0), Finite(0.0));
    w := Weights(Finite(1.0), Finite(0.0), Finite(0.0), Finite(0.0));
    assert ValidIdentifier("b") && ValidIdentifier("n");
  }

  /** The whole decision is a function of the placements as a multiset. */
  lemma PlanForgetsOrder(pl: Planner, a: seq<Placement>, b: seq<Placement>, k: Constraints, w: Weights)
    requires multiset(a) == multiset(b)
    ensures Plan(pl, a, k, w) == Plan(pl, b, k, w)
  {
    hide Sort, Decision, FilterMap, RebindAll;
    PlacementOrderTotal();
    SortForgetsOrder(PlacementOrder, a, b);
  }
}
