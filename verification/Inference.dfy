/** Deterministic choice among inference candidates: feasibility first, then normalised scoring. */
module Inference {
  import opened Prelude

  datatype ModelReference = ModelReference(modelId: string, modelVersion: string)

  /** In the declared, and so the comparison, order. */
  datatype KvStrategy = NoKv | PrefixCache | CachedKv | CrossModelKvTransfer {
    function Rank(): int {
      match this
      case NoKv => 0
      case PrefixCache => 1
      case CachedKv => 2
      case CrossModelKvTransfer => 3
    }
  }

  datatype Candidate = Candidate(
    model: ModelReference, strategy: KvStrategy, latencyMs: Float, cost: Float, failureRate: Float, quality: Float)

  datatype DecisionError = InvalidConstraints | InvalidObjective

  datatype Constraints = Constraints(maxLatencyMs: Float, maxCost: Float, minQuality: Float) {
    predicate Valid() {
      maxLatencyMs.NonNegative() && maxCost.NonNegative() && minQuality.NonNegative() && minQuality.value <= 1.0
    }
  }

  datatype Weights = Weights(latency: Float, cost: Float, reliability: Float, quality: Float) {
    predicate Valid() {
      && latency.NonNegative() && cost.NonNegative() && reliability.NonNegative() && quality.NonNegative()
      && !(latency.value == 0.0 && cost.value == 0.0 && reliability.value == 0.0 && quality.value == 0.0)
    }

    predicate AllCount()
      requires Valid()
    {
      latency.value > 0.0 && cost.value > 0.0 && reliability.value > 0.0 && quality.value > 0.0
    }
  }

  /** In comparison order. */
  datatype RejectionReason =
    InvalidEstimate | LatencyConstraint | CostConstraint | QualityConstraint | InvalidPlanningConfig
  {
    function Rank(): int {
      match this
      case InvalidEstimate => 0
      case LatencyConstraint => 1
      case CostConstraint => 2
      case QualityConstraint => 3
      case InvalidPlanningConfig => 4
    }
  }

  datatype Scored = Scored(candidate: Candidate, score: real)

  type Rejection = (Candidate, RejectionReason)

  datatype Explanation = Explanation(
    selected: Option<Scored>, rejected: seq<Rejection>, fallback: seq<KvStrategy>, configError: Option<DecisionError>)

  // ----- orders -----

  function CompareModel(a: ModelReference, b: ModelReference): Ordering {
    CompareString(a.modelId, b.modelId).Then(CompareString(a.modelVersion, b.modelVersion))
  }

  function CompareStrategy(a: KvStrategy, b: KvStrategy): Ordering { CompareInt(a.Rank(), b.Rank()) }

  function CompareReason(a: RejectionReason, b: RejectionReason): Ordering { CompareInt(a.Rank(), b.Rank()) }

  function CompareReal(a: real, b: real): Ordering { CompareFloat(Finite(a), Finite(b)) }

  function ByQuality(a: Candidate, b: Candidate): Ordering { CompareFloat(a.quality, b.quality) }

  function ByFailure(a: Candidate, b: Candidate): Ordering {
    CompareFloat(a.failureRate, b.failureRate).Then(ByQuality(a, b))
  }

  function ByCost(a: Candidate, b: Candidate): Ordering { CompareFloat(a.cost, b.cost).Then(ByFailure(a, b)) }

  function ByLatency(a: Candidate, b: Candidate): Ordering { CompareFloat(a.latencyMs, b.latencyMs).Then(ByCost(a, b)) }

  function ByStrategy(a: Candidate, b: Candidate): Ordering {
    CompareStrategy(a.strategy, b.strategy).Then(ByLatency(a, b))
  }

  /** `candidate_order`: model, strategy, latency, cost, failure rate, quality. */
  function CandidateOrder(a: Candidate, b: Candidate): Ordering {
    CompareModel(a.model, b.model).Then(ByStrategy(a, b))
  }

  function RejectionOrder(a: Rejection, b: Rejection): Ordering {
    CandidateOrder(a.0, b.0).Then(CompareReason(a.1, b.1))
  }

  function ScoredOrder(a: Scored, b: Scored): Ordering {
    CompareReal(a.score, b.score).Then(CandidateOrder(a.candidate, b.candidate))
  }

  lemma ModelOrder()
    ensures TotalOrder(CompareModel)
  {
    StringOrder();
    TotalIsWeak(CompareString);
    var id := (a: ModelReference, b: ModelReference) => CompareString(a.modelId, b.modelId);
    var version := (a: ModelReference, b: ModelReference) => CompareString(a.modelVersion, b.modelVersion);
    KeyWeak(CompareString, (m: ModelReference) => m.modelId, id);
    KeyWeak(CompareString, (m: ModelReference) => m.modelVersion, version);
    ThenWeak(id, version, CompareModel);
    WeakIsTotal(CompareModel);
  }

  lemma NumbersWeak()
    ensures WeakOrder(ByLatency)
    ensures forall a, b :: ByLatency(a, b) == EQ <==>
              a.latencyMs == b.latencyMs && a.cost == b.cost && a.failureRate == b.failureRate && a.quality == b.quality
  {
    FloatOrder();
    TotalIsWeak(CompareFloat);
    hide CompareFloat;
    KeyWeak(CompareFloat, (c: Candidate) => c.quality, ByQuality);
    var failure := (a: Candidate, b: Candidate) => CompareFloat(a.failureRate, b.failureRate);
    KeyWeak(CompareFloat, (c: Candidate) => c.failureRate, failure);
    ThenWeak(failure, ByQuality, ByFailure);
    var cost := (a: Candidate, b: Candidate) => CompareFloat(a.cost, b.cost);
    KeyWeak(CompareFloat, (c: Candidate) => c.cost, cost);
    ThenWeak(cost, ByFailure, ByCost);
    var latency := (a: Candidate, b: Candidate) => CompareFloat(a.latencyMs, b.latencyMs);
    KeyWeak(CompareFloat, (c: Candidate) => c.latencyMs, latency);
    ThenWeak(latency, ByCost, ByLatency);
  }

  /** Candidates that compare equal are the same candidate. */
  lemma CandidateOrderTotal()
    ensures TotalOrder(CandidateOrder)
  {
    NumbersWeak();
    ModelOrder();
    hide ByLatency, CompareModel;
    TotalIsWeak(CompareModel);
    var strategy := (a: Candidate, b: Candidate) => CompareStrategy(a.strategy, b.strategy);
    assert WeakOrder(strategy);
    ThenWeak(strategy, ByLatency, ByStrategy);
    var model := (a: Candidate, b: Candidate) => CompareModel(a.model, b.model);
    KeyWeak(CompareModel, (c: Candidate) => c.model, model);
    ThenWeak(model, ByStrategy, CandidateOrder);
    WeakIsTotal(CandidateOrder);
  }

  lemma RejectionOrderTotal()
    ensures TotalOrder(RejectionOrder)
  {
    CandidateOrderTotal();
    hide CandidateOrder;
    TotalIsWeak(CandidateOrder);
    var candidate := (a: Rejection, b: Rejection) => CandidateOrder(a.0, b.0);
    KeyWeak(CandidateOrder, (r: Rejection) => r.0, candidate);
    var reason := (a: Rejection, b: Rejection) => CompareReason(a.1, b.1);
    assert WeakOrder(reason);
    ThenWeak(candidate, reason, RejectionOrder);
    WeakIsTotal(RejectionOrder);
  }

  lemma ScoredOrderTotal()
    ensures TotalOrder(ScoredOrder)
  {
    CandidateOrderTotal();
    hide CandidateOrder;
    TotalIsWeak(CandidateOrder);
    var score := (a: Scored, b: Scored) => CompareReal(a.score, b.score);
    assert WeakOrder(score);
    var candidate := (a: Scored, b: Scored) => CandidateOrder(a.candidate, b.candidate);
    KeyWeak(CandidateOrder, (s: Scored) => s.candidate, candidate);
    ThenWeak(score, candidate, ScoredOrder);
    WeakIsTotal(ScoredOrder);
  }

  // ----- feasibility and score of one candidate -----

  /** The first constraint a candidate fails. */
  function Reason(c: Candidate, k: Constraints): Option<RejectionReason> {
    if !c.latencyMs.NonNegative() || !c.cost.NonNegative() || !c.failureRate.NonNegative() || !c.quality.NonNegative()
       || c.failureRate.value > 1.0 || c.quality.value > 1.0 then Some(InvalidEstimate)
    else if k.maxLatencyMs.Less(c.latencyMs) then Some(LatencyConstraint)
    else if k.maxCost.Less(c.cost) then Some(CostConstraint)
    else if c.quality.Less(k.minQuality) then Some(QualityConstraint)
    else None
  }

  function Normalized(value: real, ceiling: real): real {
    if ceiling == 0.0 then 0.0 else value / ceiling
  }

  function Times(weight: real, x: real): real { weight * x }

  function Score(c: Candidate, k: Constraints, w: Weights): real
    requires k.Valid() && w.Valid() && Reason(c, k).None?
  {
    Times(w.latency.value, Normalized(c.latencyMs.value, k.maxLatencyMs.value))
    + Times(w.cost.value, Normalized(c.cost.value, k.maxCost.value))
    + Times(w.reliability.value, c.failureRate.value)
    + Times(w.quality.value, 1.0 - c.quality.value)
  }

  function Reject(k: Constraints): Candidate -> Option<Rejection> {
    c => match Reason(c, k) case Some(reason) => Some((c, reason)) case None => None
  }

  function Accept(k: Constraints, w: Weights): Candidate -> Option<Scored>
    requires k.Valid() && w.Valid()
  {
    c => if Reason(c, k).None? then Some(Scored(c, Score(c, k, w))) else None
  }

  /** What to fall back to when a strategy is not available, best first. */
  function Fallback(strategy: KvStrategy): (r: seq<KvStrategy>)
    ensures forall s :: s in r <==> s.Rank() < strategy.Rank()
    ensures forall i, j :: 0 <= i < j < |r| ==> r[j].Rank() < r[i].Rank()
  {
    match strategy
    case CrossModelKvTransfer => [CachedKv, PrefixCache, NoKv]
    case CachedKv => [PrefixCache, NoKv]
    case PrefixCache => [NoKv]
    case NoKv => []
  }

  // ----- the decision -----

  function ConfigError(k: Constraints, w: Weights): Option<DecisionError> {
    if !k.Valid() then Some(InvalidConstraints) else if !w.Valid() then Some(InvalidObjective) else None
  }

  function FallbackOf(selected: Option<Scored>): seq<KvStrategy> {
    match selected case Some(s) => Fallback(s.candidate.strategy) case None => []
  }

  /** `try_decide` */
  function Decision(candidates: seq<Candidate>, k: Constraints, w: Weights): Result<Explanation, DecisionError> {
    match ConfigError(k, w)
    case Some(error) => Err(error)
    case None =>
      var rejected := Sort(RejectionOrder, FilterMap(Reject(k), candidates));
      var feasible := Sort(ScoredOrder, FilterMap(Accept(k, w), candidates));
      var selected := if feasible == [] then None else Some(feasible[0]);
      Ok(Explanation(selected, rejected, FallbackOf(selected), None))
  }

  method TryDecide(candidates: seq<Candidate>, constraints: Constraints, weights: Weights)
    returns (r: Result<Explanation, DecisionError>)
    ensures r == Decision(candidates, constraints, weights)
  {
    if !constraints.Valid() {
      return Err(InvalidConstraints);
    }
    if !weights.Valid() {
      return Err(InvalidObjective);
    }
    var rejected: seq<Rejection> := [];
    var feasible: seq<Scored> := [];
    for i := 0 to |candidates|
      invariant rejected == FilterMap(Reject(constraints), candidates[..i])
      invariant feasible == FilterMap(Accept(constraints, weights), candidates[..i])
    {
      var candidate := candidates[i];
      assert candidates[..i + 1][..i] == candidates[..i];
      var reason := Reason(candidate, constraints);
      if reason.Some? {
        rejected := rejected + [(candidate, reason.value)];
      } else {
        feasible := feasible + [Scored(candidate, Score(candidate, constraints, weights))];
      }
    }
    assert candidates[..|candidates|] == candidates;
    rejected := Sort(RejectionOrder, rejected);
    feasible := Sort(ScoredOrder, feasible);
    var selected := if feasible == [] then None else Some(feasible[0]);
    return Ok(Explanation(selected, rejected, FallbackOf(selected), None));
  }

  function Marked(c: Candidate): Option<Rejection> { Some((c, InvalidPlanningConfig)) }

  /** The entry point that never fails: invalid configuration rejects everything. */
  method Decide(candidates: seq<Candidate>, constraints: Constraints, weights: Weights) returns (e: Explanation)
    ensures match Decision(candidates, constraints, weights)
            case Ok(decision) => e == decision
            case Err(error) =>
              e == Explanation(None, Sort(RejectionOrder, FilterMap(Marked, candidates)), [], Some(error))
  {
    var r := TryDecide(candidates, constraints, weights);
    match r {
      case Ok(decision) => e := decision;
      case Err(error) =>
        var rejected: seq<Rejection> := [];
        for i := 0 to |candidates|
          invariant rejected == FilterMap(Marked, candidates[..i])
        {
          assert candidates[..i + 1][..i] == candidates[..i];
          rejected := rejected + [(candidates[i], InvalidPlanningConfig)];
        }
        assert candidates[..|candidates|] == candidates;
        e := Explanation(None, Sort(RejectionOrder, rejected), [], Some(error));
    }
  }

  // ----- what the gates and the configuration checks ask for -----

  /** The estimate makes sense: all four measures are finite and not negative, the two rates at most 1. */
  ghost predicate Sensible(c: Candidate) {
    && c.latencyMs.Finite? && c.latencyMs.value >= 0.0 && c.cost.Finite? && c.cost.value >= 0.0
    && c.failureRate.Finite? && 0.0 <= c.failureRate.value <= 1.0 && c.quality.Finite? && 0.0 <= c.quality.value <= 1.0
  }

  /** A candidate is rejected for the first of these that applies: estimate, latency, cost, quality. */
  lemma ReasonIff(c: Candidate, k: Constraints)
    requires k.Valid()
    ensures Reason(c, k) == Some(InvalidEstimate) <==> !Sensible(c)
    ensures Reason(c, k) == Some(LatencyConstraint) <==> Sensible(c) && c.latencyMs.value > k.maxLatencyMs.value
    ensures Reason(c, k) == Some(CostConstraint) <==>
              Sensible(c) && c.latencyMs.value <= k.maxLatencyMs.value && c.cost.value > k.maxCost.value
    ensures Reason(c, k) == Some(QualityConstraint) <==>
              && Sensible(c) && c.latencyMs.value <= k.maxLatencyMs.value && c.cost.value <= k.maxCost.value
              && c.quality.value < k.minQuality.value
    ensures Reason(c, k) != Some(InvalidPlanningConfig)
    ensures Reason(c, k).None? <==>
              && Sensible(c) && c.latencyMs.value <= k.maxLatencyMs.value && c.cost.value <= k.maxCost.value
              && c.quality.value >= k.minQuality.value
  {
  }

  /** Constraints are finite and not negative, the quality floor at most 1; weights are so too, and one counts.
      Constraints are complained about first. */
  lemma ConfigErrorIff(k: Constraints, w: Weights)
    ensures ConfigError(k, w) == Some(InvalidConstraints) <==>
              !(k.maxLatencyMs.NonNegative() && k.maxCost.NonNegative() && k.minQuality.NonNegative()
                && k.minQuality.value <= 1.0)
    ensures ConfigError(k, w).None? ==> k.Valid() && w.Valid()
    ensures k.Valid() ==>
              (ConfigError(k, w).None? <==>
               && w.latency.NonNegative() && w.cost.NonNegative() && w.reliability.NonNegative()
                   && w.quality.NonNegative()
               && (w.latency.value > 0.0 || w.cost.value > 0.0 || w.reliability.value > 0.0 || w.quality.value > 0.0))
  {
  }

  /** The order of candidates: the first measure in this list that differs decides, smaller values first. */
  lemma CandidateOrderMeaning(a: Candidate, b: Candidate)
    ensures CandidateOrder(a, b) == LT <==>
              || CompareString(a.model.modelId, b.model.modelId) == LT
              || (a.model.modelId == b.model.modelId && CompareString(a.model.modelVersion, b.model.modelVersion) == LT)
              || (a.model == b.model && Below(a.strategy, b.strategy))
              || (a.model == b.model && a.strategy == b.strategy && NumbersBefore(a, b))
  {
    CompareStringEq(a.model.modelId, b.model.modelId);
    CompareStringEq(a.model.modelVersion, b.model.modelVersion);
    hide CompareString;
  }

  /** None before prefix cache, before cached, before transferred. */
  ghost predicate Below(a: KvStrategy, b: KvStrategy) {
    || (a.NoKv? && !b.NoKv?) || (a.PrefixCache? && (b.CachedKv? || b.CrossModelKvTransfer?))
    || (a.CachedKv? && b.CrossModelKvTransfer?)
  }

  ghost predicate NumbersBefore(a: Candidate, b: Candidate) {
    || CompareFloat(a.latencyMs, b.latencyMs) == LT
    || (a.latencyMs == b.latencyMs && CompareFloat(a.cost, b.cost) == LT)
    || (a.latencyMs == b.latencyMs && a.cost == b.cost && CompareFloat(a.failureRate, b.failureRate) == LT)
    || (a.latencyMs == b.latencyMs && a.cost == b.cost && a.failureRate == b.failureRate
        && CompareFloat(a.quality, b.quality) == LT)
  }

  /** Scores and rejections come in this order too: the lower score, and the reasons as they are tested. */
  lemma OutputOrderMeaning(a: Scored, b: Scored, c: Candidate)
    ensures a.score < b.score ==> ScoredOrder(a, b) == LT
    ensures a.score == b.score ==> ScoredOrder(a, b) == CandidateOrder(a.candidate, b.candidate)
    ensures forall r, s :: CandidateOrder(a.candidate, b.candidate) == LT ==>
              RejectionOrder((a.candidate, r), (b.candidate, s)) == LT
    ensures RejectionOrder((c, InvalidEstimate), (c, LatencyConstraint)) == LT
    ensures RejectionOrder((c, LatencyConstraint), (c, CostConstraint)) == LT
    ensures RejectionOrder((c, CostConstraint), (c, QualityConstraint)) == LT
    ensures RejectionOrder((c, QualityConstraint), (c, InvalidPlanningConfig)) == LT
  {
    CandidateOrderTotal();
    hide CandidateOrder;
  }

  // ----- what a decision promises -----

  lemma DecisionFails(candidates: seq<Candidate>, k: Constraints, w: Weights)
    ensures Decision(candidates, k, w).Err? <==> ConfigError(k, w).Some?
  {
  }

  lemma TimesRange(weight: real, x: real)
    requires weight >= 0.0 && 0.0 <= x <= 1.0
    ensures 0.0 <= Times(weight, x) <= weight
  {
    assert weight * x <= weight * 1.0;
  }

  lemma NormalizedRange(value: real, ceiling: real)
    requires 0.0 <= value <= ceiling
    ensures 0.0 <= Normalized(value, ceiling) <= 1.0
  {
    if ceiling > 0.0 {
      var q := value / ceiling;
      assert q * ceiling == value;
    }
  }

  /** A feasible candidate scores between 0 and the sum of the weights. */
  lemma ScoreRange(c: Candidate, k: Constraints, w: Weights)
    requires k.Valid() && w.Valid() && Reason(c, k).None?
    ensures 0.0 <= Score(c, k, w) <= w.latency.value + w.cost.value + w.reliability.value + w.quality.value
  {
    hide Times, Normalized;
    NormalizedRange(c.latencyMs.value, k.maxLatencyMs.value);
    NormalizedRange(c.cost.value, k.maxCost.value);
    TimesRange(w.latency.value, Normalized(c.latencyMs.value, k.maxLatencyMs.value));
    TimesRange(w.cost.value, Normalized(c.cost.value, k.maxCost.value));
    TimesRange(w.reliability.value, c.failureRate.value);
    TimesRange(w.quality.value, 1.0 - c.quality.value);
  }

  lemma NormalizedDifference(x: real, y: real, ceiling: real)
    requires 0.0 <= x <= ceiling && 0.0 <= y <= ceiling
    ensures Normalized(y, ceiling) - Normalized(x, ceiling) == PerCeiling(y - x, ceiling)
  {
  }

  /** A difference as a share of its ceiling; under a ceiling of zero there is none. */
  function PerCeiling(difference: real, ceiling: real): real {
    if ceiling == 0.0 then 0.0 else difference / ceiling
  }

  lemma TimesDifference(weight: real, x: real, y: real, d: real)
    requires y - x == d
    ensures Times(weight, y) - Times(weight, x) == weight * d && Times(weight, 0.0) == 0.0
  {
    assert weight * y == weight * x + weight * d;
  }

  /** Each weight counts for its own measure: two feasible candidates differ in score by latency and cost per ceiling,
      failure rate, and lack of quality, each times its weight; and nothing is scored against the perfect candidate. */
  lemma ScoreDifference(a: Candidate, b: Candidate, k: Constraints, w: Weights)
    requires k.Valid() && w.Valid() && Reason(a, k).None? && Reason(b, k).None?
    ensures Score(b, k, w) - Score(a, k, w) ==
            w.latency.value * PerCeiling(b.latencyMs.value - a.latencyMs.value, k.maxLatencyMs.value)
            + w.cost.value * PerCeiling(b.cost.value - a.cost.value, k.maxCost.value)
            + w.reliability.value * (b.failureRate.value - a.failureRate.value)
            - w.quality.value * (b.quality.value - a.quality.value)
    ensures a.latencyMs.value == a.cost.value == a.failureRate.value == 0.0 && a.quality.value == 1.0 ==>
              Score(a, k, w) == 0.0
  {
    hide Times, Normalized, PerCeiling;
    NormalizedDifference(a.latencyMs.value, b.latencyMs.value, k.maxLatencyMs.value);
    NormalizedDifference(a.cost.value, b.cost.value, k.maxCost.value);
    NormalizedZero(k.maxLatencyMs.value);
    NormalizedZero(k.maxCost.value);
    TimesDifference(w.latency.value, Normalized(a.latencyMs.value, k.maxLatencyMs.value),
                    Normalized(b.latencyMs.value, k.maxLatencyMs.value),
                    PerCeiling(b.latencyMs.value - a.latencyMs.value, k.maxLatencyMs.value));
    TimesDifference(w.cost.value, Normalized(a.cost.value, k.maxCost.value), Normalized(b.cost.value, k.maxCost.value),
                    PerCeiling(b.cost.value - a.cost.value, k.maxCost.value));
    TimesDifference(w.reliability.value, a.failureRate.value, b.failureRate.value,
        b.failureRate.value - a.failureRate.value);
    TimesDifference(w.quality.value, 1.0 - b.quality.value, 1.0 - a.quality.value, b.quality.value - a.quality.value);
  }

  lemma NormalizedZero(ceiling: real)
    ensures Normalized(0.0, ceiling) == 0.0
  {
  }

  lemma Opposite(w: real, x: real, y: real)
    ensures w * ((1.0 - y) - (1.0 - x)) == -(w * (y - x)) == w * (x - y)
  {
    var d := y - x;
    assert (1.0 - y) - (1.0 - x) == -d && x - y == -d;
    assert w * -d == -(w * d);
  }

  /** In one measure alone. */
  lemma ScoreOfOneMeasure(a: Candidate, b: Candidate, k: Constraints, w: Weights)
    requires k.Valid() && w.Valid() && Reason(a, k).None? && Reason(b, k).None?
    ensures var d := Score(b, k, w) - Score(a, k, w);
            && (b == a.(latencyMs := b.latencyMs) && k.maxLatencyMs.value > 0.0 ==>
                  d == w.latency.value * ((b.latencyMs.value - a.latencyMs.value) / k.maxLatencyMs.value))
            && (b == a.(cost := b.cost) && k.maxCost.value > 0.0 ==>
                  d == w.cost.value * ((b.cost.value - a.cost.value) / k.maxCost.value))
            && (b == a.(failureRate := b.failureRate) ==>
                  d == w.reliability.value * (b.failureRate.value - a.failureRate.value))
            && (b == a.(quality := b.quality) ==> d == w.quality.value * (a.quality.value - b.quality.value))
  {
    hide Score, Reason;
    ReasonIff(a, k);
    ReasonIff(b, k);
    ScoreDifference(a, b, k, w);
    Opposite(w.quality.value, a.quality.value, b.quality.value);
    NoDifference(w.latency.value, k.maxLatencyMs.value);
    NoDifference(w.cost.value, k.maxCost.value);
    NoDifference(w.reliability.value, 1.0);
    NoDifference(w.quality.value, 1.0);
  }

  lemma NoDifference(w: real, ceiling: real)
    ensures w * PerCeiling(0.0, ceiling) == 0.0 && w * 0.0 == 0.0
  {
  }

  /** At least as good in all four measures. */
  ghost predicate NoWorse(a: Candidate, b: Candidate) {
    !b.latencyMs.Less(a.latencyMs) && !b.cost.Less(a.cost)
    && !b.failureRate.Less(a.failureRate) && !a.quality.Less(b.quality)
  }

  ghost predicate Better(a: Candidate, b: Candidate) {
    NoWorse(a, b)
    && (a.latencyMs.Less(b.latencyMs) || a.cost.Less(b.cost) || a.failureRate.Less(b.failureRate)
        || b.quality.Less(a.quality))
  }

  lemma TimesMonotone(weight: real, x: real, y: real)
    requires weight >= 0.0 && x <= y
    ensures Times(weight, x) <= Times(weight, y)
    ensures weight > 0.0 && x < y ==> Times(weight, x) < Times(weight, y)
  {
    var d := y - x;
    assert Times(weight, y) == Times(weight, x) + weight * d;
    assert weight * d >= 0.0;
    if weight > 0.0 && d > 0.0 {
      assert weight * d > 0.0;
    }
  }

  lemma NormalizedMonotone(x: real, y: real, ceiling: real)
    requires 0.0 <= x <= y <= ceiling
    ensures Normalized(x, ceiling) <= Normalized(y, ceiling)
    ensures x < y ==> Normalized(x, ceiling) < Normalized(y, ceiling)
  {
    if ceiling > 0.0 {
      var p, q := x / ceiling, y / ceiling;
      assert p * ceiling == x && q * ceiling == y;
      assert (q - p) * ceiling == y - x;
    }
  }

  /** A candidate that is no worse scores no higher; one that is better scores lower when every weight counts. */
  lemma ScoreDominates(a: Candidate, b: Candidate, k: Constraints, w: Weights)
    requires k.Valid() && w.Valid() && Reason(a, k).None? && Reason(b, k).None? && NoWorse(a, b)
    ensures Score(a, k, w) <= Score(b, k, w)
    ensures Better(a, b) && w.AllCount() ==>
              Score(a, k, w) < Score(b, k, w)
  {
    hide Times, Normalized;
    NormalizedMonotone(a.latencyMs.value, b.latencyMs.value, k.maxLatencyMs.value);
    NormalizedMonotone(a.cost.value, b.cost.value, k.maxCost.value);
    TimesMonotone(w.latency.value, Normalized(a.latencyMs.value, k.maxLatencyMs.value),
        Normalized(b.latencyMs.value, k.maxLatencyMs.value));
    TimesMonotone(w.cost.value, Normalized(a.cost.value, k.maxCost.value), Normalized(b.cost.value, k.maxCost.value));
    TimesMonotone(w.reliability.value, a.failureRate.value, b.failureRate.value);
    TimesMonotone(w.quality.value, 1.0 - a.quality.value, 1.0 - b.quality.value);
  }

  function First(r: Rejection): Option<Candidate> { Some(r.0) }

  function CandidateOf(s: Scored): Option<Candidate> { Some(s.candidate) }

  lemma {:induction false} SplitExact(candidates: seq<Candidate>, k: Constraints, w: Weights)
    requires k.Valid() && w.Valid()
    ensures multiset(FilterMap(First, FilterMap(Reject(k), candidates)))
            + multiset(FilterMap(CandidateOf, FilterMap(Accept(k, w), candidates))) == multiset(candidates)
  {
    hide Reason, Score, FilterMap;
    if candidates == [] {
      FilterMapNone(Reject(k));
      FilterMapNone(Accept(k, w));
      FilterMapNone(First);
      FilterMapNone(CandidateOf);
    } else {
      var front, c := candidates[..|candidates| - 1], candidates[|candidates| - 1];
      SplitExact(front, k, w);
      assert candidates == front + [c];
      FilterMapSnoc(Reject(k), front, c);
      FilterMapSnoc(Accept(k, w), front, c);
      assert FilterMap(Reject(k), front) + [] == FilterMap(Reject(k), front);
      assert FilterMap(Accept(k, w), front) + [] == FilterMap(Accept(k, w), front);
      if Reason(c, k).Some? {
        FilterMapSnoc(First, FilterMap(Reject(k), front), (c, Reason(c, k).value));
      } else {
        FilterMapSnoc(CandidateOf, FilterMap(Accept(k, w), front), Scored(c, Score(c, k, w)));
      }
    }
  }

  /** Every candidate ends up exactly once among the rejected or the feasible ones. */
  lemma DecisionSplits(candidates: seq<Candidate>, k: Constraints, w: Weights)
    requires k.Valid() && w.Valid()
    ensures var e := Decision(candidates, k, w).value;
            multiset(FilterMap(First, e.rejected))
                + multiset(FilterMap(CandidateOf, FilterMap(Accept(k, w), candidates)))
            == multiset(candidates)
    ensures forall c, reason :: (c, reason) in Decision(candidates, k, w).value.rejected <==>
              c in candidates && Reason(c, k) == Some(reason)
    ensures Sorted(RejectionOrder, Decision(candidates, k, w).value.rejected)
  {
    hide Reason, Score, FilterMap, Sort, Sorted;
    RejectionOrderTotal();
    SortSorted(RejectionOrder, FilterMap(Reject(k), candidates));
    var rejected := FilterMap(Reject(k), candidates);
    var sorted := Sort(RejectionOrder, rejected);
    SplitExact(candidates, k, w);
    FilterMapForgetsOrder(First, sorted, rejected);
    forall c, reason ensures (c, reason) in sorted <==> c in candidates && Reason(c, k) == Some(reason) {
      FilterMapMember(Reject(k), candidates, (c, reason));
      assert (c, reason) in sorted <==> (c, reason) in multiset(sorted);
      assert (c, reason) in rejected <==> (c, reason) in multiset(rejected);
      if c in candidates && Reason(c, k) == Some(reason) {
        assert Reject(k)(c) == Some((c, reason));
      }
    }
  }

  /** Under an invalid configuration every candidate is rejected as often as it occurs, for that reason. */
  lemma RejectsAll(candidates: seq<Candidate>)
    ensures var rejected := Sort(RejectionOrder, FilterMap(Marked, candidates));
            && multiset(FilterMap(First, rejected)) == multiset(candidates)
            && Sorted(RejectionOrder, rejected)
            && forall r :: r in rejected ==> r.1 == InvalidPlanningConfig
  {
    hide Sort, Sorted, FilterMap;
    var marked := FilterMap(Marked, candidates);
    var rejected := Sort(RejectionOrder, marked);
    RejectionOrderTotal();
    SortSorted(RejectionOrder, marked);
    FilterMapForgetsOrder(First, rejected, marked);
    MarkedFirst(candidates);
    forall r | r in rejected ensures r.1 == InvalidPlanningConfig {
      assert r in multiset(rejected);
      FilterMapMember(Marked, candidates, r);
    }
  }

  lemma {:induction false} MarkedFirst(candidates: seq<Candidate>)
    ensures FilterMap(First, FilterMap(Marked, candidates)) == candidates
  {
    if candidates != [] {
      var front := candidates[..|candidates| - 1];
      MarkedFirst(front);
      FilterMapSnoc(First, FilterMap(Marked, front), (candidates[|candidates| - 1], InvalidPlanningConfig));
    }
  }

  /** The selected candidate is feasible and least by (score, candidate order); none is selected only
      when none is feasible. */
  lemma DecisionSelectsLeast(candidates: seq<Candidate>, k: Constraints, w: Weights)
    requires k.Valid() && w.Valid()
    ensures match Decision(candidates, k, w).value.selected
            case None => forall c :: c in candidates ==> Reason(c, k).Some?
            case Some(best) =>
              && best.candidate in candidates && Reason(best.candidate, k).None?
              && best.score == Score(best.candidate, k, w)
              && forall c :: c in candidates && Reason(c, k).None? ==>
                  ScoredOrder(best, Scored(c, Score(c, k, w))) != GT
  {
    hide Reason, Score, FilterMap, Sort, ScoredOrder;
    var feasible := FilterMap(Accept(k, w), candidates);
    var sorted := Sort(ScoredOrder, feasible);
    ScoredOrderTotal();
    SortSorted(ScoredOrder, feasible);
    forall c | c in candidates && Reason(c, k).None?
      ensures Scored(c, Score(c, k, w)) in sorted
    {
      var s := Scored(c, Score(c, k, w));
      assert Accept(k, w)(c) == Some(s);
      FilterMapMember(Accept(k, w), candidates, s);
      assert s in multiset(feasible);
      assert s in multiset(sorted);
    }
    if sorted != [] {
      var best := sorted[0];
      assert best in multiset(sorted);
      FilterMapMember(Accept(k, w), candidates, best);
      assert ScoredOrder(best, best) == EQ;
      assert forall j :: 0 <= j < |sorted| ==> ScoredOrder(best, sorted[j]) != GT;
    }
  }

  /** With positive weights no feasible candidate is better than the selected one in one measure and no worse in
      the others. */
  lemma SelectedUndominated(candidates: seq<Candidate>, k: Constraints, w: Weights, c: Candidate)
    requires k.Valid() && w.Valid() && c in candidates && Reason(c, k).None?
    requires w.AllCount()
    ensures var selected := Decision(candidates, k, w).value.selected;
            selected.Some? && !Better(c, selected.value.candidate)
  {
    hide Decision, Reason, Score, CandidateOrder, Better;
    DecisionFails(candidates, k, w);
    DecisionSelectsLeast(candidates, k, w);
    var best := Decision(candidates, k, w).value.selected.value;
    if Better(c, best.candidate) {
      BetterNoWorse(c, best.candidate);
      ScoreDominates(c, best.candidate, k, w);
      assert false;
    }
  }

  lemma BetterNoWorse(a: Candidate, b: Candidate)
    requires Better(a, b)
    ensures NoWorse(a, b)
  {
  }

  /** A decision under a valid configuration reports no error, and falls back from what it selected; an invalid one is
      the error and nothing else. */
  lemma DecisionReports(candidates: seq<Candidate>, k: Constraints, w: Weights)
    ensures match Decision(candidates, k, w)
            case Err(error) => ConfigError(k, w) == Some(error)
            case Ok(e) =>
              && ConfigError(k, w).None? && e.configError.None?
              && match e.selected
                 case None => e.fallback == []
                 case Some(best) =>
                   forall s :: s in e.fallback <==> s != best.candidate.strategy && Below(s, best.candidate.strategy)
  {
    hide FilterMap, Sort;
  }

  /** The explanation, rejections and fallback included, does not depend on the order of the candidates. */
  lemma DecisionForgetsOrder(a: seq<Candidate>, b: seq<Candidate>, k: Constraints, w: Weights)
    requires multiset(a) == multiset(b)
    ensures Decision(a, k, w) == Decision(b, k, w)
  {
    if ConfigError(k, w).None? {
      hide Reason, Score, FilterMap, Sort;
      RejectionOrderTotal();
      ScoredOrderTotal();
      FilterMapForgetsOrder(Reject(k), a, b);
      FilterMapForgetsOrder(Accept(k, w), a, b);
      SortForgetsOrder(RejectionOrder, FilterMap(Reject(k), a), FilterMap(Reject(k), b));
      SortForgetsOrder(ScoredOrder, FilterMap(Accept(k, w), a), FilterMap(Accept(k, w), b));
    }
  }
}
