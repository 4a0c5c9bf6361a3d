/** Edge costs: validation, normalisation against tenant ceilings, weighted sum. */
module CostModel {
  import opened Prelude

  datatype RouterError = InvalidCostModel(message: string) | InvalidHealthPolicy(message: string)

  datatype CostWeights = CostWeights(dollar: Float, latency: Float, risk: Float, base: Float)

  datatype CostCeilings = CostCeilings(maxDollar: Float, maxLatencyMs: nat, maxBase: Float)

  datatype TenantCostModel = TenantCostModel(weights: CostWeights, ceilings: CostCeilings) {

    /** None when the model is accepted, otherwise the first complaint. */
    function Validate(): Option<RouterError> {
      var w := weights;
      var c := ceilings;
      if !w.dollar.NonNegative() || !w.latency.NonNegative() || !w.risk.NonNegative() || !w.base.NonNegative() then
        Some(InvalidCostModel("weights must be finite and non-negative"))
      else if w.dollar.value == 0.0 && w.latency.value == 0.0 && w.risk.value == 0.0 && w.base.value == 0.0 then
        Some(InvalidCostModel("at least one weight must be greater than zero"))
      else if !c.maxDollar.Finite? || !c.maxBase.Finite? || c.maxDollar.value <= 0.0 || c.maxBase.value <= 0.0
              || c.maxLatencyMs == 0 then
        Some(InvalidCostModel("ceilings must be finite and greater than zero"))
      else None
    }

    predicate Valid() {
      Validate().None?
    }
  }

  const DEFAULT_MODEL := TenantCostModel(
    CostWeights(Finite(0.4), Finite(0.3), Finite(0.2), Finite(0.1)), CostCeilings(Finite(0.01), 1000, Finite(10.0)))

  /** The measured costs of an edge. */
  datatype Costs = Costs(base: Float, dollar: Float, latencyMs: nat, risk: Float) {

    predicate Valid() {
      base.NonNegative() && dollar.NonNegative() && risk.NonNegative()
    }
  }

  function Normalize(value: real, ceiling: real): real {
    if ceiling <= 0.0 then 1.0 else Clamp(value / ceiling, 0.0, 1.0)
  }

  function Weighted(weight: real, share: real): real { weight * share }

  /** `IndexedEdge::weight` */
  function Weight(costs: Costs, model: TenantCostModel): Float {
    if !costs.Valid() || !model.Valid() then Infinity
    else
      var w := model.weights;
      var c := model.ceilings;
      Finite(Weighted(w.dollar.value, Normalize(costs.dollar.value, c.maxDollar.value))
             + Weighted(w.latency.value, Normalize(costs.latencyMs as real, c.maxLatencyMs as real))
             + Weighted(w.risk.value, Clamp(costs.risk.value, 0.0, 1.0))
             + Weighted(w.base.value, Normalize(costs.base.value, c.maxBase.value)))
  }

  lemma WeightedRange(w: real, x: real)
    requires w >= 0.0 && 0.0 <= x <= 1.0
    ensures 0.0 <= Weighted(w, x) <= w
  {
    assert w * x <= w * 1.0;
  }

  lemma NormalizeRange(value: real, ceiling: real)
    ensures 0.0 <= Normalize(value, ceiling) <= 1.0
  {
  }

  /** Whatever the units of the raw costs, a weight lies between 0 and the sum of the tenant's weights. */
  lemma WeightRange(costs: Costs, model: TenantCostModel)
    ensures Weight(costs, model).Finite? <==> costs.Valid() && model.Valid()
    ensures Weight(costs, model).Finite? ==>
              var w := model.weights;
              0.0 <= Weight(costs, model).value <= w.dollar.value + w.latency.value + w.risk.value + w.base.value
  {
    hide Normalize, Weighted;
    if costs.Valid() && model.Valid() {
      var w, c := model.weights, model.ceilings;
      NormalizeRange(costs.dollar.value, c.maxDollar.value);
      NormalizeRange(costs.latencyMs as real, c.maxLatencyMs as real);
      NormalizeRange(costs.base.value, c.maxBase.value);
      WeightedRange(w.dollar.value, Normalize(costs.dollar.value, c.maxDollar.value));
      WeightedRange(w.latency.value, Normalize(costs.latencyMs as real, c.maxLatencyMs as real));
      WeightedRange(w.risk.value, Clamp(costs.risk.value, 0.0, 1.0));
      WeightedRange(w.base.value, Normalize(costs.base.value, c.maxBase.value));
    }
  }

  // ----- what each cost contributes -----

  lemma WeightedMonotone(w: real, x: real, y: real)
    requires w >= 0.0 && x <= y
    ensures Weighted(w, x) <= Weighted(w, y)
  {
    assert w * (y - x) >= 0.0;
  }

  lemma NormalizeMonotone(a: real, b: real, ceiling: real)
    requires a <= b
    ensures Normalize(a, ceiling) <= Normalize(b, ceiling)
  {
    if ceiling > 0.0 {
      var p, q := a / ceiling, b / ceiling;
      assert p * ceiling == a && q * ceiling == b;
      if p > q {
        assert (p - q) * ceiling > 0.0;
      }
    }
  }

  ghost predicate NoDearer(a: Costs, b: Costs)
    requires a.Valid() && b.Valid()
  {
    a.base.value <= b.base.value && a.dollar.value <= b.dollar.value && a.latencyMs <= b.latencyMs
        && a.risk.value <= b.risk.value
  }

  /** Raising a cost never makes an edge lighter. */
  lemma WeightMonotone(a: Costs, b: Costs, model: TenantCostModel)
    requires a.Valid() && b.Valid() && model.Valid() && NoDearer(a, b)
    ensures Weight(a, model).value <= Weight(b, model).value
  {
    hide Normalize, Weighted, Clamp;
    var w, c := model.weights, model.ceilings;
    NormalizeMonotone(a.dollar.value, b.dollar.value, c.maxDollar.value);
    NormalizeMonotone(a.latencyMs as real, b.latencyMs as real, c.maxLatencyMs as real);
    NormalizeMonotone(a.base.value, b.base.value, c.maxBase.value);
    ClampMonotone(a.risk.value, b.risk.value);
    WeightedMonotone(w.dollar.value, Normalize(a.dollar.value, c.maxDollar.value),
        Normalize(b.dollar.value, c.maxDollar.value));
    WeightedMonotone(w.latency.value, Normalize(a.latencyMs as real, c.maxLatencyMs as real),
                     Normalize(b.latencyMs as real, c.maxLatencyMs as real));
    WeightedMonotone(w.risk.value, Clamp(a.risk.value, 0.0, 1.0), Clamp(b.risk.value, 0.0, 1.0));
    WeightedMonotone(w.base.value, Normalize(a.base.value, c.maxBase.value), Normalize(b.base.value, c.maxBase.value));
  }

  lemma ClampMonotone(a: real, b: real)
    requires a <= b
    ensures Clamp(a, 0.0, 1.0) <= Clamp(b, 0.0, 1.0)
  {
  }

  lemma NormalizeEnds(value: real, ceiling: real)
    requires ceiling > 0.0
    ensures Normalize(0.0, ceiling) == 0.0
    ensures value >= ceiling ==> Normalize(value, ceiling) == 1.0
  {
    var q := value / ceiling;
    assert q * ceiling == value;
    if value >= ceiling && q < 1.0 {
      assert (1.0 - q) * ceiling > 0.0;
    }
  }

  lemma WeightedEnds(w: real)
    ensures Weighted(w, 0.0) == 0.0 && Weighted(w, 1.0) == w
  {
  }

  /** A cost that is zero adds nothing; one at or above its ceiling adds exactly its own weight. */
  lemma WeightAtCeilings(costs: Costs, model: TenantCostModel, dollar: bool, latency: bool, risk: bool, base: bool)
    requires costs.Valid() && model.Valid()
    requires if dollar then costs.dollar.value >= model.ceilings.maxDollar.value else costs.dollar.value == 0.0
    requires if latency then costs.latencyMs >= model.ceilings.maxLatencyMs else costs.latencyMs == 0
    requires if risk then costs.risk.value >= 1.0 else costs.risk.value == 0.0
    requires if base then costs.base.value >= model.ceilings.maxBase.value else costs.base.value == 0.0
    ensures var w := model.weights;
            Weight(costs, model) ==
                Finite((if dollar then w.dollar.value else 0.0) + (if latency then w.latency.value else 0.0)
                                           + (if risk then w.risk.value else 0.0) + if base then w.base.value else 0.0)
  {
    hide Normalize, Weighted;
    var w, c := model.weights, model.ceilings;
    NormalizeEnds(costs.dollar.value, c.maxDollar.value);
    NormalizeEnds(costs.latencyMs as real, c.maxLatencyMs as real);
    NormalizeEnds(costs.base.value, c.maxBase.value);
    WeightedEnds(w.dollar.value);
    WeightedEnds(w.latency.value);
    WeightedEnds(w.risk.value);
    WeightedEnds(w.base.value);
  }

  /** Between zero and the ceilings the weight is linear: each cost counts with its own weight, per ceiling. */
  lemma WeightLinear(a: Costs, b: Costs, model: TenantCostModel)
    requires model.Valid() && Within(a, model.ceilings) && Within(b, model.ceilings)
    ensures var w, c := model.weights, model.ceilings;
            Weight(b, model).value - Weight(a, model).value ==
            w.dollar.value * ((b.dollar.value - a.dollar.value) / c.maxDollar.value)
            + w.latency.value * ((b.latencyMs - a.latencyMs) as real / c.maxLatencyMs as real)
            + w.risk.value * (b.risk.value - a.risk.value)
            + w.base.value * ((b.base.value - a.base.value) / c.maxBase.value)
  {
    hide Normalize, Weighted;
    var w, c := model.weights, model.ceilings;
    NormalizeDifference(a.dollar.value, b.dollar.value, c.maxDollar.value);
    NormalizeDifference(a.latencyMs as real, b.latencyMs as real, c.maxLatencyMs as real);
    NormalizeDifference(a.base.value, b.base.value, c.maxBase.value);
    WeightedDifference(w.dollar.value, Normalize(a.dollar.value, c.maxDollar.value),
                       Normalize(b.dollar.value, c.maxDollar.value));
    WeightedDifference(w.latency.value, Normalize(a.latencyMs as real, c.maxLatencyMs as real),
                       Normalize(b.latencyMs as real, c.maxLatencyMs as real));
    WeightedDifference(w.risk.value, a.risk.value, b.risk.value);
    WeightedDifference(w.base.value, Normalize(a.base.value, c.maxBase.value),
        Normalize(b.base.value, c.maxBase.value));
  }

  /** No cost exceeds its ceiling; the ceiling of the risk is 1. */
  ghost predicate Within(costs: Costs, c: CostCeilings)
    requires c.maxDollar.Finite? && c.maxBase.Finite?
  {
    && costs.Valid() && costs.dollar.value <= c.maxDollar.value && costs.latencyMs <= c.maxLatencyMs
    && costs.risk.value <= 1.0 && costs.base.value <= c.maxBase.value
  }

  lemma NormalizeDifference(a: real, b: real, ceiling: real)
    requires 0.0 <= a <= ceiling && 0.0 <= b <= ceiling && ceiling > 0.0
    ensures Normalize(b, ceiling) - Normalize(a, ceiling) == (b - a) / ceiling
  {
    var p, q := a / ceiling, b / ceiling;
    assert p * ceiling == a && q * ceiling == b;
    assert (1.0 - p) * ceiling >= 0.0 && (1.0 - q) * ceiling >= 0.0;
    assert 0.0 <= p <= 1.0 && 0.0 <= q <= 1.0;
  }

  lemma WeightedDifference(w: real, x: real, y: real)
    ensures Weighted(w, y) - Weighted(w, x) == w * (y - x)
  {
  }

  /** A cost above its ceiling weighs what the ceiling weighs. */
  lemma WeightSaturates(a: Costs, b: Costs, model: TenantCostModel)
    requires model.Valid() && a.Valid() && b.Valid()
    requires var c := model.ceilings;
             && b.dollar.value == Min(a.dollar.value, c.maxDollar.value) && b.risk.value == Min(a.risk.value, 1.0)
             && b.latencyMs == (if a.latencyMs < c.maxLatencyMs then a.latencyMs else c.maxLatencyMs)
             && b.base.value == Min(a.base.value, c.maxBase.value)
    ensures Weight(a, model) == Weight(b, model)
  {
    hide Normalize, Weighted;
    var c := model.ceilings;
    NormalizeSaturates(a.dollar.value, c.maxDollar.value);
    NormalizeSaturates(a.latencyMs as real, c.maxLatencyMs as real);
    NormalizeSaturates(a.base.value, c.maxBase.value);
  }

  lemma NormalizeSaturates(value: real, ceiling: real)
    requires ceiling > 0.0
    ensures Normalize(value, ceiling) == Normalize(Min(value, ceiling), ceiling)
  {
    NormalizeEnds(value, ceiling);
    NormalizeEnds(ceiling, ceiling);
  }

  // ----- validation -----

  /** Which models are accepted, and that the default is one. */
  lemma ModelValidIff(m: TenantCostModel)
    ensures m.Valid() <==>
              && m.weights.dollar.NonNegative() && m.weights.latency.NonNegative()
              && m.weights.risk.NonNegative() && m.weights.base.NonNegative()
              && (m.weights.dollar.value > 0.0 || m.weights.latency.value > 0.0
                  || m.weights.risk.value > 0.0 || m.weights.base.value > 0.0)
              && m.ceilings.maxDollar.Finite? && m.ceilings.maxDollar.value > 0.0
              && m.ceilings.maxBase.Finite? && m.ceilings.maxBase.value > 0.0 && m.ceilings.maxLatencyMs > 0
    ensures DEFAULT_MODEL.Valid() && DEFAULT_MODEL.weights.dollar.value + DEFAULT_MODEL.weights.latency.value
                                     + DEFAULT_MODEL.weights.risk.value + DEFAULT_MODEL.weights.base.value == 1.0
    ensures m.Validate() == Some(InvalidCostModel("weights must be finite and non-negative")) <==>
              !(m.weights.dollar.NonNegative() && m.weights.latency.NonNegative()
                && m.weights.risk.NonNegative() && m.weights.base.NonNegative())
    ensures m.Validate() == Some(InvalidCostModel("at least one weight must be greater than zero")) <==>
              m.weights == CostWeights(Finite(0.0), Finite(0.0), Finite(0.0), Finite(0.0))
    ensures m.Validate().Some? && m.weights == DEFAULT_MODEL.weights ==>
              m.Validate() == Some(InvalidCostModel("ceilings must be finite and greater than zero"))
    ensures DEFAULT_MODEL.weights == CostWeights(Finite(0.4), Finite(0.3), Finite(0.2), Finite(0.1))
    ensures DEFAULT_MODEL.ceilings == CostCeilings(Finite(0.01), 1000, Finite(10.0))
  {
  }
}
