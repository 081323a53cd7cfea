/**
 * The resource cost model: user weights for echoes, tuners and experience,
 * the experience refund ratio, and the per-slot weighted reveal costs derived
 * from them. Costs are in units of tuners and "Premium Sealed Tubes"
 * (one tube is 5000 raw experience).
 */
module Cost {
  import opened Base
  import opened Data

  const ECHO_COST: real := 1.0
  const TUNER_COST: real := 10.0
  const TUNER_REFUND_RATIO: real := 0.3
  const EXP_PER_TUBE: real := 5000.0

  /** Experience needed to reach each level from scratch, in tubes. */
  const EXP_COST_BY_LEVEL: seq<real> := [
    4400.0 / EXP_PER_TUBE, 16500.0 / EXP_PER_TUBE, 39600.0 / EXP_PER_TUBE,
    79100.0 / EXP_PER_TUBE, 142600.0 / EXP_PER_TUBE]

  /** Experience needed for each single level, in tubes. */
  const EXP_INCREMENTAL_COSTS: seq<real> := [
    4400.0 / EXP_PER_TUBE, 12100.0 / EXP_PER_TUBE, 23100.0 / EXP_PER_TUBE,
    39500.0 / EXP_PER_TUBE, 63500.0 / EXP_PER_TUBE]

  const EXP_REFUND_RATIO_DEFAULT: real := 0.66
  const EXP_REFUND_RATIO_MAX: real := 0.75

  datatype CostModelError =
    | NegativeWeight(field: string, value: F64)
    | AllWeightsZero
    | InvalidExpRefundRatio(value: F64)

  /** The cumulative table is the running sum of the per-level table. */
  lemma {:induction false} ExpCostByLevelIsPrefixSum(level: nat)
    requires level < NUM_ECHO_SLOTS
    ensures EXP_COST_BY_LEVEL[level] == Sum(EXP_INCREMENTAL_COSTS[..level + 1])
  {
    var inc := EXP_INCREMENTAL_COSTS;
    assert inc[..level + 1][..level] == inc[..level];
    if level > 0 {
      ExpCostByLevelIsPrefixSum(level - 1);
      assert EXP_COST_BY_LEVEL[level] == EXP_COST_BY_LEVEL[level - 1] + inc[level];
    }
  }

  /** One level of the cumulative table: the previous level plus this level's own cost. */
  lemma LevelStep(level: nat)
    requires level < NUM_ECHO_SLOTS
    ensures EXP_COST_BY_LEVEL[level] ==
      (if level == 0 then 0.0 else EXP_COST_BY_LEVEL[level - 1]) + EXP_INCREMENTAL_COSTS[level]
  {
  }

  lemma Distributes(f: real, a: real, b: real, c: real)
    requires a == b + c
    ensures f * a == f * b + f * c
  {
  }

  // ---------------------------------------------------------------------
  // Validation

  /** `validate_weights`: the first failing check, in the order echo, tuner, exp, ratio, all-zero. */
  function ValidateCostWeights(echo: F64, tuner: F64, exp: F64, ratio: F64): (r: Result<(), CostModelError>)
    ensures r.Ok? <==>
      echo.Finite? && tuner.Finite? && exp.Finite? && ratio.Finite? &&
      echo.val >= 0.0 && tuner.val >= 0.0 && exp.val >= 0.0 &&
      0.0 <= ratio.val <= EXP_REFUND_RATIO_MAX &&
      (echo.val != 0.0 || tuner.val != 0.0 || exp.val != 0.0)
  {
    if InvalidWeight(echo) then Err(NegativeWeight("weight_echo", echo))
    else if InvalidWeight(tuner) then Err(NegativeWeight("weight_tuner", tuner))
    else if InvalidWeight(exp) then Err(NegativeWeight("weight_exp", exp))
    else if !ratio.IsFinite() || !(0.0 <= ratio.val <= EXP_REFUND_RATIO_MAX) then Err(InvalidExpRefundRatio(ratio))
    else if echo.val == 0.0 && tuner.val == 0.0 && exp.val == 0.0 then Err(AllWeightsZero)
    else Ok(())
  }

  /** Which error the validation reports: the earliest failing field wins. */
  lemma ValidationErrorOrder(echo: F64, tuner: F64, exp: F64, ratio: F64)
    ensures InvalidWeight(echo) ==> ValidateCostWeights(echo, tuner, exp, ratio) == Err(NegativeWeight("weight_echo", echo))
    ensures !InvalidWeight(echo) && InvalidWeight(tuner) ==>
      ValidateCostWeights(echo, tuner, exp, ratio) == Err(NegativeWeight("weight_tuner", tuner))
    ensures !InvalidWeight(echo) && !InvalidWeight(tuner) && InvalidWeight(exp) ==>
      ValidateCostWeights(echo, tuner, exp, ratio) == Err(NegativeWeight("weight_exp", exp))
    ensures (!InvalidWeight(echo) && !InvalidWeight(tuner) && !InvalidWeight(exp) &&
              (!ratio.Finite? || ratio.val < 0.0 || ratio.val > EXP_REFUND_RATIO_MAX)) ==>
      ValidateCostWeights(echo, tuner, exp, ratio) == Err(InvalidExpRefundRatio(ratio))
    ensures ValidateCostWeights(echo, tuner, exp, ratio) == Err(AllWeightsZero) <==>
      !InvalidWeight(echo) && !InvalidWeight(tuner) && !InvalidWeight(exp) &&
      ratio.Finite? && 0.0 <= ratio.val <= EXP_REFUND_RATIO_MAX &&
      echo.val == 0.0 && tuner.val == 0.0 && exp.val == 0.0
  {
  }

  /** A weighted tuner spend per reveal: the part of a tuner that is not refunded. */
  function WeightedTunerCost(weightTuner: real): real
  {
    weightTuner * (1.0 - TUNER_REFUND_RATIO) * TUNER_COST
  }

  /** The weighted cost of revealing `slot`: a tuner, the level's experience, and the echo itself for slot 0. */
  function RevealCost(weightEcho: real, weightTuner: real, weightExp: real, ratio: real, slot: nat): real
    requires slot < NUM_ECHO_SLOTS
  {
    var base := WeightedTunerCost(weightTuner) + weightExp * (1.0 - ratio) * EXP_INCREMENTAL_COSTS[slot];
    if slot == 0 then base + weightEcho * ECHO_COST else base
  }

  /** The loop of `build_cached`: one weighted reveal cost per slot. */
  method BuildRevealCosts(weightEcho: real, weightTuner: real, weightExp: real, ratio: real)
    returns (costs: seq<real>)
    ensures |costs| == NUM_ECHO_SLOTS
    ensures forall slot :: 0 <= slot < NUM_ECHO_SLOTS ==>
      costs[slot] == RevealCost(weightEcho, weightTuner, weightExp, ratio, slot)
  {
    var cached := new real[NUM_ECHO_SLOTS](_ => 0.0);
    var weightedEchoCost := weightEcho * ECHO_COST;
    var weightedTunerCost := WeightedTunerCost(weightTuner);
    var weightedExpFactor := weightExp * (1.0 - ratio);
    for slot := 0 to NUM_ECHO_SLOTS
      invariant forall j :: 0 <= j < slot ==> cached[j] == RevealCost(weightEcho, weightTuner, weightExp, ratio, j)
    {
      var base := weightedTunerCost + weightedExpFactor * EXP_INCREMENTAL_COSTS[slot];
      cached[slot] := if slot == 0 then base + weightedEchoCost else base;
    }
    costs := cached[..];
  }

  /** Every reveal cost of a validated model is non-negative. */
  lemma RevealCostNonNegative(weightEcho: real, weightTuner: real, weightExp: real, ratio: real, slot: nat)
    requires slot < NUM_ECHO_SLOTS
    ensures weightEcho >= 0.0 && weightTuner >= 0.0 && weightExp >= 0.0 && 0.0 <= ratio <= EXP_REFUND_RATIO_MAX ==>
      RevealCost(weightEcho, weightTuner, weightExp, ratio, slot) >= 0.0
  {
    if weightExp >= 0.0 && ratio <= EXP_REFUND_RATIO_MAX {
      var f := weightExp * (1.0 - ratio);
      assert f >= 0.0;
      assert f * EXP_INCREMENTAL_COSTS[slot] >= 0.0;
    }
  }

  /** Revealing all five slots costs one echo, five net tuners and the whole unrefunded experience. */
  lemma RevealCostsSum(weightEcho: real, weightTuner: real, weightExp: real, ratio: real)
    ensures RevealCost(weightEcho, weightTuner, weightExp, ratio, 0) + RevealCost(weightEcho, weightTuner, weightExp, ratio, 1)
      + RevealCost(weightEcho, weightTuner, weightExp, ratio, 2) + RevealCost(weightEcho, weightTuner, weightExp, ratio, 3)
      + RevealCost(weightEcho, weightTuner, weightExp, ratio, 4)
      == weightEcho * ECHO_COST + 5.0 * WeightedTunerCost(weightTuner)
        + weightExp * (1.0 - ratio) * EXP_COST_BY_LEVEL[NUM_ECHO_SLOTS - 1]
  {
    var f := weightExp * (1.0 - ratio);
    var inc := EXP_INCREMENTAL_COSTS;
    assert f * inc[0] + f * inc[1] + f * inc[2] + f * inc[3] + f * inc[4]
      == f * (inc[0] + inc[1] + inc[2] + inc[3] + inc[4]);
  }

  // ---------------------------------------------------------------------
  // The model

  class CostModel {
    var weightEcho: real
    var weightTuner: real
    var weightExp: real
    var expRefundRatio: real
    var revealCostCached: seq<real>

    /** The cached table agrees with the weights. */
    predicate Cached()
      reads this
    {
      |revealCostCached| == NUM_ECHO_SLOTS &&
      forall slot :: 0 <= slot < NUM_ECHO_SLOTS ==>
        revealCostCached[slot] == RevealCost(weightEcho, weightTuner, weightExp, expRefundRatio, slot)
    }

    /** The weights passed validation, and the table agrees with them. */
    predicate Valid()
      reads this
    {
      Cached() &&
      ValidateCostWeights(Finite(weightEcho), Finite(weightTuner), Finite(weightExp), Finite(expRefundRatio)).Ok?
    }

    /** `build_cached`: store the weights and fill the reveal-cost table, without validation. */
    constructor BuildCached(weightEcho: real, weightTuner: real, weightExp: real, ratio: real)
      ensures this.weightEcho == weightEcho && this.weightTuner == weightTuner
      ensures this.weightExp == weightExp && this.expRefundRatio == ratio
      ensures Cached()
    {
      var costs := BuildRevealCosts(weightEcho, weightTuner, weightExp, ratio);
      this.weightEcho := weightEcho;
      this.weightTuner := weightTuner;
      this.weightExp := weightExp;
      this.expRefundRatio := ratio;
      revealCostCached := costs;
    }

    /** `tuner_only`: count tuners alone, with the default refund ratio. */
    constructor TunerOnly()
      ensures weightEcho == 0.0 && weightTuner == 1.0 && weightExp == 0.0
      ensures expRefundRatio == EXP_REFUND_RATIO_DEFAULT
      ensures Valid()
    {
      var costs := BuildRevealCosts(0.0, 1.0, 0.0, EXP_REFUND_RATIO_DEFAULT);
      weightEcho := 0.0;
      weightTuner := 1.0;
      weightExp := 0.0;
      expRefundRatio := EXP_REFUND_RATIO_DEFAULT;
      revealCostCached := costs;
    }

    /** `update_weights`: merge the given values over the current ones, validate, then rebuild. */
    method UpdateWeights(newEcho: Option<F64>, newTuner: Option<F64>, newExp: Option<F64>, newRatio: Option<F64>)
      returns (r: Result<(), CostModelError>)
      modifies this
      ensures r == ValidateCostWeights(
        Merge(newEcho, old(weightEcho)), Merge(newTuner, old(weightTuner)),
        Merge(newExp, old(weightExp)), Merge(newRatio, old(expRefundRatio)))
      ensures r.Err? ==> unchanged(this)
      ensures r.Ok? ==>
        Finite(weightEcho) == Merge(newEcho, old(weightEcho)) &&
        Finite(weightTuner) == Merge(newTuner, old(weightTuner)) &&
        Finite(weightExp) == Merge(newExp, old(weightExp)) &&
        Finite(expRefundRatio) == Merge(newRatio, old(expRefundRatio)) &&
        Valid()
    {
      var echo := Merge(newEcho, weightEcho);
      var tuner := Merge(newTuner, weightTuner);
      var exp := Merge(newExp, weightExp);
      var ratio := Merge(newRatio, expRefundRatio);
      r := ValidateCostWeights(echo, tuner, exp, ratio);
      if r.Err? {
        return;
      }
      var costs := BuildRevealCosts(echo.val, tuner.val, exp.val, ratio.val);
      weightEcho, weightTuner, weightExp, expRefundRatio := echo.val, tuner.val, exp.val, ratio.val;
      revealCostCached := costs;
    }

    /** `tuner_cost`: the part of a tuner that is not refunded. */
    function TunerCostNet(): (r: real)
      ensures r == TUNER_COST - TUNER_COST * TUNER_REFUND_RATIO && r == 7.0
    {
      (1.0 - TUNER_REFUND_RATIO) * TUNER_COST
    }

    /** `exp_cost`: the unrefunded experience of levelling `slot`. */
    function ExpCost(slot: nat): (r: real)
      requires slot < NUM_ECHO_SLOTS
      reads this
      ensures 0.0 <= expRefundRatio <= 1.0 ==> 0.0 <= r <= EXP_INCREMENTAL_COSTS[slot]
    {
      (1.0 - expRefundRatio) * EXP_INCREMENTAL_COSTS[slot]
    }

    /** `full_upgrade_exp_cost`: the unrefunded experience still needed when `currentSlot` slots are revealed. */
    function FullUpgradeExpCost(currentSlot: nat): real
      requires currentSlot <= NUM_ECHO_SLOTS
      reads this
    {
      var expNow := if currentSlot == 0 then 0.0 else EXP_COST_BY_LEVEL[currentSlot - 1];
      (1.0 - expRefundRatio) * (EXP_COST_BY_LEVEL[NUM_ECHO_SLOTS - 1] - expNow)
    }

    /** The full-upgrade cost is the sum of the per-level costs still ahead. */
    lemma {:induction false} FullUpgradeIsRemainingLevels(currentSlot: nat)
      requires currentSlot <= NUM_ECHO_SLOTS
      ensures FullUpgradeExpCost(currentSlot) == RemainingExpCost(currentSlot)
      decreases NUM_ECHO_SLOTS - currentSlot
    {
      if currentSlot < NUM_ECHO_SLOTS {
        FullUpgradeIsRemainingLevels(currentSlot + 1);
        var f := 1.0 - expRefundRatio;
        var top := EXP_COST_BY_LEVEL[NUM_ECHO_SLOTS - 1];
        var now := if currentSlot == 0 then 0.0 else EXP_COST_BY_LEVEL[currentSlot - 1];
        LevelStep(currentSlot);
        Distributes(f, top - now, EXP_INCREMENTAL_COSTS[currentSlot], top - EXP_COST_BY_LEVEL[currentSlot]);
      }
    }

    /** The sum of `exp_cost` over the slots from `currentSlot` to the last. */
    function RemainingExpCost(currentSlot: nat): real
      requires currentSlot <= NUM_ECHO_SLOTS
      reads this
      decreases NUM_ECHO_SLOTS - currentSlot
    {
      if currentSlot == NUM_ECHO_SLOTS then 0.0 else ExpCost(currentSlot) + RemainingExpCost(currentSlot + 1)
    }

    /** From scratch a full upgrade costs the whole unrefunded table; at the end it costs nothing. */
    lemma FullUpgradeEnds()
      ensures FullUpgradeExpCost(0) == (1.0 - expRefundRatio) * EXP_COST_BY_LEVEL[NUM_ECHO_SLOTS - 1]
      ensures FullUpgradeExpCost(NUM_ECHO_SLOTS) == 0.0
    {
    }

    /** With a refund ratio of at most 1, revealing more slots never raises the remaining cost. */
    lemma FullUpgradeNonIncreasing(a: nat, b: nat)
      requires a <= b <= NUM_ECHO_SLOTS && expRefundRatio <= 1.0
      ensures FullUpgradeExpCost(b) <= FullUpgradeExpCost(a)
    {
      var f := 1.0 - expRefundRatio;
      var top := EXP_COST_BY_LEVEL[NUM_ECHO_SLOTS - 1];
      var nowA := if a == 0 then 0.0 else EXP_COST_BY_LEVEL[a - 1];
      var nowB := if b == 0 then 0.0 else EXP_COST_BY_LEVEL[b - 1];
      assert nowA <= nowB;
      assert f * (top - nowA) - f * (top - nowB) == f * (nowB - nowA);
    }

    /** `weighted_reveal_cost`: the cached cost of revealing `slot`. */
    function WeightedRevealCost(slot: nat): (r: real)
      requires slot < NUM_ECHO_SLOTS && Cached()
      reads this
      ensures r == RevealCost(weightEcho, weightTuner, weightExp, expRefundRatio, slot)
      ensures Valid() ==> r >= 0.0
    {
      RevealCostNonNegative(weightEcho, weightTuner, weightExp, expRefundRatio, slot);
      revealCostCached[slot]
    }

    /** `success_additional_tuner_cost`: the refunds of five tuners, given up when the echo is kept. */
    function SuccessAdditionalTunerCost(): (r: real)
      ensures r == NUM_ECHO_SLOTS as real * TUNER_COST * TUNER_REFUND_RATIO && r == 15.0
    {
      TUNER_COST * TUNER_REFUND_RATIO * (NUM_ECHO_SLOTS as real)
    }

    /** `success_additional_exp_cost`: the experience refund given up when the echo is kept. */
    function SuccessAdditionalExpCost(): (r: real)
      reads this
    {
      expRefundRatio * EXP_COST_BY_LEVEL[NUM_ECHO_SLOTS - 1]
    }

    /** `weighted_success_additional_cost`: the weighted refunds given up when the echo is kept. */
    function WeightedSuccessAdditionalCost(): (r: real)
      reads this
      ensures r == weightTuner * 15.0 + weightExp * expRefundRatio * EXP_COST_BY_LEVEL[NUM_ECHO_SLOTS - 1]
      ensures Valid() ==> r >= 0.0
    {
      weightTuner * SuccessAdditionalTunerCost() + weightExp * SuccessAdditionalExpCost()
    }

    /** Keeping an echo and upgrading it fully costs the unrefunded plus the given-up experience: the whole table. */
    lemma KeptEchoExperience()
      ensures FullUpgradeExpCost(0) + SuccessAdditionalExpCost() == EXP_COST_BY_LEVEL[NUM_ECHO_SLOTS - 1]
    {
    }
  }

  /** `new`: validate, then build the model. */
  method NewCostModel(echo: F64, tuner: F64, exp: F64, ratio: F64) returns (r: Result<CostModel, CostModelError>)
    ensures r.Err? <==> ValidateCostWeights(echo, tuner, exp, ratio).Err?
    ensures r.Err? ==> r.error == ValidateCostWeights(echo, tuner, exp, ratio).error
    ensures r.Ok? ==> fresh(r.value) && r.value.Valid()
    ensures r.Ok? ==> Finite(r.value.weightEcho) == echo && Finite(r.value.weightTuner) == tuner
    ensures r.Ok? ==> Finite(r.value.weightExp) == exp && Finite(r.value.expRefundRatio) == ratio
  {
    var check := ValidateCostWeights(echo, tuner, exp, ratio);
    if check.Err? {
      return Err(check.error);
    }
    var model := new CostModel.BuildCached(echo.val, tuner.val, exp.val, ratio.val);
    return Ok(model);
  }

  /** `Option::unwrap_or` over a stored finite weight. */
  function Merge(given: Option<F64>, current: real): (r: F64)
    ensures given.None? ==> r == Finite(current)
    ensures given.Some? ==> r == given.value
  {
    if given.Some? then given.value else Finite(current)
  }
}
