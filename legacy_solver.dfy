/**
 * The older generation of the engine, `PolicySolver` (rust/src/solver.rs with
 * solver/solver_mask.rs and solver/solver_cost.rs). Its caches, PMFs, cost
 * model and `value_rec` recursion are those of `UpgradePolicySolver`, which
 * it wraps; what it does differently is modelled here: lambda held as an
 * `Option`, a target cast without validation, a decision query that trusts
 * its mask, its own layout of the expected-cost memo, and the bracketing that
 * starts `lambda_search`.
 */
module LegacySolver {
  import opened Base
  import opened Bits
  import opened Data
  import opened Mask
  import opened Scoring
  import opened Cost
  import opened PolicyValue
  import opened ExpectedCost
  import opened PolicyCache
  import UpgradePolicy

  /**
   * `SolverError`, plus `Panic` for what aborts the program instead of
   * returning: an index out of bounds or an `unwrap` of `None`.
   */
  datatype LegacyError =
    | TargetScoreImpossible
    | NonFiniteLambda
    | LambdaNotBracketed
    | PolicyNotDerived
    | ExpectedResourcesNotComputed
    | LambdaNotFoundWithinMaxIter
    | InvalidScore
    | Panic

  /** The same error under the older generation's name. */
  function FromEngine(e: UpgradePolicy.SolverError): LegacyError
  {
    match e
    case PolicyNotDerived => PolicyNotDerived
    case ExpectedResourcesNotComputed => ExpectedResourcesNotComputed
    case InvalidScore => InvalidScore
    case LambdaNotBracketed => LambdaNotBracketed
    case LambdaNotFoundWithinMaxIter => LambdaNotFoundWithinMaxIter
    case TargetScoreImpossible(_, _) => TargetScoreImpossible
    case _ => Panic
  }

  /** An answer of the newer generation, with its error renamed. */
  function FromEngineResult<T>(r: Result<T, UpgradePolicy.SolverError>): Result<T, LegacyError>
  {
    match r
    case Ok(v) => Ok(v)
    case Err(e) => Err(FromEngine(e))
  }

  // ---------------------------------------------------------------------
  // solver_mask.rs: the mask table and its lookup

  /** `MASK_SPACE`: every mask with at most four buffs lies at or below it. */
  const MASK_SPACE: nat := 7680

  /** `is_valid_mask`: at most four buffs chosen, whatever the bits above bit 12. */
  predicate IsValidMask(mask: nat)
  {
    Popcount(mask) <= NUM_ECHO_SLOTS - 1
  }

  /**
   * `mask_to_cache_index`: the inverse table read at `mask`, which has
   * `MASK_SPACE + 1` entries. The table and `MASKS` are the partial-mask
   * tables of the newer generation: same bound, same validity test.
   */
  function CacheIndex(mask: nat): (r: Result<nat, LegacyError>)
    ensures r.Ok? <==> mask <= MASK_SPACE
    ensures IsMaskInDomain(mask) && IsValidMask(mask) ==> r.Ok?
    ensures r.Ok? && IsValidMask(mask) ==>
      && IsValidExternalPartialMask(mask)
      && r.value < NUM_PARTIAL_MASKS && |Masks(Partial)| == NUM_PARTIAL_MASKS && Masks(Partial)[r.value] == mask
    ensures r == Ok(0) && IsValidMask(mask) ==> mask == 0
  {
    if mask > MASK_SPACE then
      OutsideTable(mask);
      Err(Panic)
    else
      LegacyTableIsPartialTable(mask);
      Ok(MaskToIndex(Partial, mask))
  }

  /** Above `MASK_SPACE` lie only masks outside the domain or with five or more buffs. */
  lemma OutsideTable(mask: nat)
    requires mask > MASK_SPACE
    ensures !(IsMaskInDomain(mask) && IsValidMask(mask))
  {
    if IsValidExternalPartialMask(mask) {
      PartialIndexInRange(mask);
    }
  }

  /** Within `MASK_SPACE`, the older table is the newer generation's partial-mask table. */
  lemma LegacyTableIsPartialTable(mask: nat)
    requires mask <= MASK_SPACE
    ensures mask <= Space(Partial)
    ensures IsValidMask(mask) <==> IsValidExternalPartialMask(mask)
    ensures IsValidMask(mask) ==>
      MaskToIndex(Partial, mask) < NUM_PARTIAL_MASKS && |Masks(Partial)| == NUM_PARTIAL_MASKS
      && Masks(Partial)[MaskToIndex(Partial, mask)] == mask
    ensures IsValidMask(mask) && MaskToIndex(Partial, mask) == 0 ==> mask == 0
  {
    MaskCounts(Partial);
    if IsValidMask(mask) {
      MaskIndexBijection(Partial);
      PartialIndexInRange(mask);
      if mask != 0 {
        NonzeroRank(mask);
      }
    }
  }

  /** The older table's bound is the newer generation's, derived from the same shifted all-ones pattern. */
  lemma SameMaskSpace()
    ensures MASK_SPACE == PARTIAL_MASK_SPACE == (Pow2(NUM_ECHO_SLOTS - 1) - 1) * Pow2(NUM_BUFFS - (NUM_ECHO_SLOTS - 1))
  {
    ConstantsAgree();
  }

  // ---------------------------------------------------------------------
  // solver_cost.rs: the three state constructors

  /** `ExpectedCostState::default()`: not computed (the NaN marker), nothing spent. */
  function DefaultState(): (s: CostState)
    ensures s.successProbability.None? && s.tuner == 0.0 && s.exp == 0.0
  {
    DEFAULT_STATE
  }

  /** `failed_state`: no chance of success, nothing spent. */
  function FailedState(): (s: CostState)
    ensures s.successProbability == Some(0.0) && s.tuner == 0.0 && s.exp == 0.0
  {
    FAILED_STATE
  }

  /**
   * `always_success_state(cost_model, used_slots)`: success is certain, and
   * the tuners and experience of every slot still to reveal are spent; with
   * every slot revealed nothing is left to spend.
   */
  function AlwaysSuccessState(costModel: CostModel, usedSlots: nat): (s: CostState)
    requires usedSlots <= NUM_ECHO_SLOTS
    reads costModel
    ensures s.successProbability == Some(1.0)
    ensures usedSlots == NUM_ECHO_SLOTS ==> s.tuner == 0.0 && s.exp == 0.0
    ensures usedSlots < NUM_ECHO_SLOTS ==> s.tuner > 0.0
  {
    costModel.FullUpgradeEnds();
    CostState(Some(1.0), (NUM_ECHO_SLOTS - usedSlots) as real * costModel.TunerCostNet(),
              costModel.FullUpgradeExpCost(usedSlots))
  }

  /** With a refund ratio of at most one, a certain success costs no more the more slots are already revealed. */
  lemma AlwaysSuccessNonIncreasing(costModel: CostModel, a: nat, b: nat)
    requires a <= b <= NUM_ECHO_SLOTS && costModel.expRefundRatio <= 1.0
    ensures AlwaysSuccessState(costModel, b).tuner <= AlwaysSuccessState(costModel, a).tuner
    ensures AlwaysSuccessState(costModel, b).exp <= AlwaysSuccessState(costModel, a).exp
  {
    costModel.FullUpgradeNonIncreasing(a, b);
  }

  /** Before the last slot the older state is the newer generation's `guaranteed_success_state` for the same cost model. */
  lemma AlwaysSuccessIsGuaranteed(w: Walk, costModel: CostModel, usedSlots: nat)
    requires WalkShaped(w) && usedSlots < NUM_ECHO_SLOTS
    requires w.tunerCost == costModel.TunerCostNet() && w.fullExpCosts[usedSlots] == costModel.FullUpgradeExpCost(usedSlots)
    ensures AlwaysSuccessState(costModel, usedSlots) == GuaranteedState(w, usedSlots)
  {
  }

  // ---------------------------------------------------------------------
  // The target and the memo layout

  /**
   * `(target_score_raw * 100.0).round() as u16` with no check: NaN casts to
   * 0 and the infinities saturate. On a finite value it is the newer
   * generation's target, which only adds the NaN and infinity checks.
   */
  function LegacyTarget(raw: F64): (t: nat)
    ensures t <= U16_MAX
    ensures raw.Finite? ==> t == UpgradePolicy.TargetFromRaw(raw.val)
    ensures raw.NaN? || raw.NegInf? ==> t == 0
    ensures raw.PosInf? ==> t == U16_MAX
  {
    match raw
    case Finite(v) =>
      NonPositiveTarget(v);
      ScaledU16(v, SCORE_MULTIPLIER)
    case NaN => 0
    case PosInf => U16_MAX
    case NegInf => 0
  }

  lemma NonPositiveTarget(v: real)
    ensures v <= 0.0 ==> ScaledU16(v, SCORE_MULTIPLIER) == 0
  {
    if v <= 0.0 {
      assert v * SCORE_MULTIPLIER <= 0.0;
      var r := Round(v * SCORE_MULTIPLIER);
      assert r as real - 0.5 <= 0.0;
    }
  }

  /**
   * One memo entry in the older layout: `None` for an abandoned mask and for
   * one whose cut-off is at or above the target, and the states otherwise;
   * the empty echo always keeps its single root state.
   */
  function LegacyEntry(e: MemoEntry, index: nat, target: nat): Option<seq<CostState>>
  {
    match e
    case Abandon => None
    case Reachable(cutOff, states) => if index == 0 || cutOff < target then Some(states) else None
  }

  function LegacyMemo(memo: seq<MemoEntry>, target: nat): (r: seq<Option<seq<CostState>>>)
    ensures |r| == |memo| && forall i :: 0 <= i < |memo| ==> r[i] == LegacyEntry(memo[i], i, target)
  {
    seq(|memo|, i requires 0 <= i < |memo| => LegacyEntry(memo[i], i, target))
  }

  /** `cache[index].as_ref().unwrap()[key].success_prob`, with NaN reported as `InvalidScore`. */
  function ReadProbability(entry: Option<seq<CostState>>, key: nat): (r: Result<real, LegacyError>)
    ensures r == Err(Panic) <==> entry.None? || key >= |entry.value|
    ensures r.Ok? ==> entry.value[key].successProbability == Some(r.value)
  {
    if entry.None? || key >= |entry.value| then Err(Panic)
    else
      match entry.value[key].successProbability
      case None => Err(InvalidScore)
      case Some(probability) => Ok(probability)
  }

  /**
   * Where the newer generation finds the state inside the entry, the older
   * layout holds the same states, and reading it at the intended key gives
   * the same answer.
   */
  lemma ReadAgrees(memo: seq<MemoEntry>, index: nat, target: nat, score: nat)
    requires index < |memo| && memo[index].Reachable? && memo[index].cutOff <= score
    requires score - memo[index].cutOff < |memo[index].states|
    requires index == 0 || memo[index].cutOff < target
    ensures LegacyEntry(memo[index], index, target) == Some(memo[index].states)
    ensures ReadProbability(LegacyEntry(memo[index], index, target), IntendedKey(score, memo[index].cutOff))
         == FromEngineResult(UpgradePolicy.StoredProbability(memo, index, score))
  {
  }

  /** The memo key `get_success_prob` uses: `score.min(target_score)`. */
  function AsWrittenKey(score: nat, target: nat): nat
  {
    MinNat(score, target)
  }

  /** The key the memo is laid out by: the distance of the score from the mask's cut-off. */
  function IntendedKey(score: nat, cutOff: nat): (k: nat)
    requires cutOff <= score
    ensures cutOff + k == score
  {
    score - cutOff
  }

  /** Below the target and at or above the cut-off, the intended key fits the `target - cut_off + 1` states. */
  lemma IntendedKeyInRange(score: nat, cutOff: nat, target: nat)
    requires cutOff <= score < target
    ensures IntendedKey(score, cutOff) < target - cutOff + 1
  {
  }

  /**
   * A mask with cut-off 50, target 100 and a continuing score of 60 has 51
   * states; the key `score.min(target)` is 60, past their end, while
   * `score - cut_off` is 10.
   */
  lemma AsWrittenKeyPastEnd()
    ensures var states := seq(100 - 50 + 1, _ => CostState(Some(0.5), 0.0, 0.0));
      && ReadProbability(Some(states), AsWrittenKey(60, 100)) == Err(Panic)
      && ReadProbability(Some(states), IntendedKey(60, 50)) == Ok(0.5)
  {
    var states := seq(100 - 50 + 1, _ => CostState(Some(0.5), 0.0, 0.0));
    assert AsWrittenKey(60, 100) == 60 && |states| == 51;
    assert states[IntendedKey(60, 50)] == CostState(Some(0.5), 0.0, 0.0);
  }

  /** Below the target the two keys agree exactly when the cut-off is 0. */
  lemma KeysAgreeOnlyAtZeroCutOff(score: nat, cutOff: nat, target: nat)
    requires cutOff <= score < target
    ensures AsWrittenKey(score, target) == IntendedKey(score, cutOff) <==> cutOff == 0
  {
  }

  // ---------------------------------------------------------------------
  // The solver

  /** `lambda_search`'s `hi` after `n` doublings. */
  function Doubled(hi: real, n: nat): (r: real)
    ensures hi > 0.0 ==> r >= hi
  {
    if n == 0 then hi else 2.0 * Doubled(hi, n - 1)
  }

  lemma DoubledStep(hi: real, n: nat)
    ensures Doubled(hi, n + 1) == 2.0 * Doubled(hi, n)
  {
  }

  /**
   * The outcome of bracketing the root of `f` from `lo` and `hi`: rejected
   * unless `f(lo) > 0`; otherwise `hi` was doubled `n <= 80` times while `f`
   * stayed positive there, and the bracket `(lo, hi * 2^n)` is returned
   * exactly when `f` is negative at its upper end.
   */
  ghost predicate Bracketed(f: real -> real, lo: real, hi: real, n: nat, r: Result<(real, real), LegacyError>)
  {
    && (f(lo) <= 0.0 ==> r == Err(LambdaNotBracketed))
    && (f(lo) > 0.0 ==>
          && n <= 80
          && (forall k :: 0 <= k < n ==> f(Doubled(hi, k)) > 0.0)
          && (n < 80 ==> f(Doubled(hi, n)) <= 0.0)
          && (r.Ok? <==> f(Doubled(hi, n)) < 0.0)
          && (r.Ok? ==> r.value == (lo, Doubled(hi, n)))
          && (r.Err? ==> r.error == LambdaNotBracketed))
  }

  /** `f` is positive at each of the first `n` doublings of `hi`. */
  ghost predicate PositiveUpTo(f: real -> real, hi: real, n: nat)
  {
    n == 0 || (PositiveUpTo(f, hi, n - 1) && f(Doubled(hi, n - 1)) > 0.0)
  }

  lemma {:induction false} PositiveUpToAll(f: real -> real, hi: real, n: nat)
    requires PositiveUpTo(f, hi, n)
    ensures forall k :: 0 <= k < n ==> f(Doubled(hi, k)) > 0.0
  {
    if n > 0 {
      PositiveUpToAll(f, hi, n - 1);
    }
  }

  /** A non-positive value at `lo` is rejected before any doubling. */
  lemma NotBracketedAtLo(f: real -> real, lo: real, hi: real, fa: real)
    requires fa == f(lo) && fa <= 0.0
    ensures Bracketed(f, lo, hi, 0, Err(LambdaNotBracketed))
  {
  }

  /**
   * The doubling loop's exit: positive at each earlier doubling, and either
   * 80 doublings done or the last value no longer positive.
   */
  lemma DoublingOutcome(f: real -> real, lo: real, hi: real, n: nat, fa: real, fb: real)
    requires fa == f(lo) && fa > 0.0 && fb == f(Doubled(hi, n))
    requires n <= 80 && PositiveUpTo(f, hi, n) && (n < 80 ==> fb <= 0.0)
    ensures Bracketed(f, lo, hi, n, if fb < 0.0 then Ok((lo, Doubled(hi, n))) else Err(LambdaNotBracketed))
  {
    PositiveUpToAll(f, hi, n);
  }

  /** The advantage of revealing the first slot of an empty echo at lambda `x`. */
  ghost function RootAdvantageAt(pmfs: seq<Pmf>, target: nat, costs: seq<real>, x: real): real
    requires |pmfs| == NUM_BUFFS && |costs| == NUM_ECHO_SLOTS
  {
    ZeroHasNoBits(0);
    Advantage(Problem(pmfs, target, x, costs), 0, 0)
  }

  /**
   * `f` is the root advantage as a function of lambda. The quantifier fires
   * only where the advantage itself is mentioned, so reasoning about `f`
   * does not unfold the value recursion.
   */
  ghost predicate Describes(f: real -> real, pmfs: seq<Pmf>, target: nat, costs: seq<real>)
    requires |pmfs| == NUM_BUFFS && |costs| == NUM_ECHO_SLOTS
  {
    forall x {:trigger RootAdvantageAt(pmfs, target, costs, x)} :: f(x) == RootAdvantageAt(pmfs, target, costs, x)
  }

  /** The root advantage exists as a function of lambda. */
  lemma AdvantageFunction(pmfs: seq<Pmf>, target: nat, costs: seq<real>) returns (f: real -> real)
    requires |pmfs| == NUM_BUFFS && |costs| == NUM_ECHO_SLOTS
    ensures Describes(f, pmfs, target, costs)
  {
    f := x => RootAdvantageAt(pmfs, target, costs, x);
  }

  class PolicySolver {
    /** The caches, PMFs, target and cost model, with the DP over them. */
    const engine: UpgradePolicy.UpgradePolicySolver
    /** `expected_cost_cache`: one optional state list per partial mask, once computed. */
    var expectedCostCache: Option<seq<Option<seq<CostState>>>>

    /**
     * The wrapped solver is valid, and a kept memo is the older layout of the
     * sound memo of a walk whose root succeeds with positive probability.
     */
    ghost predicate Valid()
      reads this, engine, engine.Repr, engine.costModel
    {
      && engine.Valid()
      && (expectedCostCache.Some? ==>
            && engine.expectedCostCache.Computed? && engine.CostsSound()
            && expectedCostCache.value == LegacyMemo(engine.expectedCostCache.memo, engine.targetScore)
            && engine.expectedCostCache.memo[0].states[0].successProbability.value > 0.0)
    }

    /** A kept memo has one entry per partial mask. */
    ghost predicate MemoFits()
      reads this
    {
      expectedCostCache.Some? ==> |expectedCostCache.value| == NUM_PARTIAL_MASKS
    }

    lemma ValidMemoFits()
      requires Valid()
      ensures MemoFits()
    {
    }

    /** Wrap a freshly built solver, keeping no memo. */
    constructor (engine: UpgradePolicy.UpgradePolicySolver)
      requires engine.Valid()
      ensures this.engine == engine && expectedCostCache.None? && Valid()
    {
      this.engine := engine;
      expectedCostCache := None;
    }

    /** `lambda`: the lambda the policy was derived at, if any. */
    function Lambda(): Option<real>
      reads engine
    {
      if engine.isPolicyDerived then Some(engine.lambda) else None
    }

    /** `is_policy_derived`: whether lambda is set. */
    function IsPolicyDerived(): (r: bool)
      reads engine
      ensures r <==> Lambda().Some?
    {
      engine.isPolicyDerived
    }

    /**
     * `update_target_score`: a target beyond the best possible score is
     * rejected and changes nothing; otherwise lambda is unset, the caches
     * cleared and the target set. Unlike the newer generation it accepts NaN
     * (as 0) and reports +infinity as impossible.
     */
    method UpdateTargetScore(raw: F64) returns (r: Result<(), LegacyError>)
      requires Valid()
      modifies this`expectedCostCache, engine`targetScore, engine`lambda, engine`isPolicyDerived,
               engine`touchedCache, engine`expectedCostCache, engine.Repr
      ensures Valid()
      ensures r.Err? <==> LegacyTarget(raw) > engine.maxPossibleScore
      ensures r.Err? ==> r.error == TargetScoreImpossible && unchanged(this) && unchanged(engine) && unchanged(engine.Repr)
      ensures r.Ok? ==> engine.targetScore == LegacyTarget(raw) && Lambda().None? && expectedCostCache.None?
      ensures r.Ok? ==> forall i :: 0 <= i < |engine.caches| ==> UpgradePolicy.Cleared(engine.caches[i])
    {
      var target := LegacyTarget(raw);
      if target > engine.maxPossibleScore {
        return Err(TargetScoreImpossible);
      }
      engine.Retarget(target);
      expectedCostCache := None;
      return Ok(());
    }

    /**
     * `get_decision`: the empty echo continues, a mask of five or more buffs
     * stops (whatever its other bits), and any other mask is looked up by
     * `mask_to_cache_index`, which aborts above the table.
     */
    function GetDecision(mask: nat, score: nat): (r: Result<bool, LegacyError>)
      requires engine.StaticFit()
      reads engine, engine.Repr
      ensures !IsPolicyDerived() ==> r == Err(PolicyNotDerived)
      ensures IsPolicyDerived() && mask == 0 ==> r == Ok(true)
      ensures IsPolicyDerived() && mask != 0 && !IsValidMask(mask) ==> r == Ok(false)
      ensures IsPolicyDerived() && mask != 0 && IsValidMask(mask) ==>
        (r == Err(Panic) <==> !IsMaskInDomain(mask))
      ensures r == Ok(true) && mask != 0 ==>
        && IsValidExternalPartialMask(mask) && engine.caches[engine.CacheIndex(mask)].cutOff.Some?
        && engine.caches[engine.CacheIndex(mask)].cutOff.value <= score
    {
      if !engine.isPolicyDerived then Err(PolicyNotDerived)
      else if mask == 0 then Ok(true)
      else if !IsValidMask(mask) then Ok(false)
      else
        match CacheIndex(mask)
        case Err(e) => Err(e)
        case Ok(index) =>
          LegacyTableIsPartialTable(mask);
          assert index == engine.CacheIndex(mask);
          var d := engine.caches[index].GetDecision(score);
          Ok(d.Some? && d.value)
    }

    /** On the valid masks both generations decide alike; they differ only on masks outside the domain. */
    lemma DecisionsAgree(mask: nat, score: nat)
      requires engine.StaticFit()
      requires IsValidExternalPartialMask(mask) || IsValidExternalFullMask(mask)
      ensures GetDecision(mask, score) == FromEngineResult(engine.GetDecision(mask, score))
    {
      if IsValidExternalFullMask(mask) {
        ExternalValidityExclusive(mask);
      } else if mask != 0 && engine.isPolicyDerived {
        PartialIndexInRange(mask);
        LegacyTableIsPartialTable(mask);
      }
    }

    /** The decision is monotone in the score. */
    lemma DecisionMonotone(mask: nat, low: nat, high: nat)
      requires engine.StaticFit() && low <= high && GetDecision(mask, low) == Ok(true)
      ensures GetDecision(mask, high) == Ok(true)
    {
    }

    /**
     * `get_success_prob` as written: 0 where the policy stops (checked
     * before the target), 1 at or above the target, and otherwise the memo
     * entry read at `score.min(target_score)`.
     */
    function GetSuccessProbAsWritten(mask: nat, score: nat): (r: Result<real, LegacyError>)
      requires engine.StaticFit() && MemoFits()
      reads this, engine, engine.Repr
      ensures GetDecision(mask, score).Err? ==> r == Err(GetDecision(mask, score).error)
      ensures GetDecision(mask, score) == Ok(false) ==> r == Ok(0.0)
      ensures GetDecision(mask, score) == Ok(true) && score >= engine.targetScore ==> r == Ok(1.0)
      ensures GetDecision(mask, score) == Ok(true) && score < engine.targetScore && expectedCostCache.None? ==>
        r == Err(ExpectedResourcesNotComputed)
    {
      match GetDecision(mask, score)
      case Err(e) => Err(e)
      case Ok(continues) =>
        if !continues then Ok(0.0)
        else if score >= engine.targetScore then Ok(1.0)
        else if expectedCostCache.None? then Err(ExpectedResourcesNotComputed)
        else
          var index := CacheIndex(mask).value;
          ReadProbability(expectedCostCache.value[index], AsWrittenKey(score, engine.targetScore))
    }

    /** `get_success_prob` with the memo read at `score - cut_off`, the key it is laid out by. */
    function GetSuccessProb(mask: nat, score: nat): (r: Result<real, LegacyError>)
      requires engine.StaticFit() && MemoFits()
      reads this, engine, engine.Repr
      ensures GetDecision(mask, score).Err? ==> r == Err(GetDecision(mask, score).error)
      ensures GetDecision(mask, score) == Ok(false) ==> r == Ok(0.0)
      ensures GetDecision(mask, score) == Ok(true) && score >= engine.targetScore ==> r == Ok(1.0)
      ensures GetDecision(mask, score) == Ok(true) && score < engine.targetScore && expectedCostCache.None? ==>
        r == Err(ExpectedResourcesNotComputed)
    {
      match GetDecision(mask, score)
      case Err(e) => Err(e)
      case Ok(continues) =>
        if !continues then Ok(0.0)
        else if score >= engine.targetScore then Ok(1.0)
        else if expectedCostCache.None? then Err(ExpectedResourcesNotComputed)
        else
          var index := CacheIndex(mask).value;
          var cutOff := if mask == 0 then 0 else engine.caches[engine.CacheIndex(mask)].cutOff.value;
          ReadProbability(expectedCostCache.value[index], IntendedKey(score, cutOff))
    }

    /**
     * With the corrected key, below the target and on the states the walk
     * can reach, the older generation answers what the newer one answers:
     * the probability of success from that state under the policy.
     */
    lemma SuccessProbAgrees(mask: nat, score: nat)
      requires Valid() && expectedCostCache.Some? && score < engine.targetScore
      requires IsValidExternalPartialMask(mask) || IsValidExternalFullMask(mask)
      requires mask == 0 ==> score == 0
      ensures MemoFits()
      ensures GetSuccessProb(mask, score) == FromEngineResult(engine.GetSuccessProbability(mask, score))
    {
      ValidKept();
      if !engine.isPolicyDerived {
        NotDerivedAgrees(mask, score);
      } else if IsValidExternalFullMask(mask) {
        FullProbAgrees(mask, score);
      } else if mask == 0 {
        RootRead(mask, score);
        RootEngineRead(mask, score);
        CombineReads(mask, score, 0);
      } else if GetDecision(mask, score) == Ok(true) {
        var index := PartialShape(mask, score);
        PartialRead(mask, score, index);
        PartialEngineRead(mask, score, index);
        CombineReads(mask, score, index);
      } else {
        StopAgrees(mask, score);
      }
    }

    /** What a kept memo gives the lookups: it is the older layout of the newer generation's sound memo. */
    ghost predicate Kept()
      reads this, engine, engine.Repr, engine.costModel
    {
      && engine.StaticFit() && engine.MemoFits() && MemoFits()
      && engine.expectedCostCache.Computed? && expectedCostCache.Some?
      && Laid(engine.W(), engine.expectedCostCache.memo)
      && expectedCostCache.value == LegacyMemo(engine.expectedCostCache.memo, engine.targetScore)
    }

    lemma ValidKept()
      requires Valid() && expectedCostCache.Some?
      ensures Kept()
    {
    }

    lemma NotDerivedAgrees(mask: nat, score: nat)
      requires engine.StaticFit() && engine.MemoFits() && MemoFits() && !engine.isPolicyDerived
      requires (IsValidExternalPartialMask(mask) || IsValidExternalFullMask(mask)) && score < engine.targetScore
      ensures GetSuccessProb(mask, score) == FromEngineResult(engine.GetSuccessProbability(mask, score))
    {
      assert GetSuccessProb(mask, score) == Err(PolicyNotDerived);
      assert engine.GetSuccessProbability(mask, score) == Err(UpgradePolicy.PolicyNotDerived);
    }

    lemma FullProbAgrees(mask: nat, score: nat)
      requires engine.StaticFit() && engine.MemoFits() && MemoFits() && engine.isPolicyDerived
      requires IsValidExternalFullMask(mask) && score < engine.targetScore
      ensures GetSuccessProb(mask, score) == FromEngineResult(engine.GetSuccessProbability(mask, score))
    {
      ExternalValidityExclusive(mask);
      assert GetSuccessProb(mask, score) == Ok(0.0);
      assert engine.GetSuccessProbability(mask, score) == Ok(0.0);
    }

    lemma StopAgrees(mask: nat, score: nat)
      requires engine.StaticFit() && engine.MemoFits() && MemoFits() && engine.isPolicyDerived
      requires IsValidExternalPartialMask(mask) && mask != 0 && score < engine.targetScore
      requires GetDecision(mask, score) != Ok(true)
      ensures GetSuccessProb(mask, score) == FromEngineResult(engine.GetSuccessProbability(mask, score))
    {
      DecisionsAgree(mask, score);
      assert GetSuccessProb(mask, score) == Ok(0.0);
      assert engine.GetSuccessProbability(mask, score) == Ok(0.0);
    }

    /** The older generation reads the root's entry at the score itself. */
    lemma RootRead(mask: nat, score: nat)
      requires Kept() && mask == 0 && score == 0 && 0 < engine.targetScore && engine.isPolicyDerived
      ensures GetSuccessProb(mask, score) == ReadProbability(expectedCostCache.value[0], IntendedKey(score, 0))
    {
      assert GetDecision(mask, score) == Ok(true);
      LegacyTableIsPartialTable(mask);
      assert CacheIndex(mask) == Ok(0);
    }

    /** The newer generation reads the root's entry, index 0. */
    lemma RootEngineRead(mask: nat, score: nat)
      requires Kept() && mask == 0 && score == 0 && 0 < engine.targetScore && engine.isPolicyDerived
      ensures engine.GetSuccessProbability(mask, score) == UpgradePolicy.StoredProbability(engine.expectedCostCache.memo, 0, score)
    {
      ZeroHasNoBits(mask);
      assert Rank(Partial, mask) == 0;
      assert engine.GetDecision(mask, score) == Ok(true);
    }

    /** A continuing partial mask's entry holds its state: its cut-off is recorded, reached and below the target. */
    lemma PartialShape(mask: nat, score: nat) returns (index: nat)
      requires Kept() && score < engine.targetScore && engine.isPolicyDerived
      requires IsValidExternalPartialMask(mask) && mask != 0 && GetDecision(mask, score) == Ok(true)
      ensures index == engine.CacheIndex(mask) && index < |engine.expectedCostCache.memo|
      ensures engine.caches[index].cutOff.Some?
      ensures var e := engine.expectedCostCache.memo[index];
        && e.Reachable? && e.cutOff == engine.caches[index].cutOff.value
        && e.cutOff <= score && score - e.cutOff < |e.states| && e.cutOff < engine.targetScore
    {
      PartialIndexInRange(mask);
      var w := engine.W();
      var memo := engine.expectedCostCache.memo;
      index := engine.CacheIndex(mask);
      assert CutOf(w, mask) == engine.caches[index].cutOff;
      AbandonedEntry(w, memo, mask);
      KeyInEntry(w, memo, mask, score);
    }

    /** The older generation reads a continuing partial mask's entry at the intended key. */
    lemma PartialRead(mask: nat, score: nat, index: nat)
      requires engine.StaticFit() && MemoFits() && expectedCostCache.Some? && score < engine.targetScore
      requires IsValidExternalPartialMask(mask) && mask != 0 && GetDecision(mask, score) == Ok(true)
      requires index == engine.CacheIndex(mask) && engine.caches[index].cutOff.Some?
      ensures index < |expectedCostCache.value|
      ensures GetSuccessProb(mask, score) ==
        ReadProbability(expectedCostCache.value[index], IntendedKey(score, engine.caches[index].cutOff.value))
    {
      PartialIndexInRange(mask);
      LegacyTableIsPartialTable(mask);
      assert CacheIndex(mask) == Ok(index);
    }

    /** The newer generation reads the same entry. */
    lemma PartialEngineRead(mask: nat, score: nat, index: nat)
      requires engine.StaticFit() && engine.MemoFits() && engine.expectedCostCache.Computed? && score < engine.targetScore
      requires IsValidExternalPartialMask(mask) && mask != 0 && engine.isPolicyDerived
      requires index == engine.CacheIndex(mask) && engine.caches[index].cutOff.Some?
      requires engine.caches[index].cutOff.value <= score
      ensures index < |engine.expectedCostCache.memo|
      ensures engine.GetSuccessProbability(mask, score) == UpgradePolicy.StoredProbability(engine.expectedCostCache.memo, index, score)
    {
      assert engine.GetDecision(mask, score) == Ok(true);
    }

    /** Both reads of one entry give the same answer. */
    lemma CombineReads(mask: nat, score: nat, index: nat)
      requires Kept()
      requires index < NUM_PARTIAL_MASKS
      requires var e := engine.expectedCostCache.memo[index];
        && e.Reachable? && e.cutOff <= score && score - e.cutOff < |e.states| && (index == 0 || e.cutOff < engine.targetScore)
      requires GetSuccessProb(mask, score) ==
        ReadProbability(expectedCostCache.value[index], IntendedKey(score, engine.expectedCostCache.memo[index].cutOff))
      requires engine.GetSuccessProbability(mask, score) == UpgradePolicy.StoredProbability(engine.expectedCostCache.memo, index, score)
      ensures GetSuccessProb(mask, score) == FromEngineResult(engine.GetSuccessProbability(mask, score))
    {
      ReadAgrees(engine.expectedCostCache.memo, index, engine.targetScore, score);
    }

    /**
     * As written, a continuing score below the target reads past the end of
     * its states once it is more than `target - cut_off` away from zero.
     */
    lemma AsWrittenPanics(mask: nat, score: nat)
      requires Valid() && expectedCostCache.Some? && IsValidExternalPartialMask(mask) && mask != 0
      requires GetDecision(mask, score) == Ok(true) && score < engine.targetScore
      requires score > engine.targetScore - engine.caches[engine.CacheIndex(mask)].cutOff.value
      ensures MemoFits() && GetSuccessProbAsWritten(mask, score) == Err(Panic)
    {
      PartialIndexInRange(mask);
      LegacyTableIsPartialTable(mask);
      var w := engine.W();
      var memo := engine.expectedCostCache.memo;
      var index := engine.CacheIndex(mask);
      assert CutOf(w, mask) == engine.caches[index].cutOff;
      AbandonedEntry(w, memo, mask);
      NonzeroRank(mask);
      assert SameShape(memo[index], InitialEntry(w.target, index, w.cutOffs[index]));
      assert expectedCostCache.value[index] == Some(memo[index].states);
    }

    /** `derive_policy_at_lambda`: set lambda, clear the caches and run the DP from the empty echo. */
    method DerivePolicyAtLambda(lambda: real)
      requires Valid()
      modifies this`expectedCostCache, engine`lambda, engine`isPolicyDerived, engine`touchedCache,
               engine`expectedCostCache, engine.Repr
      ensures Valid() && Lambda() == Some(lambda) && expectedCostCache.None?
    {
      expectedCostCache := None;
      engine.DerivePolicyAtLambda(lambda);
    }

    /** `root_advantage`: derive the policy at `lambda` and return the first reveal's advantage. */
    method RootAdvantage(lambda: real) returns (f: real)
      requires Valid()
      modifies this`expectedCostCache, engine`lambda, engine`isPolicyDerived, engine`touchedCache,
               engine`expectedCostCache, engine.Repr
      ensures Valid() && Lambda() == Some(lambda) && expectedCostCache.None?
      ensures engine.targetScore == old(engine.targetScore)
      ensures engine.costModel.revealCostCached == old(engine.costModel.revealCostCached)
      ensures f == RootAdvantageAt(engine.scorePmfs, engine.targetScore, engine.costModel.revealCostCached, lambda)
    {
      expectedCostCache := None;
      f := engine.RootAdvantage(lambda);
      assert engine.P() == Problem(engine.scorePmfs, engine.targetScore, lambda, engine.costModel.revealCostCached);
    }

    /** One probe of `lambda_search`: the root advantage at `x`, as `advantage` names it. */
    method Probe(x: real, ghost advantage: real -> real, ghost target: nat, ghost costs: seq<real>) returns (fx: real)
      requires Valid() && engine.targetScore == target && engine.costModel.revealCostCached == costs
      requires Describes(advantage, engine.scorePmfs, target, costs)
      modifies this`expectedCostCache, engine`lambda, engine`isPolicyDerived, engine`touchedCache,
               engine`expectedCostCache, engine.Repr
      ensures Valid() && engine.targetScore == target && engine.costModel.revealCostCached == costs
      ensures Lambda() == Some(x) && expectedCostCache.None?
      ensures fx == advantage(x)
    {
      fx := RootAdvantage(x);
    }

    /**
     * The start of `lambda_search`: reject non-finite inputs, raise `lo` to
     * 0 and `hi` above `lo`, require a positive advantage at `lo`, and double
     * `hi` at most 80 times until the advantage there is negative. The ghost
     * `advantage` is the root advantage as a function of lambda.
     */
    method BracketLambda(lo0: F64, hi0: F64, tol: F64)
      returns (r: Result<(real, real), LegacyError>, ghost advantage: real -> real, ghost doublings: nat)
      requires Valid()
      modifies this`expectedCostCache, engine`lambda, engine`isPolicyDerived, engine`touchedCache,
               engine`expectedCostCache, engine.Repr
      ensures Valid()
      ensures engine.targetScore == old(engine.targetScore)
      ensures engine.costModel.revealCostCached == old(engine.costModel.revealCostCached)
      ensures Describes(advantage, engine.scorePmfs, engine.targetScore, engine.costModel.revealCostCached)
      ensures !(lo0.Finite? && hi0.Finite? && tol.Finite?) ==>
        r == Err(NonFiniteLambda) && unchanged(this) && unchanged(engine) && unchanged(engine.Repr)
      ensures lo0.Finite? && hi0.Finite? && tol.Finite? ==>
        var lo := if lo0.val < 0.0 then 0.0 else lo0.val;
        var hi := if hi0.val <= lo then lo + 1.0 else hi0.val;
        && 0.0 <= lo < hi && Bracketed(advantage, lo, hi, doublings, r)
        && expectedCostCache.None?
        && (advantage(lo) <= 0.0 ==> Lambda() == Some(lo))
        && (advantage(lo) > 0.0 ==> Lambda() == Some(Doubled(hi, doublings)))
    {
      ghost var target, costs := engine.targetScore, engine.costModel.revealCostCached;
      advantage := AdvantageFunction(engine.scorePmfs, target, costs);
      doublings := 0;
      if !(lo0.Finite? && hi0.Finite? && tol.Finite?) {
        return Err(NonFiniteLambda), advantage, 0;
      }
      var lo := if lo0.val < 0.0 then 0.0 else lo0.val;
      var hi := if hi0.val <= lo then lo + 1.0 else hi0.val;
      var fa := Probe(lo, advantage, target, costs);
      if !(fa > 0.0) {
        NotBracketedAtLo(advantage, lo, hi, fa);
        return Err(LambdaNotBracketed), advantage, 0;
      }
      r, doublings := ExpandBracket(lo, hi, fa, advantage, target, costs);
    }

    /** `lambda_search`'s doubling of `hi` once the advantage at `lo` is positive. */
    method ExpandBracket(lo: real, hi: real, fa: real, ghost advantage: real -> real, ghost target: nat, ghost costs: seq<real>)
      returns (r: Result<(real, real), LegacyError>, ghost doublings: nat)
      requires Valid() && engine.targetScore == target && engine.costModel.revealCostCached == costs
      requires Describes(advantage, engine.scorePmfs, target, costs)
      requires fa == advantage(lo) && fa > 0.0
      modifies this`expectedCostCache, engine`lambda, engine`isPolicyDerived, engine`touchedCache,
               engine`expectedCostCache, engine.Repr
      ensures Valid() && engine.targetScore == target && engine.costModel.revealCostCached == costs
      ensures Lambda() == Some(Doubled(hi, doublings)) && expectedCostCache.None?
      ensures Bracketed(advantage, lo, hi, doublings, r)
    {
      var b := hi;
      var fb := Probe(b, advantage, target, costs);
      var expand := 0;
      while fb > 0.0 && expand < 80
        invariant Valid() && engine.targetScore == target && engine.costModel.revealCostCached == costs
        invariant expand <= 80 && b == Doubled(hi, expand) && fb == advantage(b)
        invariant Lambda() == Some(b) && expectedCostCache.None?
        invariant PositiveUpTo(advantage, hi, expand)
        decreases 80 - expand
      {
        assert PositiveUpTo(advantage, hi, expand + 1);
        DoubledStep(hi, expand);
        b := 2.0 * b;
        fb := Probe(b, advantage, target, costs);
        expand := expand + 1;
      }
      doublings := expand;
      DoublingOutcome(advantage, lo, hi, expand, fa, fb);
      r := if fb < 0.0 then Ok((lo, b)) else Err(LambdaNotBracketed);
    }

    /**
     * `expected_resources`: not before the policy is derived; otherwise walk
     * the policy from the empty echo, and report an unreachable target
     * (keeping no memo) when the root's success probability is not positive.
     */
    method ExpectedResources() returns (r: Result<UpgradePolicy.ExpectedUpgradeCost, LegacyError>)
      requires Valid()
      modifies this`expectedCostCache, engine`expectedCostCache
      ensures Valid()
      ensures !IsPolicyDerived() ==> r == Err(PolicyNotDerived) && expectedCostCache == old(expectedCostCache)
      ensures IsPolicyDerived() ==>
        var root := Step(engine.W(), 0, 0);
        && engine.CostsSound()
        && (root.successProbability.value <= 0.0 ==>
              r == Err(TargetScoreImpossible) && expectedCostCache.None?)
        && (root.successProbability.value > 0.0 ==>
              && r == Ok(engine.Summary(root))
              && expectedCostCache == Some(LegacyMemo(engine.expectedCostCache.memo, engine.targetScore)))
    {
      if !engine.isPolicyDerived {
        return Err(PolicyNotDerived);
      }
      r := WalkAndKeep(expectedCostCache.Some?);
    }

    /**
     * The derived half of `expected_resources`: walk the policy, then keep
     * the memo only when the target is reachable. `kept` says whether a
     * memo was kept before, which happens only after a reachable walk.
     */
    method WalkAndKeep(ghost kept: bool) returns (r: Result<UpgradePolicy.ExpectedUpgradeCost, LegacyError>)
      requires engine.Valid() && engine.isPolicyDerived
      requires kept <==> expectedCostCache.Some?
      requires kept ==> Step(engine.W(), 0, 0).successProbability.value > 0.0
      modifies this`expectedCostCache, engine`expectedCostCache
      ensures Valid() && engine.CostsSound()
      ensures var root := Step(engine.W(), 0, 0);
        && (root.successProbability.value <= 0.0 ==>
              r == Err(TargetScoreImpossible) && expectedCostCache.None?)
        && (root.successProbability.value > 0.0 ==>
              && r == Ok(engine.Summary(root))
              && expectedCostCache == Some(LegacyMemo(engine.expectedCostCache.memo, engine.targetScore)))
    {
      ghost var w := engine.W();
      var cost := engine.DerivedExpectedResources();
      assert engine.W() == w && engine.CostsSound();
      assert engine.expectedCostCache.memo[0].states[0] == Step(w, 0, 0);
      if cost.successProbability <= 0.0 {
        return Err(TargetScoreImpossible);
      }
      expectedCostCache := Some(LegacyMemo(engine.expectedCostCache.memo, engine.targetScore));
      return Ok(cost);
    }
  }

  // ---------------------------------------------------------------------
  // solver.rs: `PolicySolver::new`

  /**
   * How `new` ends, in the order its steps run, with `None` for a built
   * solver. Nothing is validated: a PMF count other than 13 indexes out of
   * bounds (the fold over the PMFs, or the `pmf_len` table); a best
   * five-buff sum beyond `u16` overflows `best_case_remaining_score`; then
   * a target beyond that sum is refused; and an empty PMF, whose smallest key
   * stays `u16::MAX` and largest 0, makes the cache of the mask holding just
   * that buff subtract past zero. Once these pass no other sum overflows:
   * every mask sum and every remaining best case is bounded by the best
   * five-buff sum.
   */
  function LegacyNewError(raws: seq<UpgradePolicy.RawPmf>, targetRaw: F64): Option<LegacyError>
  {
    if |raws| != NUM_BUFFS then Some(Panic)
    else
      var best := BestCase(UpgradePolicy.RealPmfs(raws), 0);
      if best > U16_MAX then Some(Panic)
      else if LegacyTarget(targetRaw) > best then Some(TargetScoreImpossible)
      else if exists b :: 0 <= b < NUM_BUFFS && raws[b] == [] then Some(Panic)
      else None
  }

  /** The fold of `new` over one PMF's keys: its smallest and largest key. */
  method KeyRange(raw: UpgradePolicy.RawPmf) returns (lo: nat, hi: nat)
    ensures lo == MinScoreOf(UpgradePolicy.RealPmf(raw)) && hi == MaxScoreOf(UpgradePolicy.RealPmf(raw))
  {
    ghost var pmf := UpgradePolicy.RealPmf(raw);
    lo, hi := U16_MAX, 0;
    for j := 0 to |raw|
      invariant lo == MinScoreOf(pmf[..j]) && hi == MaxScoreOf(pmf[..j])
    {
      assert pmf[..j + 1][..j] == pmf[..j];
      lo := MinNat(lo, raw[j].0);
      hi := MaxNat(hi, raw[j].0);
    }
    assert pmf[..|raw|] == pmf;
  }

  /** The loop of `new` over the buffs: `buff_min_score` and `buff_max_score`. */
  method KeyRanges(raws: seq<UpgradePolicy.RawPmf>) returns (mins: seq<nat>, maxs: seq<nat>)
    requires |raws| == NUM_BUFFS
    ensures mins == BuffMinScores(UpgradePolicy.RealPmfs(raws)) && maxs == BuffMaxScores(UpgradePolicy.RealPmfs(raws))
  {
    ghost var allMins := BuffMinScores(UpgradePolicy.RealPmfs(raws));
    ghost var allMaxs := BuffMaxScores(UpgradePolicy.RealPmfs(raws));
    mins, maxs := [], [];
    for b := 0 to NUM_BUFFS
      invariant mins == allMins[..b] && maxs == allMaxs[..b]
    {
      var lo, hi := KeyRange(raws[b]);
      PrefixStep(allMins, b);
      PrefixStep(allMaxs, b);
      mins := mins + [lo];
      maxs := maxs + [hi];
    }
    assert allMins[..NUM_BUFFS] == allMins && allMaxs[..NUM_BUFFS] == allMaxs;
  }

  /**
   * `PolicySolver::new`: it ends as `LegacyNewError` says, and otherwise
   * holds the PMFs, the cast target, no lambda, no memo and every cache
   * empty. Probabilities are taken as they are.
   */
  method New(raws: seq<UpgradePolicy.RawPmf>, targetRaw: F64, costModel: CostModel)
    returns (r: Result<PolicySolver, LegacyError>)
    requires costModel.Valid()
    ensures r.Err? <==> LegacyNewError(raws, targetRaw).Some?
    ensures r.Err? ==> r.error == LegacyNewError(raws, targetRaw).value
    ensures r.Ok? ==>
      var engine := r.value.engine;
      && fresh(r.value) && fresh(engine) && fresh(engine.Repr) && r.value.Valid()
      && engine.scorePmfs == UpgradePolicy.RealPmfs(raws) && engine.costModel == costModel
      && engine.maxPossibleScore == BestCase(engine.scorePmfs, 0) && engine.targetScore == LegacyTarget(targetRaw)
      && r.value.Lambda().None? && r.value.expectedCostCache.None?
      && engine.touchedCache == [] && engine.expectedCostCache == UpgradePolicy.NotComputed
      && forall i :: 0 <= i < |engine.caches| ==> UpgradePolicy.Cleared(engine.caches[i])
  {
    if |raws| != NUM_BUFFS {
      return Err(Panic);
    }
    var mins, maxs := KeyRanges(raws);
    var maxPossibleScore := BestCaseRemainingScore(0, maxs);
    if maxPossibleScore > U16_MAX {
      return Err(Panic);
    }
    var targetScore := LegacyTarget(targetRaw);
    if targetScore > maxPossibleScore {
      return Err(TargetScoreImpossible);
    }
    // The mask loop reaches, for an empty PMF, the mask of that buff alone.
    for b := 0 to NUM_BUFFS
      invariant forall k :: 0 <= k < b ==> raws[k] != []
    {
      if raws[b] == [] {
        return Err(Panic);
      }
    }
    var scorePmfs := UpgradePolicy.RealPmfs(raws);
    var caches := UpgradePolicy.BuildCaches(scorePmfs, mins, maxs);
    var pmfLen := seq(NUM_BUFFS, b requires 0 <= b < NUM_BUFFS => |scorePmfs[b]|);
    var engine := new UpgradePolicy.UpgradePolicySolver.Init(scorePmfs, targetScore, costModel, pmfLen, maxPossibleScore, caches);
    var solver := new PolicySolver(engine);
    return Ok(solver);
  }

  /** With no buff chosen, every buff is absent. */
  lemma {:induction false} AbsentFromEmpty(maxScores: seq<nat>, n: nat)
    requires n <= |maxScores|
    ensures AbsentScores(0, maxScores, n) == maxScores[..n]
  {
    if n > 0 {
      AbsentFromEmpty(maxScores, n - 1);
      ZeroHasNoBits(n - 1);
      assert maxScores[..n] == maxScores[..n - 1] + [maxScores[n - 1]];
    }
  }

  /** The best five-buff sum `new` computes is the sum the newer generation bounds. */
  lemma BestFromEmpty(pmfs: seq<Pmf>)
    requires |pmfs| == NUM_BUFFS
    ensures BestCase(pmfs, 0) == SumNat(TopScores(NUM_ECHO_SLOTS, BuffMaxScores(pmfs)))
  {
    var maxs := BuffMaxScores(pmfs);
    AbsentFromEmpty(maxs, NUM_BUFFS);
    assert maxs[..NUM_BUFFS] == maxs;
    assert NumFilledSlots(0) == 0;
  }

  /**
   * What the newer generation accepts, the older builds the same way: a
   * finite target casts alike, and the newer checks cover the older
   * generation's panics.
   */
  lemma EngineAcceptedLegacyAccepts(raws: seq<UpgradePolicy.RawPmf>, targetRaw: F64)
    requires UpgradePolicy.NewError(raws, targetRaw).None?
    ensures targetRaw.Finite? && LegacyNewError(raws, targetRaw).None?
    ensures LegacyTarget(targetRaw) == UpgradePolicy.TargetFromRaw(targetRaw.val)
  {
    UpgradePolicy.NonEmptyAccepted(raws);
    BestFromEmpty(UpgradePolicy.RealPmfs(raws));
  }

  /**
   * On PMFs the newer generation accepts, the older refuses a finite target
   * exactly when the newer reports it impossible.
   */
  lemma ImpossibleAgrees(raws: seq<UpgradePolicy.RawPmf>, targetRaw: F64)
    requires UpgradePolicy.NewError(raws, Finite(0.0)).None? && targetRaw.Finite?
    ensures LegacyNewError(raws, targetRaw) == Some(TargetScoreImpossible)
            <==> UpgradePolicy.NewError(raws, targetRaw).Some? && UpgradePolicy.NewError(raws, targetRaw).value.TargetScoreImpossible?
    ensures LegacyNewError(raws, targetRaw).None? <==> UpgradePolicy.NewError(raws, targetRaw).None?
  {
    UpgradePolicy.NonEmptyAccepted(raws);
    BestFromEmpty(UpgradePolicy.RealPmfs(raws));
  }

  /**
   * The older generation accepts inputs the newer refuses: a NaN target
   * (cast to 0) and probabilities that are invalid or do not sum to one.
   */
  lemma NaNTargetAccepted(raws: seq<UpgradePolicy.RawPmf>)
    requires |raws| == NUM_BUFFS && forall b :: 0 <= b < NUM_BUFFS ==> raws[b] != []
    requires BestCase(UpgradePolicy.RealPmfs(raws), 0) <= U16_MAX
    ensures LegacyNewError(raws, NaN).None?
    ensures UpgradePolicy.NewError(raws, NaN) == Some(UpgradePolicy.InvalidScore)
  {
  }

  /** With 13 PMFs and a reachable target, an empty PMF aborts construction. */
  lemma EmptyPmfPanics(raws: seq<UpgradePolicy.RawPmf>, targetRaw: F64, b: nat)
    requires |raws| == NUM_BUFFS && b < NUM_BUFFS && raws[b] == []
    requires LegacyTarget(targetRaw) <= BestCase(UpgradePolicy.RealPmfs(raws), 0) <= U16_MAX
    ensures LegacyNewError(raws, targetRaw) == Some(Panic)
  {
  }
}
