# Echo upgrade and reroll policies, modelled in Dafny

This project models the optimisation engine of an echo-upgrade advisor and proves properties of the model.
An echo has five slots. Revealing a slot costs resources and draws one of 13 buff types with a random value.
No buff type can appear twice. The player may abandon the echo after any reveal.

The engine answers two questions:

* **Upgrading**: when should the player stop revealing (`UpgradePolicySolver`)? The question is a stopping
  problem. It is solved for a dual price `lambda` on the weighted resource cost.
* **Rerolling**: which slots of a finished echo should be locked before the others are rerolled
  (`RerollPolicySolver`)? The question is solved by value iteration over the 1287 full masks.

The modules follow the program's structure:

| module | models |
|---|---|
| `Base`, `Bits` | the shared vocabulary: `Option`/`Result`, what the engine inspects of an `f64`, Rust's `round` and its saturating `as u16`, and the bit operations on `u16` masks |
| `Mask` | `crates/echo_policy/src/mask.rs`: the partial and full mask enumerations and their index tables |
| `Data` | `rust/src/data.rs`: the 13 buff types, their histograms and their largest values |
| `Scoring` | `rust/src/scoring.rs`: weight validation, the top-five weight sum, both scorers, score PMFs, histogram blending |
| `Cost` | `rust/src/cost.rs`: the cost model, its validation and the per-depth reveal costs |
| `PolicyValue`, `PolicyCache`, `ExpectedCost`, `UpgradePolicy` | `rust/src/upgrade_policy.rs`: the value recursion specified as a function, the per-mask caches as a class, expected resources, and the solver class |
| `LegacySolver` | `rust/src/solver.rs`, `rust/src/solver/solver_mask.rs` and `rust/src/solver/solver_cost.rs`: the older solver, with its own constructor and the behaviour in which it differs |
| `RerollTables`, `RerollValues`, `RerollPolicy` | `rust/src/reroll_policy.rs`: the lock tables, the Bellman value specification, and the solver class |
| `HostValidators` | the request validators in `apps/desktop/src-tauri/src/main.rs` |
| `OcrText`, `OcrValues`, `OcrRows`, `OcrMatch`, `OcrAliases`, `OcrWorkflow` | `policy_core/ocr/workflow.py`: token cleanup, value parsing, row grouping, value matching, alias resolution, and `BuffWorkflow.process_image` |

The model uses these conventions:

* Floating-point values are modelled as exact `real`s.
* Inputs that the source tests with `is_finite`/`is_nan` are modelled as `F64`. An `F64` is a finite real, NaN, or an infinity.
* Scores are `nat`. Every `u16` cast, saturation and overflow is written out where the source has it.
* An object whose fields the source updates becomes a Dafny `class`. These are the mask caches, the two solvers, the cost model and the OCR workflow.
* Each class method is proved against a heap-free specification function. The lemmas about that function state what the source promises.

## Model

| member | source | states |
|---|---|---|
| Base.Round | rust/src/scoring.rs:156 | `f64::round` on a finite value: a result within one half of the input, never negative for a non-negative input |
| Base.SaturateU16 | rust/src/scoring.rs:156 | the saturating `as u16` cast: values in range are kept, negatives become 0, values above 65535 become 65535 |
| Bits.OrPow2 | crates/echo_policy/src/mask.rs:166 | setting bit `i` of `m` leaves `m` unchanged when the bit is set, and otherwise adds `2^i` |
| Bits.AndPow2 | rust/src/reroll_policy.rs:184 | `(m & (1 << i)) != 0` holds exactly when bit `i` of `m` is set |
| Bits.AndBits | crates/echo_policy/src/mask.rs:33 | a bit of `a & b` is set exactly when it is set in both `a` and `b` |
| Bits.Complement | rust/src/reroll_policy.rs:198 | complementing within `n` bits sets exactly the bits below `n` that were clear |
| Bits.LowestBit | rust/src/upgrade_policy.rs:560-563 | `r & r.wrapping_neg()` isolates the lowest set bit: that bit is set, every lower bit is clear, and it sits at `trailing_zeros` |
| Bits.NextSubmaskIsGreatestBelow | rust/src/reroll_policy.rs:206 | `(sub - 1) & mask` is the greatest submask of `mask` strictly below `sub` |
| Bits.SubmaskWalk | rust/src/reroll_policy.rs:194-207 | the submask loop's visiting order: it starts at the mask and ends at 0 |
| Bits.SubmaskWalkDecreasing | rust/src/reroll_policy.rs:194-207 | the submask loop visits strictly decreasing values, so it visits no submask twice |
| Bits.SubmaskWalkComplete | rust/src/reroll_policy.rs:194-207 | started from a mask, the submask loop visits exactly the submasks of that mask |
| Mask.ConstantsAgree | crates/echo_policy/src/mask.rs:4-16 | `MASK_ALL`, `PARTIAL_MASK_SPACE` and `FULL_MASK_SPACE` equal the shifted all-ones patterns the source derives them from |
| Mask.InDomainMeansNoHighBits | crates/echo_policy/src/mask.rs:32-34 | `mask & !MASK_ALL == 0` holds exactly when the mask has no bit at position 13 or above |
| Mask.ExternalValidityExclusive | crates/echo_policy/src/mask.rs:91-98 | no mask is both an external partial and an external full mask, and both kinds lie within `MASK_ALL` |
| Mask.AboveSpace | crates/echo_policy/src/mask.rs:7-8 | above the search bound, every in-domain mask has more bits than its kind allows, so the bound cuts off no valid mask |
| Mask.MasksAscendingAndExact | crates/echo_policy/src/mask.rs:51-66 | `PARTIAL_MASKS` and `FULL_MASKS` are strictly ascending and hold exactly the valid masks up to the search bound |
| Mask.MasksComplete | crates/echo_policy/src/mask.rs:115-130 | every in-domain valid mask lies within the search bound and appears in the enumeration |
| Mask.BinomThirteen | crates/echo_policy/src/mask.rs:10-17 | the counts are binomial sums over 13 buff types: 1093 partial masks (at most four bits) and 1287 full masks (five bits) |
| Mask.MaskCounts | crates/echo_policy/src/mask.rs:36-49 | the enumeration has `NUM_PARTIAL_MASKS` = 1093 or `NUM_FULL_MASKS` = 1287 entries |
| Mask.CountMasks | crates/echo_policy/src/mask.rs:100-113 | the counting loop returns the length of the enumeration, which is 1093 or 1287 |
| Mask.BuildMasks | crates/echo_policy/src/mask.rs:51-66 | the building loop fills an array of exactly that length with the enumeration in ascending order |
| Mask.BuildMaskToIndex | crates/echo_policy/src/mask.rs:132-147 | the inverse table has `SPACE + 1` entries, and each entry is the mask's rank among the valid masks |
| Mask.IndexOne | crates/echo_policy/src/mask.rs:73-80 | one loop step: a valid mask gets the next index, an invalid one keeps 0, and the entries above are untouched |
| Mask.MaskIndexBijection | crates/echo_policy/src/mask.rs:68-83 | the enumeration and the inverse table are mutually inverse, and mask 0 has index 0 |
| Mask.RankIncreasing | crates/echo_policy/src/mask.rs:72-76 | indices grow strictly along the valid masks |
| Mask.RankInjective | crates/echo_policy/src/mask.rs:72-76 | distinct valid masks get distinct indices |
| Mask.RankBelowCount | crates/echo_policy/src/mask.rs:151-159 | a valid mask's index lies below the number of masks, so the cache lookups stay within bounds |
| Mask.PartialIndexInRange | crates/echo_policy/src/mask.rs:149-153 | an external partial mask lies within the table, and its index is below 1093 |
| Mask.MaskOfBits | crates/echo_policy/src/mask.rs:161-171 | bit `i` of `bits_to_mask` is set exactly when `i < 13` and entry `i` is 1 |
| Mask.BitsToMask | crates/echo_policy/src/mask.rs:161-171 | the loop computes `MaskOfBits`, taking only the first 13 entries and ignoring values other than 0 and 1 |
| Mask.BitsOfMask | crates/echo_policy/src/mask.rs:173-179 | `mask_to_bits` returns 13 entries |
| Mask.MaskToBits | crates/echo_policy/src/mask.rs:173-179 | the loop writes `(mask >> i) & 1` into entry `i` |
| Mask.MaskBitsRoundTrip | crates/echo_policy/src/mask.rs:161-179 | `bits_to_mask(mask_to_bits(m)) == m` for every in-domain mask |
| Mask.BitsMaskRoundTrip | crates/echo_policy/src/mask.rs:161-179 | `mask_to_bits(bits_to_mask(b)) == b` for every 13-entry vector of zeros and ones |
| Mask.BitsToMaskIgnoresOthers | crates/echo_policy/src/mask.rs:163-168 | entries other than 1, and entries past index 12, do not change the mask |
| Data.BuffTypeHistograms | rust/src/data.rs:131-184 | `BUFF_TYPES[i]` carries histogram `i`, in the source's order |
| Data.MaxRawValue | rust/src/data.rs:14-125 | the last raw value of a well-formed histogram is its largest value, and it occurs in the histogram |
| Data.BuffTypesWellFormed | rust/src/data.rs:14-131 | there are 13 buff types, and every histogram is non-empty, with positive counts and strictly increasing values |
| Data.BuffMaxIsLargestValue | rust/src/data.rs:127-129 | `BUFF_MAX_VALUES[i]` is the largest raw value in histogram `i` |
| Data.BlendGroupsHaveEightEntries | rust/src/scoring.rs:5-6 | every member of both blend groups has an 8-entry histogram, so pooling by position lines up |
| Scoring.FirstInvalidWeight | rust/src/scoring.rs:37-40 | the first weight at or after a position that is non-finite or negative, and that none exists when it returns nothing |
| Scoring.WeightCheckOutcomes | rust/src/scoring.rs:35-49 | `NegativeWeight(i, w)` iff weight `i` is the first invalid one; `AllWeightsZero` iff none is invalid and none is positive; `Ok` otherwise |
| Scoring.ValidateWeights | rust/src/scoring.rs:35-49 | the loop returns exactly `WeightCheck`: it stops at the first invalid weight |
| Scoring.ValidatedWeights | rust/src/scoring.rs:35-49 | validated weights are finite and non-negative, and at least one of them is positive |
| Scoring.TopWeightsAreLargest | rust/src/scoring.rs:52-66 | the buffer is descending and drawn from the weights and five zeros, and no weight left out exceeds its smallest entry |
| Scoring.TopWeightsDescending | rust/src/scoring.rs:52-66 | the five-entry buffer stays in descending order |
| Scoring.ComputeTopWeightsSum | rust/src/scoring.rs:52-66 | the in-place insertion loop returns the sum of that top-five buffer |
| Scoring.ShiftIn | rust/src/scoring.rs:54-63 | one outer pass leaves the buffer as the descending insertion of the weight, cut to five entries |
| Scoring.ShiftWeightsDown | rust/src/scoring.rs:58-62 | the shifting loop moves every entry below the weight one place down and stops where the weight belongs |
| Scoring.TopWeightsSumPositive | rust/src/scoring.rs:52-66 | with non-negative weights the top-five sum is non-negative, and it is positive when some weight is positive |
| Scoring.NewFixedScorer | rust/src/scoring.rs:73-83 | a validation error passes through; `FixedScorerWeightsTooLarge` iff the top-five sum exceeds 655.35; otherwise the scorer holds the weights |
| Scoring.NewLinearScorer | rust/src/scoring.rs:102-109 | a validation error passes through; otherwise the scorer stores the weights and their top-five sum |
| Scoring.LinearRatio | rust/src/scoring.rs:119-123 | the ratio is the value over the buff's largest value, capped at 1, so it lies in (0, 1] |
| Scoring.BuffScore | rust/src/scoring.rs:113-125 | a buff's score is non-negative, and a linear score never exceeds the buff's full-value score |
| Scoring.BuffScoreShape | rust/src/scoring.rs:87-89 | a fixed scorer returns the weight whatever the value; a linear one returns 0 at or below 0 and the full score at or above the buff's largest value |
| Scoring.LinearBuffScoreMonotone | rust/src/scoring.rs:113-125 | a linear score grows with the raw value |
| Scoring.EchoScore | rust/src/scoring.rs:14-23 | the loop returns `EchoTotal`, skipping indices outside `0..13` |
| Scoring.EchoTotalSkipsOutOfRange | rust/src/scoring.rs:17-19 | out-of-range entries contribute nothing, and every in-range entry is counted |
| Scoring.EchoTotalNonNegative | rust/src/scoring.rs:14-23 | an echo score is never negative |
| Scoring.AddMass | rust/src/scoring.rs:157 | `map.entry(key).or_insert(0.0) += mass` leaves a non-empty map |
| Scoring.AddMassKeepsOrder | rust/src/scoring.rs:153-157 | the ordered map keeps strictly ascending keys after an insertion |
| Scoring.AddMassAt | rust/src/scoring.rs:157 | the insertion adds the mass at its key and leaves every other key's mass unchanged |
| Scoring.AddMassTotal | rust/src/scoring.rs:157 | the insertion adds the mass to the map's total |
| Scoring.AccumulateFacts | rust/src/scoring.rs:153-159 | the accumulated map has ascending keys, holds at each key the sum of that key's shares, and holds their total overall |
| Scoring.Bucket | rust/src/scoring.rs:155-156 | the bucket is `(score * 100).round() as u16`, so it fits a `u16` |
| Scoring.Contributions | rust/src/scoring.rs:152-157 | each histogram entry contributes its bucket and its share `count / total` |
| Scoring.BuildPmf | rust/src/scoring.rs:151-159 | the inner loop builds exactly the ordered-map PMF of one histogram |
| Scoring.BuildScorePmfsFromHistograms | rust/src/scoring.rs:146-162 | one PMF per histogram, in order |
| Scoring.SharesSum | rust/src/scoring.rs:152-157 | the shares add up to the counts' sum over the total |
| Scoring.TotalCountPositive | rust/src/scoring.rs:152 | a non-empty histogram with positive counts has a positive total |
| Scoring.ScorePmfFacts | rust/src/scoring.rs:146-162 | each PMF has ascending keys, the mass at a key is the share of entries landing in that bucket, and the masses add up to 1 |
| Scoring.Pooled | rust/src/scoring.rs:174-188 | blending replaces every count by the group's pooled count at that position and keeps the values |
| Scoring.PooledTwice | rust/src/scoring.rs:184-188 | writing the pooled counts a second time changes nothing |
| Scoring.PoolCounts | rust/src/scoring.rs:175-182 | the first loop sums the original counts of the group, position by position |
| Scoring.WriteCounts | rust/src/scoring.rs:185-187 | the second loop overwrites one member's counts, keeps its values, and leaves the other histograms alone |
| Scoring.BlendMember | rust/src/scoring.rs:184-188 | one member of the group gets the pooled counts, and every other histogram is kept |
| Scoring.BlendGroup | rust/src/scoring.rs:174-189 | afterwards, the group's members hold pooled histograms, and every other histogram is unchanged |
| Scoring.BlendGroupsBlendable | rust/src/scoring.rs:5-6 | both blend groups are valid, over 8-entry histograms, and disjoint |
| Scoring.BlendGroups | rust/src/scoring.rs:169-170 | the crit group and then the main group are blended, each histogram as `BlendedWith` says |
| Scoring.BuildBlendedHistograms | rust/src/scoring.rs:164-172 | the 13 data histograms are copied and then both groups are blended |
| Scoring.PooledAtLeastOwn | rust/src/scoring.rs:178-182 | a pooled count is at least the member's own count |
| Scoring.BlendedWellFormed | rust/src/scoring.rs:164-172 | blending keeps lengths and raw values, and every count stays positive |
| Scoring.SourceHistogram | rust/src/scoring.rs:132-144 | the histogram `build_score_pmfs` uses is well formed, with a positive total |
| Scoring.BuildScorePmfs | rust/src/scoring.rs:132-144 | 13 PMFs of the blended histograms or of the original ones, as `blend_data` says |
| Mask.MaskOfBitsUpTo | crates/echo_policy/src/mask.rs:161-171 | after the first `n` entries of the loop, the mask has bit `i` exactly for `i < n` with entry `i` equal to 1 |
| Mask.MaskOfBitsStep | crates/echo_policy/src/mask.rs:163-168 | one more entry of the loop sets its bit when the entry is 1 and changes nothing else |
| Data.HistogramWellFormed | rust/src/data.rs:14-131 | each histogram of the table is non-empty, with positive counts and strictly increasing values |
| Scoring.WeightValues | rust/src/scoring.rs:35-49 | the weights of a validated array, value for value |
| Scoring.InsertDesc | rust/src/scoring.rs:54-63 | shifting one weight into the buffer adds exactly one entry |
| Scoring.InsertDescPermutes | rust/src/scoring.rs:54-63 | the shift adds exactly that weight to the buffer's contents |
| Scoring.SortDesc | rust/src/scoring.rs:52-66 | sorting keeps the number of weights |
| Scoring.SortDescSorts | rust/src/scoring.rs:52-66 | the sort is a descending permutation |
| Scoring.TopWeights | rust/src/scoring.rs:52-66 | the buffer always has five entries |
| Scoring.TopWeightsStart | rust/src/scoring.rs:52 | the buffer starts as five zeros |
| Scoring.TopWeightsStep | rust/src/scoring.rs:53-64 | each weight moves the buffer to the top five of the longer prefix |
| Scoring.Scaled | rust/src/scoring.rs:113-125 | helper for `LinearScorer::buff_score`: a full score scaled by a ratio in `[0, 1]` lies between 0 and the full score |
| Scoring.FullLinearScore | rust/src/scoring.rs:113-125 | a buff's full linear score is never negative |
| Scoring.EntryScore | rust/src/scoring.rs:14-23 | one entry adds a non-negative amount to the echo score |
| Scoring.EchoTotalAppend | rust/src/scoring.rs:14-23 | the echo score of one more entry is the old score plus that entry's |
| Cost.ExpCostByLevelIsPrefixSum | rust/src/cost.rs:10-23 | the cumulative experience table is the running sum of the per-level table |
| Cost.LevelStep | rust/src/cost.rs:10-23 | each cumulative level is the previous level plus that level's own cost |
| Cost.ValidateCostWeights | rust/src/cost.rs:72-110 | validation succeeds exactly when the three weights are finite and non-negative, the refund ratio is finite and in [0, 0.75], and some weight is non-zero |
| Cost.ValidationErrorOrder | rust/src/cost.rs:78-107 | the earliest failing check wins, in the order echo, tuner, exp, ratio, all-zero, and each check reports its own field and value |
| Cost.BuildRevealCosts | rust/src/cost.rs:124-131 | one weighted reveal cost per slot: net tuner plus unrefunded experience, and one echo on slot 0 |
| Cost.RevealCostNonNegative | rust/src/cost.rs:119-131 | every reveal cost of validated weights is non-negative |
| Cost.RevealCostsSum | rust/src/cost.rs:119-131 | revealing all five slots costs one echo, five net tuners and the whole unrefunded experience |
| Cost.CostModel.BuildCached | rust/src/cost.rs:113-140 | the constructor stores the four values as given and fills the reveal-cost table, without validation |
| Cost.CostModel.TunerOnly | rust/src/cost.rs:143-145 | the model counts tuners alone, with the default refund ratio 0.66, and it is valid |
| Cost.CostModel.UpdateWeights | rust/src/cost.rs:148-162 | the result is the validation of the merged values; on an error nothing changes; otherwise the model is rebuilt from the merged values |
| Cost.Merge | rust/src/cost.rs:155-158 | `unwrap_or`: a missing value keeps the current one |
| Cost.CostModel.TunerCostNet | rust/src/cost.rs:165-167 | the net cost of a tuner is 7 |
| Cost.CostModel.ExpCost | rust/src/cost.rs:169-171 | the unrefunded experience of a level lies between 0 and that level's cost |
| Cost.CostModel.FullUpgradeIsRemainingLevels | rust/src/cost.rs:176-183 | the full-upgrade cost from a slot is the unrefunded sum of the per-level costs still ahead |
| Cost.CostModel.FullUpgradeEnds | rust/src/cost.rs:176-183 | from slot 0 the full-upgrade cost is the whole unrefunded table; from slot 5 it is 0 |
| Cost.CostModel.FullUpgradeNonIncreasing | rust/src/cost.rs:176-183 | revealing more slots never raises the remaining full-upgrade cost |
| Cost.CostModel.WeightedRevealCost | rust/src/cost.rs:186-188 | the cached entry is the reveal cost of its slot, and it is non-negative for a valid model |
| Cost.CostModel.SuccessAdditionalTunerCost | rust/src/cost.rs:191-193 | a kept echo gives up the refunds of five tuners, which is 15 |
| Cost.CostModel.WeightedSuccessAdditionalCost | rust/src/cost.rs:201-204 | the weighted refunds given up on a kept echo, which are non-negative for a valid model |
| Cost.CostModel.KeptEchoExperience | rust/src/cost.rs:196-198 | a kept, fully upgraded echo costs the whole experience table: the unrefunded part plus the refunds given up |
| Cost.NewCostModel | rust/src/cost.rs:51-64 | an error exactly when validation fails, with validation's error; otherwise a fresh valid model holding the four values |
| PolicyValue.MinScoreOf | rust/src/upgrade_policy.rs:342-364 | the fold from `u16::MAX` gives a `u16` at most every key of the PMF |
| PolicyValue.MaxScoreOf | rust/src/upgrade_policy.rs:343-364 | the fold from 0 gives a value at least every key of the PMF |
| PolicyValue.ScoreRangeAttained | rust/src/upgrade_policy.rs:361-364 | on a non-empty PMF both folds give keys that occur, so the minimum is at most the maximum |
| PolicyValue.BuffMinScores | rust/src/upgrade_policy.rs:328-366 | `buff_min_score` has one entry per buff type |
| PolicyValue.BuffMaxScores | rust/src/upgrade_policy.rs:329-366 | `buff_max_score` has one entry per buff type |
| PolicyValue.MaskSumAddBit | rust/src/upgrade_policy.rs:402-408 | adding a buff to a mask adds that buff's score to the mask's sum |
| PolicyValue.MaskSumSameBits | rust/src/upgrade_policy.rs:402-408 | masks with the same bits among the first `n` have the same sum over them |
| PolicyValue.MaskSumMonotone | rust/src/upgrade_policy.rs:402-408 | per-buff minimum scores give a mask sum at most the sum of its maximum scores |
| PolicyValue.EmptyMaskRange | rust/src/upgrade_policy.rs:398-408 | the empty mask's cache covers the single score 0 |
| PolicyValue.AllOpen | rust/src/upgrade_policy.rs:607 | `MASK_ALL ^ mask` holds exactly the buffs not yet in an in-domain mask |
| PolicyValue.ComplementBit | rust/src/upgrade_policy.rs:607 | bit `i` of `MASK_ALL ^ mask` is set exactly when `i < 13` and bit `i` of the mask is clear |
| PolicyValue.OpenCount | rust/src/upgrade_policy.rs:605-607 | the buffs outside a mask number 13 minus its popcount, which is `num_remaining_buffs` |
| PolicyValue.TakeLowest | rust/src/upgrade_policy.rs:608-611 | the lowest remaining buff is open, and removing it with `^= lsb` keeps every other remaining buff |
| PolicyValue.AddOpenBuff | rust/src/upgrade_policy.rs:612 | setting bit `idx` of the mask for an open buff is one more bit, and it stays in the domain |
| PolicyValue.Value | rust/src/upgrade_policy.rs:576-628 | the value recursion `value_rec(mask, score)` is never negative |
| PolicyValue.StateValue | rust/src/upgrade_policy.rs:586-627 | the value the cache stores for a partial state at an already clamped score is never negative |
| PolicyValue.StateValueOfDecision | rust/src/upgrade_policy.rs:621-624 | a state that continues is worth its advantage; every other partial state is worth 0 |
| PolicyValue.ExpectedIsMean | rust/src/upgrade_policy.rs:620 | `total / num_remaining_buffs` is the mean: times the number of open buffs it gives back the total |
| PolicyValue.BuffTotalStep | rust/src/upgrade_policy.rs:614-617 | one more outcome of a buff adds its probability times the value of the state it leads to |
| PolicyValue.ClampInRange | rust/src/upgrade_policy.rs:589-593 | clamping to `max(min_score, target)` keeps a score within the mask's cache range, on the same side of the target, and never raises it |
| PolicyValue.KeyInRange | rust/src/upgrade_policy.rs:361-364 | every key of a buff's PMF lies between that buff's minimum and maximum score |
| PolicyValue.ChildInRange | rust/src/upgrade_policy.rs:612-616 | revealing a buff from a score in the mask's range lands in the child mask's range, so `dp(score)` stays within the cache |
| PolicyValue.ValueAtMostReward | rust/src/upgrade_policy.rs:578-583 | with probabilities that add up to at most 1, no state is worth more than the reward of 1000 for reaching the target |
| PolicyValue.StateValueAtMostReward | rust/src/upgrade_policy.rs:595-627 | a cached partial-state value is at most 1000 |
| PolicyValue.AdvantageAtMostReward | rust/src/upgrade_policy.rs:620-622 | the advantage of continuing is at most 1000 |
| PolicyValue.RevealAtMostReward | rust/src/upgrade_policy.rs:606-618 | the summed reveal outcomes are at most 1000 per open buff |
| PolicyValue.ExpansionAtMostReward | rust/src/upgrade_policy.rs:608-618 | the outcomes over any set of remaining open buffs add up to at most 1000 per buff in it |
| PolicyValue.BuffAtMostReward | rust/src/upgrade_policy.rs:614-617 | one buff's outcomes add up to at most 1000 times their probability mass |
| PolicyCache.TopScoresAreLargest | rust/src/upgrade_policy.rs:17-31 | the top-k buffer is descending and drawn from the scores and `k` zeros, and no score left out exceeds its smallest entry |
| PolicyCache.TopScoresDescending | rust/src/upgrade_policy.rs:17-31 | the top-k buffer stays in descending order |
| PolicyCache.TopScoresStep | rust/src/upgrade_policy.rs:22-30 | one more score seen leaves the buffer as the descending insertion of that score, cut to `k` entries |
| PolicyCache.ShiftScoreIn | rust/src/upgrade_policy.rs:22-30 | one pass over the first `k` entries of the array: the insertion cut to `k`, and the entries past `k` untouched |
| PolicyCache.ShiftDown | rust/src/upgrade_policy.rs:25-29 | the shifting loop moves every entry below the score one place down and stops where the score belongs |
| PolicyCache.BestCaseRemainingScore | rust/src/upgrade_policy.rs:11-33 | the loop returns the sum of the `5 - popcount` largest maximum scores among the buffs absent from the mask, and 0 for a full mask |
| PolicyCache.ElementInAbsent | rust/src/upgrade_policy.rs:18-21 | every buff absent from the mask offers its maximum score to the buffer |
| PolicyCache.AbsentOnly | rust/src/upgrade_policy.rs:18-21 | every score offered to the buffer is the maximum score of an absent buff |
| PolicyCache.MaskCache.constructor | rust/src/upgrade_policy.rs:45-56 | `max - min + 1` unset entries, nothing touched and no cut-off |
| PolicyCache.MaskCache.GetDecision | rust/src/upgrade_policy.rs:62-64 | unknown exactly when there is no cut-off; "continue" exactly when some score stored as "continue" is at most the given score |
| PolicyCache.MaskCache.DecisionMonotone | rust/src/upgrade_policy.rs:62-64 | the cut-off is a threshold: a score at least a continuing score continues too |
| PolicyCache.MaskCache.Dp | rust/src/upgrade_policy.rs:68-77 | the stored value at `score - min_score`, which is set exactly when that index is touched |
| PolicyCache.MaskCache.SetCache | rust/src/upgrade_policy.rs:79-88 | the value is stored, its index is recorded on the first write only, and "continue" lowers the cut-off to the minimum of the continuing scores |
| PolicyCache.MaskCache.ClearTouched | rust/src/upgrade_policy.rs:90-96 | every entry is unset again, the touched list is empty and the cut-off is dropped, without resizing |
| PolicyCache.InsertScore | rust/src/upgrade_policy.rs:22-30 | shifting one score into the buffer adds exactly one entry |
| PolicyCache.InsertScorePermutes | rust/src/upgrade_policy.rs:22-30 | the shift adds exactly that score to the buffer's contents |
| PolicyCache.SortScoresSorts | rust/src/upgrade_policy.rs:17-31 | the sort is a descending permutation |
| PolicyCache.TopScores | rust/src/upgrade_policy.rs:17-31 | the buffer always has `k` entries |
| PolicyCache.TopScoresStart | rust/src/upgrade_policy.rs:17 | the buffer starts as `k` zeros |
| ExpectedCost.Finish | rust/src/upgrade_policy.rs:780-786 | the end of a reveal: the mean over the open buffs plus the net tuner and this level's experience, with a known success probability |
| ExpectedCost.Outcome | rust/src/upgrade_policy.rs:719-798 | the outcome of `(mask, score)` always has a known success probability: a finished echo succeeds exactly at the target; an abandoned state or one below its cut-off fails; a state at the target is certain; any other reveals one more slot |
| ExpectedCost.Step | rust/src/upgrade_policy.rs:761-786 | revealing one more slot from a partial state, the root included, gives a known success probability |
| ExpectedCost.BuffTotalsStep | rust/src/upgrade_policy.rs:770-777 | one more outcome of a buff adds its probability-weighted state, and the child mask stays a valid state |
| ExpectedCost.ExpansionTotalsStep | rust/src/upgrade_policy.rs:764-768 | taking the lowest open buff splits its outcomes off the remaining total |
| ExpectedCost.InitialEntry | rust/src/upgrade_policy.rs:639-673 | each entry of the memo begins as the source lays it out: the root holds one uncomputed state; a mask without a cut-off is `Abandon`; one with a cut-off below the target holds `target - cut + 1` uncomputed states; any other holds none |
| ExpectedCost.NonzeroRank | rust/src/upgrade_policy.rs:701-705 | only the empty mask has index 0, so `memo[0]` is the root's own entry |
| ExpectedCost.KeyInEntry | rust/src/upgrade_policy.rs:751-753 | `cut <= score < target` indexes inside the entry's `target - cut + 1` states, so `states[score_key]` is within bounds |
| ExpectedCost.AbandonedEntry | rust/src/upgrade_policy.rs:649-653 | an entry is `Abandon` exactly when the policy recorded no cut-off for that mask |
| ExpectedCost.WriteOutcomeSound | rust/src/upgrade_policy.rs:788-794 | writing a state's own outcome into its entry keeps every stored state equal to its outcome |
| ExpectedCost.ExpectedResourcesRec | rust/src/upgrade_policy.rs:719-798 | the memoised recursion returns exactly `Outcome(mask, score)` and keeps every memo entry equal to the outcome it stands for |
| ExpectedCost.LookupOutcome | rust/src/upgrade_policy.rs:733-759 | the entry settles the outcome when it is abandoned, below the cut-off, at the target or already computed; otherwise it yields the key of the state to compute |
| ExpectedCost.StoreOutcome | rust/src/upgrade_policy.rs:788-796 | storing the computed outcome at its key keeps the memo sound |
| ExpectedCost.ExpandOutcomes | rust/src/upgrade_policy.rs:761-778 | the loop over the open buffs, lowest first, sums every weighted outcome exactly once |
| ExpectedCost.ExpandLowest | rust/src/upgrade_policy.rs:765-777 | one pass of the bit-walking loop moves the lowest remaining buff's outcomes into the running total |
| ExpectedCost.LowestTotals | rust/src/upgrade_policy.rs:765-768 | adding the lowest remaining buff's outcomes moves them from the remaining total into the running total |
| ExpectedCost.AddBuffOutcomes | rust/src/upgrade_policy.rs:770-777 | the inner loop adds each outcome of one buff, weighted by its probability |
| ExpectedCost.AddOneOutcome | rust/src/upgrade_policy.rs:771-776 | one pass of the inner loop adds one weighted outcome to all three totals |
| ExpectedCost.OutcomeBounded | rust/src/upgrade_policy.rs:719-798 | under PMFs that add up to 1, every success probability lies in [0, 1] and every resource total is non-negative |
| ExpectedCost.GuaranteedBounded | rust/src/upgrade_policy.rs:149-158 | the guaranteed-success state has probability 1 and non-negative resources |
| ExpectedCost.StepBounded | rust/src/upgrade_policy.rs:761-786 | a reveal step keeps the probability in [0, 1] and the resources non-negative |
| ExpectedCost.StepTotalsBounded | rust/src/upgrade_policy.rs:761-778 | the summed outcomes of a step stay within one per open buff |
| ExpectedCost.MeanWithin | rust/src/upgrade_policy.rs:780-783 | scaling by `1 / num_remaining_buffs` keeps a per-buff bound and keeps a non-negative total non-negative |
| ExpectedCost.ExpansionBounded | rust/src/upgrade_policy.rs:764-778 | the outcomes over any remaining open buffs stay within one per buff |
| ExpectedCost.BuffBounded | rust/src/upgrade_policy.rs:770-777 | one buff's outcomes stay within their probability mass |
| ExpectedCost.OutcomeShare | rust/src/upgrade_policy.rs:774-776 | an outcome of probability `p` adds at most `p` to the success total and nothing negative to the resources |
| ExpectedCost.RootWriteSound | rust/src/upgrade_policy.rs:701-704 | writing the root's outcome into the root entry keeps the memo sound |
| ExpectedCost.WalkFromRoot | rust/src/upgrade_policy.rs:675-706 | the walk from the empty echo computes `Step(0, 0)` and stores it as the root entry's only state |
| ExpectedCost.StoreRoot | rust/src/upgrade_policy.rs:701-706 | `memo[0].states[0] = total` leaves the root entry holding exactly that one state |
| UpgradePolicy.TargetFromRaw | rust/src/upgrade_policy.rs:384-388 | the target is 0 for a raw score at or below 0, and otherwise `(raw * 100).round()` saturated to a `u16` |
| UpgradePolicy.TargetOfDisplayedScore | rust/src/upgrade_policy.rs:384-388 | a score shown in display units, `n / 100`, maps back to the internal score `n` |
| UpgradePolicy.CacheWriteSound | rust/src/upgrade_policy.rs:79-88 | storing a state's own value, marked "continue" only where the policy continues, keeps a cache sound |
| UpgradePolicy.WriteSound | rust/src/upgrade_policy.rs:84 | writing a state's own value keeps every stored entry equal to its state's value |
| UpgradePolicy.RootAdvantageOf | rust/src/upgrade_policy.rs:572-573 | at the empty echo all 13 buffs are open: the advantage is the mean over 13 less lambda times the first reveal's cost |
| UpgradePolicy.ChildState | rust/src/upgrade_policy.rs:612-616 | the state reached by an outcome of an open buff is a valid argument of `value_rec`, with one more bit and a score in its cache range |
| UpgradePolicy.BuffTotalAdvance | rust/src/upgrade_policy.rs:614-617 | adding one outcome's weighted value extends the running total by exactly that outcome |
| UpgradePolicy.UpgradePolicySolver.Init | rust/src/upgrade_policy.rs:419-431 | the fields `new` sets once its checks pass: the target, lambda 0, nothing derived, nothing touched, no expected costs |
| UpgradePolicy.UpgradePolicySolver.CacheOf | rust/src/upgrade_policy.rs:586 | the cache at `partial_mask_to_index(mask)` is the one built for that mask |
| UpgradePolicy.UpgradePolicySolver.CacheIndex | rust/src/upgrade_policy.rs:470 | `partial_mask_to_index(mask)` is the mask's rank, and the cache there was built for it |
| UpgradePolicy.UpgradePolicySolver.CachesDistinct | rust/src/upgrade_policy.rs:396-417 | caches at different positions are different objects, so writing one leaves the others unchanged |
| UpgradePolicy.UpgradePolicySolver.SetCache | rust/src/upgrade_policy.rs:469-475 | the mask's cache is listed in `touched_cache` on its first write, its entry is written, and every other cache is unchanged |
| UpgradePolicy.UpgradePolicySolver.ValueRec | rust/src/upgrade_policy.rs:576-628 | the memoised recursion returns exactly `Value(mask, score)` and keeps every cache entry and decision sound |
| UpgradePolicy.UpgradePolicySolver.PartialValueRec | rust/src/upgrade_policy.rs:586-627 | on a partial state: a cached value is returned as is; otherwise the state is solved and recorded; the result is the state's value |
| UpgradePolicy.UpgradePolicySolver.SolveState | rust/src/upgrade_policy.rs:600-627 | a state whose target is out of reach is pruned with value 0; any other state is expanded; then it is recorded |
| UpgradePolicy.UpgradePolicySolver.ExpandState | rust/src/upgrade_policy.rs:606-618 | the bit-walking loop sums the weighted values of every outcome of every open buff, lowest buff first |
| UpgradePolicy.UpgradePolicySolver.DecideState | rust/src/upgrade_policy.rs:620-624 | the stored value is the advantage of revealing when it is at least 0, and 0 otherwise; the decision is "continue" exactly when the advantage is at least 0 |
| UpgradePolicy.UpgradePolicySolver.RecordState | rust/src/upgrade_policy.rs:620-627 | the state's value and decision are computed and stored |
| UpgradePolicy.UpgradePolicySolver.StoreState | rust/src/upgrade_policy.rs:625 | `set_cache` with the state's own value and decision keeps every entry and decision sound |
| UpgradePolicy.UpgradePolicySolver.AddBuffOutcomes | rust/src/upgrade_policy.rs:614-617 | the inner loop adds each outcome of one buff times the value it leads to |
| UpgradePolicy.UpgradePolicySolver.AddOneOutcome | rust/src/upgrade_policy.rs:615-616 | one pass adds one outcome's probability times its child's value |
| UpgradePolicy.UpgradePolicySolver.ClearCaches | rust/src/upgrade_policy.rs:459-467 | lambda is 0 again, nothing is derived, no expected costs remain, and every cache is empty, because every written cache was listed as touched |
| UpgradePolicy.UpgradePolicySolver.ClearListedCaches | rust/src/upgrade_policy.rs:462-465 | `clear_touched` on each listed cache leaves every cache empty |
| UpgradePolicy.UpgradePolicySolver.ClearedIsValid | rust/src/upgrade_policy.rs:459-467 | with every cache cleared and none listed, the solver is valid at any lambda |
| UpgradePolicy.UpgradePolicySolver.UpdateTargetScore | rust/src/upgrade_policy.rs:434-455 | a non-finite or unreachable target is rejected with its error and changes nothing; otherwise the caches are cleared and the new target is set |
| UpgradePolicy.UpgradePolicySolver.Retarget | rust/src/upgrade_policy.rs:452-454 | the success path clears the caches and then sets the target |
| UpgradePolicy.UpgradePolicySolver.StartDerivation | rust/src/upgrade_policy.rs:478-480 | after clearing, lambda is the new value and the policy is marked derived |
| UpgradePolicy.UpgradePolicySolver.DerivePolicyAtLambda | rust/src/upgrade_policy.rs:477-482 | the DP runs from the empty echo at the given lambda, and the solver stays valid with the policy derived |
| UpgradePolicy.UpgradePolicySolver.RootAdvantage | rust/src/upgrade_policy.rs:553-574 | the policy is derived at the new lambda, and the result is the advantage of the first reveal of an empty echo |
| UpgradePolicy.UpgradePolicySolver.GetDecision | rust/src/upgrade_policy.rs:233-253 | not before the policy is derived; an invalid mask is rejected; the empty echo always continues; a full one never does; a partial one continues exactly at scores reaching its cut-off |
| UpgradePolicy.UpgradePolicySolver.ContinueIsBacked | rust/src/upgrade_policy.rs:238-246 | a partial mask that continues at a score has a score at or below it at which the policy's own value recursion continues |
| UpgradePolicy.UpgradePolicySolver.StopIsBacked | rust/src/upgrade_policy.rs:238-246 | a partial mask that stops at a score recorded no "continue" at that score or below |
| UpgradePolicy.UpgradePolicySolver.WeightedExpectedCost | rust/src/upgrade_policy.rs:302-307 | not before the policy is derived; otherwise 1000 over lambda plus the weighted refunds given up, and positive infinity at lambda 0 |
| UpgradePolicy.UpgradePolicySolver.W | rust/src/upgrade_policy.rs:719-798 | the walk reads the PMFs, the target, the cut-offs recorded by the caches, and the cost tables |
| UpgradePolicy.UpgradePolicySolver.CutOffs | rust/src/upgrade_policy.rs:651 | the cut-offs of the caches, in mask order |
| UpgradePolicy.UpgradePolicySolver.BuildMemo | rust/src/upgrade_policy.rs:637-673 | a fresh memo with one initial entry per partial mask, in order, which is sound |
| UpgradePolicy.UpgradePolicySolver.InitialMemoSound | rust/src/upgrade_policy.rs:637-673 | the initial entries hold nothing computed, so the memo starts sound |
| UpgradePolicy.UpgradePolicySolver.CalculateExpectedResources | rust/src/upgrade_policy.rs:630-717 | not before the policy is derived, and then nothing changes; otherwise the result summarises the root's walk, and the kept memo is sound |
| UpgradePolicy.UpgradePolicySolver.DerivedExpectedResources | rust/src/upgrade_policy.rs:637-716 | once the policy is derived, the summary of the root's outcome, with the memo kept |
| UpgradePolicy.UpgradePolicySolver.KeepExpectedCosts | rust/src/upgrade_policy.rs:708 | `expected_cost_cache = Computed(memo)` keeps the walked memo |
| UpgradePolicy.UpgradePolicySolver.WalkPolicy | rust/src/upgrade_policy.rs:637-706 | the walk from the root yields a sound memo and the root's state `Step(0, 0)` |
| UpgradePolicy.UpgradePolicySolver.GetSuccessProbability | rust/src/upgrade_policy.rs:256-300 | an invalid mask is rejected; 1 at or above the target; 0 where the policy stops or below the cut-off; otherwise the stored probability, with `InvalidScore` for a missing or NaN state |
| UpgradePolicy.UpgradePolicySolver.SuccessProbabilityIsOutcome | rust/src/upgrade_policy.rs:256-300 | below the target, the returned probability is that of following the policy from the state: the root's walk for the empty echo, `Outcome` for any other |
| UpgradePolicy.UpgradePolicySolver.FullSuccessProbability | rust/src/upgrade_policy.rs:264-269 | a full echo below the target has success probability 0, and so does its outcome |
| UpgradePolicy.UpgradePolicySolver.RootSuccessProbability | rust/src/upgrade_policy.rs:277-299 | the empty echo's stored probability is the root walk's |
| UpgradePolicy.UpgradePolicySolver.PartialSuccessProbability | rust/src/upgrade_policy.rs:277-299 | a non-empty partial mask's stored probability is its state's outcome |
| UpgradePolicy.UpgradePolicySolver.SuccessProbabilityInRange | rust/src/upgrade_policy.rs:256-300 | under PMFs that add up to 1, every returned success probability lies in [0, 1] |
| UpgradePolicy.StoredProbabilitySound | rust/src/upgrade_policy.rs:284-293 | what a sound memo answers at or above the cut-off and below the target is that state's outcome |
| UpgradePolicy.PerSuccess | rust/src/upgrade_policy.rs:712-715 | `total / success + extra` in floating point: an exact quotient for a non-zero probability, and positive infinity or NaN over a zero one |
| UpgradePolicy.RealPmf | rust/src/upgrade_policy.rs:345-352 | the PMF the DP reads keeps every key, and every finite probability as its value |
| UpgradePolicy.RealPmfs | rust/src/upgrade_policy.rs:334-335 | one real PMF per raw PMF, in order |
| UpgradePolicy.FirstBadProbability | rust/src/upgrade_policy.rs:345-351 | the first probability from a position on that is not finite or is negative, and that none exists when it returns nothing |
| UpgradePolicy.MinAtMostMax | rust/src/upgrade_policy.rs:361-364 | a non-empty PMF's smallest key is at most its largest |
| UpgradePolicy.ScanPmf | rust/src/upgrade_policy.rs:334-366 | the checks of one PMF (empty, bad probability, not normalised within 1e-9) fail as `PmfError` says; otherwise its smallest and largest keys |
| UpgradePolicy.ScanPmfs | rust/src/upgrade_policy.rs:334-381 | the first failing PMF's error; otherwise the per-buff minima and maxima and the sum of the five largest maxima |
| UpgradePolicy.KeepTop | rust/src/upgrade_policy.rs:368-375 | one insertion step leaves the five largest maxima seen so far |
| UpgradePolicy.MaskScoreRange | rust/src/upgrade_policy.rs:399-408 | a mask's smallest and largest scores are the sums of its buffs' minima and maxima |
| UpgradePolicy.RankAtEnd | crates/echo_policy/src/mask.rs:68-83 | the enumeration has 1093 or 1287 masks up to its search bound |
| UpgradePolicy.BuildCaches | rust/src/upgrade_policy.rs:396-417 | one fresh, empty cache per partial mask, in order, sized from the mask's score range and holding its best-case remaining score |
| UpgradePolicy.NewFromScorePmfs | rust/src/upgrade_policy.rs:317-431 | an error exactly when `NewError` names one, in the source's order of checks; otherwise a valid solver with the target set, lambda 0, nothing derived and every cache empty |
| UpgradePolicy.NonEmptyAccepted | rust/src/upgrade_policy.rs:336-338 | PMFs that pass the checks are non-empty |
| UpgradePolicy.PmfsErrorCovers | rust/src/upgrade_policy.rs:334-376 | when no PMF from a position on fails, none of them fails on its own |
| UpgradePolicy.New | rust/src/upgrade_policy.rs:311-432 | `new` on the scorer's PMFs: an error exactly when `NewError` gives one, and that error; otherwise a fresh valid solver holding the cost model, those PMFs, their best-case score and the checked target, with lambda 0, no derived policy, no expected-cost memo and every cache cleared |
| UpgradePolicy.AsRaw | rust/src/upgrade_policy.rs:321 | the scorer's PMFs with each probability as a finite float |
| UpgradePolicy.RealOfRaw | rust/src/upgrade_policy.rs:321 | reading those probabilities back gives the scorer's PMFs |
| LegacySolver.CacheIndex | rust/src/solver/solver_mask.rs:74-78 | `mask_to_cache_index` is defined exactly up to `MASK_SPACE`, covers every in-domain valid mask, gives its rank, and gives 0 only to the empty mask |
| LegacySolver.OutsideTable | rust/src/solver/solver_mask.rs:6-7 | above `MASK_SPACE` lie only masks outside the domain or with five or more buffs |
| LegacySolver.LegacyTableIsPartialTable | rust/src/solver/solver_mask.rs:21-72 | within `MASK_SPACE`, the older mask tables are the newer generation's partial-mask tables |
| LegacySolver.SameMaskSpace | rust/src/solver/solver_mask.rs:6-7 | the older bound equals `PARTIAL_MASK_SPACE` and comes from the same shifted all-ones pattern |
| LegacySolver.DefaultState | rust/src/solver/solver_cost.rs:17-25 | the default state is uncomputed (the NaN marker) and has nothing spent |
| LegacySolver.FailedState | rust/src/solver/solver_cost.rs:28-34 | the failed state has probability 0 and nothing spent |
| LegacySolver.AlwaysSuccessState | rust/src/solver/solver_cost.rs:36-45 | success is certain; with every slot revealed nothing is left to spend, and otherwise some tuners are |
| LegacySolver.AlwaysSuccessNonIncreasing | rust/src/solver/solver_cost.rs:36-45 | a certain success costs no more the more slots are already revealed |
| LegacySolver.AlwaysSuccessIsGuaranteed | rust/src/solver/solver_cost.rs:36-45 | before the last slot the older state equals the newer `guaranteed_success_state` for the same cost model |
| LegacySolver.LegacyTarget | rust/src/solver.rs:62 | the unchecked cast `(raw * 100).round() as u16`: on a finite value it is the newer generation's target; NaN and negative infinity give 0; positive infinity gives 65535 |
| LegacySolver.NonPositiveTarget | rust/src/solver.rs:109 | a raw target at or below 0 casts to 0 |
| LegacySolver.LegacyMemo | rust/src/solver.rs:354-376 | the older memo has one entry per partial mask, laid out as the older code lays it out |
| LegacySolver.ReadProbability | rust/src/solver.rs:155-159 | `cache[idx].as_ref().unwrap()[key]` panics exactly on a missing entry or a key past its end; otherwise it returns that state's probability |
| LegacySolver.ReadAgrees | rust/src/solver.rs:153-159 | where the newer generation finds the state, the older layout holds the same states, and reading them at `score - cut_off` gives the same answer |
| LegacySolver.IntendedKey | rust/src/solver.rs:369-370 | the memo is laid out by the distance of the score from the mask's cut-off |
| LegacySolver.IntendedKeyInRange | rust/src/solver.rs:369-370 | below the target and at or above the cut-off, the intended key fits the `target - cut_off + 1` states |
| LegacySolver.AsWrittenKeyPastEnd | rust/src/solver.rs:153 | with cut-off 50, target 100 and a continuing score of 60, the key `score.min(target)` is 60, past the 51 states, while `score - cut_off` is 10 |
| LegacySolver.KeysAgreeOnlyAtZeroCutOff | rust/src/solver.rs:153 | below the target, the key as written and the intended key agree exactly when the cut-off is 0 |
| LegacySolver.Doubled | rust/src/solver.rs:199-203 | doubling a positive `hi` never lowers it |
| LegacySolver.NotBracketedAtLo | rust/src/solver.rs:193-196 | a non-positive advantage at `lo` is rejected before any doubling |
| LegacySolver.DoublingOutcome | rust/src/solver.rs:197-206 | the doubling loop exits after at most 80 doublings, with the advantage positive at each earlier one; the bracket is returned exactly when the advantage at the last is negative |
| LegacySolver.AdvantageFunction | rust/src/solver.rs:266-286 | the root advantage is a function of lambda alone once the PMFs, target and costs are fixed |
| LegacySolver.PolicySolver.constructor | rust/src/solver.rs:90-101 | the solver wraps a freshly built engine and keeps no memo |
| LegacySolver.PolicySolver.IsPolicyDerived | rust/src/solver.rs:119-121 | the policy is derived exactly when lambda is set |
| LegacySolver.PolicySolver.UpdateTargetScore | rust/src/solver.rs:108-117 | a cast target above the best possible score is rejected and changes nothing; otherwise lambda is unset, the caches are cleared and the target is set |
| LegacySolver.PolicySolver.GetDecision | rust/src/solver.rs:123-138 | not before derivation; the empty echo continues; a mask of five or more buffs stops whatever its other bits; any other mask continues exactly at scores reaching its cache's cut-off |
| LegacySolver.PolicySolver.DecisionsAgree | rust/src/solver.rs:123-138 | on valid masks both generations decide alike |
| LegacySolver.PolicySolver.DecisionMonotone | rust/src/solver.rs:137 | the cut-off is a threshold: the decision is monotone in the score |
| LegacySolver.PolicySolver.GetSuccessProbAsWritten | rust/src/solver.rs:140-160 | as written: the decision is checked first, then 1 at or above the target, then the memo entry read at `score.min(target_score)` |
| LegacySolver.PolicySolver.AsWrittenPanics | rust/src/solver.rs:153-155 | as written, a continuing score below the target and more than `target - cut_off` away from 0 indexes past the end of its states |
| LegacySolver.PolicySolver.GetSuccessProb | rust/src/solver.rs:140-160 | the same operation with the memo read at `score - cut_off`, the key it is laid out by |
| LegacySolver.PolicySolver.SuccessProbAgrees | rust/src/solver.rs:140-160 | with the corrected key, below the target and on states the walk can reach, the older solver answers what the newer one answers |
| LegacySolver.PolicySolver.NotDerivedAgrees | rust/src/solver.rs:141 | before derivation both generations report that the policy is not derived |
| LegacySolver.PolicySolver.FullProbAgrees | rust/src/solver.rs:132-133 | a full echo below the target has probability 0 in both generations |
| LegacySolver.PolicySolver.StopAgrees | rust/src/solver.rs:141-143 | where the policy stops, both generations give 0 |
| LegacySolver.PolicySolver.RootRead | rust/src/solver.rs:153-155 | the older solver reads the root entry at the score itself |
| LegacySolver.PolicySolver.PartialShape | rust/src/solver.rs:364-370 | a continuing partial mask's entry has its cut-off recorded, reached, and below the target |
| LegacySolver.PolicySolver.PartialRead | rust/src/solver.rs:153-155 | the older solver reads a continuing partial mask's entry at the intended key |
| LegacySolver.PolicySolver.CombineReads | rust/src/solver.rs:153-159 | both generations' reads of one entry give the same answer |
| LegacySolver.PolicySolver.DerivePolicyAtLambda | rust/src/solver.rs:170-174 | lambda is set, the caches are cleared, the DP runs from the empty echo, and no memo is kept |
| LegacySolver.PolicySolver.RootAdvantage | rust/src/solver.rs:266-286 | the policy is derived at lambda, and the result is the first reveal's advantage at that lambda |
| LegacySolver.PolicySolver.Probe | rust/src/solver.rs:193-201 | a probe of `lambda_search` returns the root advantage at its argument, leaves the policy derived at that lambda with no memo, and keeps the target and costs |
| LegacySolver.PolicySolver.BracketLambda | rust/src/solver.rs:183-206 | non-finite inputs are rejected with nothing changed; `lo` is raised to 0 and `hi` above `lo`; the result is `Bracketed`: rejected unless the advantage is positive at `lo`, then `hi` is doubled at most 80 times; the solver is left derived at `lo` when that probe fails and at the last doubled `hi` otherwise, with no memo |
| LegacySolver.PolicySolver.ExpandBracket | rust/src/solver.rs:197-206 | the doubling loop ends `Bracketed`, with the solver derived at the last doubled `hi` and no memo |
| LegacySolver.PolicySolver.ExpectedResources | rust/src/solver.rs:349-417 | not before derivation; otherwise the root's walk, reported as `TargetScoreImpossible` with no memo kept when its success probability is not positive |
| LegacySolver.PolicySolver.WalkAndKeep | rust/src/solver.rs:354-416 | the memo is kept only when the target is reachable, and the result summarises the root's walk |
| LegacySolver.KeyRange | rust/src/solver.rs:50-53 | the fold over one PMF's keys gives its smallest and largest key, starting from `u16::MAX` and 0 |
| LegacySolver.KeyRanges | rust/src/solver.rs:47-57 | `buff_min_score` and `buff_max_score` of the 13 PMFs |
| LegacySolver.New | rust/src/solver.rs:42-102 | construction ends as `LegacyNewError` says: a panic for a count other than 13, a best-case sum past `u16::MAX` or an empty PMF, and `TargetScoreImpossible` for an unreachable cast target; otherwise the PMFs, the cast target, no lambda, no memo and every cache empty |
| LegacySolver.AbsentFromEmpty | rust/src/solver/solver_mask.rs:91-94 | with no buff chosen, every buff's maximum score is offered |
| LegacySolver.BestFromEmpty | rust/src/solver.rs:61 | the best possible score is the sum of the five largest per-buff maxima |
| LegacySolver.EngineAcceptedLegacyAccepts | rust/src/solver.rs:42-102 | what the newer generation accepts, the older builds too, with the same target |
| LegacySolver.ImpossibleAgrees | rust/src/solver.rs:62-65 | on PMFs the newer generation accepts, the older refuses a finite target exactly when the newer reports it impossible |
| LegacySolver.NaNTargetAccepted | rust/src/solver.rs:62 | the older generation accepts a NaN target, which casts to 0, while the newer rejects it as `InvalidScore` |
| LegacySolver.EmptyPmfPanics | rust/src/solver/solver_mask.rs:119-120 | with 13 PMFs and a reachable target, an empty PMF aborts construction |
| RerollTables.LockCostShape | rust/src/reroll_policy.rs:10-20 | locking is payable exactly up to four buffs (`NUM_ECHO_SLOTS - 1`), costs at least 1, never gets cheaper with more locks, and costs 1 with no lock |
| RerollTables.PositiveMaskBits | rust/src/reroll_policy.rs:174-179 | the positive-weight mask has bit `i` exactly for the buffs of positive weight, and nothing beyond them |
| RerollTables.LockableMeans | rust/src/reroll_policy.rs:196-197 | the lock test `(sub & !positive) == 0` with at most four buffs says that `sub` is a submask of the positive-weight mask of at most four buffs |
| RerollTables.LockFilterMembers | rust/src/reroll_policy.rs:195-201 | filtering keeps exactly the lockable entries of the walk |
| RerollTables.LockFilterDescending | rust/src/reroll_policy.rs:194-206 | filtering a strictly descending walk keeps it strictly descending |
| RerollTables.LockSetMembers | rust/src/reroll_policy.rs:194-207 | a lock set holds exactly the submasks of the echo with at most four buffs, all of positive weight; it always holds 0, lists each lock once in descending order, and every lock is at most the echo's mask |
| RerollTables.TransitionsMembers | rust/src/reroll_policy.rs:173-199 | the transitions of a lock are exactly the full masks whose lock set holds it, each listed once, in ascending order |
| RerollTables.FullTableOfMasks | crates/echo_policy/src/mask.rs:115-130 | `FULL_MASKS` is a table of distinct five-buff masks in the 16-bit range |
| RerollTables.MaskScore | rust/src/reroll_policy.rs:182-187 | a mask's fixed score is never negative |
| RerollTables.MaskScoreSubmask | rust/src/reroll_policy.rs:182-187 | a lock scores no more than the echo it is taken from |
| RerollTables.MaxScoreBounds | rust/src/reroll_policy.rs:171-191 | `max_score` starts at 0, bounds every mask's score from above, and is one of the scores when they are non-negative |
| RerollTables.PositiveWeightMask | rust/src/reroll_policy.rs:174-179 | the loop computes the positive-weight mask |
| RerollTables.MaskScoreOf | rust/src/reroll_policy.rs:182-187 | the loop computes the mask's fixed score |
| RerollTables.CollectLocks | rust/src/reroll_policy.rs:194-206 | the submask walk collects exactly the lock set and records the echo as a transition of each lock, and of nothing else |
| RerollTables.VisitSubmask | rust/src/reroll_policy.rs:195-201 | one visit keeps `sub` exactly when it is lockable and records the transition |
| RerollTables.WalkStep | rust/src/reroll_policy.rs:203-206 | a walk step keeps the collected locks plus the rest of the walk equal to the lock set, and the next submask is smaller |
| RerollTables.BuildTables | rust/src/reroll_policy.rs:168-225 | the table loop of `new` builds the scores, the maximum, the lock sets and the transitions as their definitions say |
| RerollTables.AddFullMask | rust/src/reroll_policy.rs:182-209 | one pass of the loop extends the tables by one full mask |
| RerollTables.TablesStep | rust/src/reroll_policy.rs:182-209 | the tables of `index + 1` masks are those of `index` masks plus the next mask's entries |
| RerollTables.MaxScorePrefix | rust/src/reroll_policy.rs:189-191 | the running maximum depends only on the masks scored so far |
| RerollValues.LocksPriced | rust/src/reroll_policy.rs:194-208 | every lock of a state's lock set has a finite price and at least one transition, so the choices built at lines 301-307 are all priced |
| RerollValues.RatioBounds | rust/src/reroll_policy.rs:270 | helper for `action_value`: an average of values between `lo` and `hi` lies between them |
| RerollValues.RatioMonotone | rust/src/reroll_policy.rs:270 | helper for `action_value`: averaging preserves order |
| RerollValues.SumMinBounds | rust/src/reroll_policy.rs:262-268 | the capped sum lies between 0 and the baseline for each candidate |
| RerollValues.ActionValueBounds | rust/src/reroll_policy.rs:258-271 | a lock costs its price and at most the baseline more |
| RerollValues.SumMinMonotone | rust/src/reroll_policy.rs:262-268 | the capped sum is monotone in the values and the baseline |
| RerollValues.ActionValueMonotone | rust/src/reroll_policy.rs:258-271 | higher values everywhere make every lock dearer |
| RerollValues.BestOver | rust/src/reroll_policy.rs:365-371 | the best action value is finite when there is a lock, and infinity when there is none |
| RerollValues.BestOverIsMinimum | rust/src/reroll_policy.rs:365-371 | the best value is the least action value over the locks, and some lock reaches it |
| RerollValues.BestOverMonotone | rust/src/reroll_policy.rs:365-371 | lower values everywhere give a lower best |
| RerollValues.Next | rust/src/reroll_policy.rs:355-375 | one pass of the iteration gives a value for every full mask |
| RerollValues.MaxDeltaBounds | rust/src/reroll_policy.rs:373-375 | the largest change over the first `n` states is at most `tol` exactly when every one of them is |
| RerollValues.Converged | rust/src/reroll_policy.rs:377-381 | the stopping test `max_delta <= tol` holds exactly when one more pass moves no value by more than `tol` |
| RerollValues.NextGrounded | rust/src/reroll_policy.rs:353-372 | a pass keeps success states at 0 and nothing negative, and prices every failing state at one reroll or more |
| RerollValues.NextMonotone | rust/src/reroll_policy.rs:355-375 | the pass is monotone: it never reverses the order of two value tables |
| RerollValues.InitValuePositive | rust/src/reroll_policy.rs:346-347 | the starting value `lock_cost(0) / p_success_all` is positive when some mask succeeds |
| RerollValues.Initial | rust/src/reroll_policy.rs:346-351 | the starting values cover every full mask |
| RerollValues.Iterate | rust/src/reroll_policy.rs:350-379 | the values after `n` passes cover every full mask |
| RerollValues.IterateGrounded | rust/src/reroll_policy.rs:346-379 | every iterate keeps success states at 0 and no state negative |
| RerollValues.SuccessCount | rust/src/reroll_policy.rs:282-285 | no more candidates succeed than there are |
| RerollValues.SuccessCountExtremes | rust/src/reroll_policy.rs:282-285 | every candidate succeeds exactly when the count is full, and none exactly when it is 0 |
| RerollValues.LockSuccessProbabilityBounds | rust/src/reroll_policy.rs:274-289 | a lock's success probability is a probability, 1 exactly when every transition succeeds and 0 exactly when none does |
| RerollValues.RatioExact | rust/src/reroll_policy.rs:286 | a ratio of counts is 1 exactly at the full count and 0 exactly at 0 |
| RerollValues.LockProbabilities | rust/src/reroll_policy.rs:274-289 | the probability cache has an entry for every lock up to `FULL_MASK_SPACE` |
| RerollValues.RawChoices | rust/src/reroll_policy.rs:299-308 | one choice for each lock of the state, in lock-set order |
| RerollValues.InsertByCost | rust/src/reroll_policy.rs:310 | inserting adds exactly one choice |
| RerollValues.SortByCost | rust/src/reroll_policy.rs:310 | sorting keeps the number of choices |
| RerollValues.InsertByCostPermutes | rust/src/reroll_policy.rs:310 | inserting adds exactly the new choice to the multiset |
| RerollValues.InsertByCostBound | rust/src/reroll_policy.rs:310 | inserting a choice at or above a lower bound keeps the bound |
| RerollValues.SortedCons | rust/src/reroll_policy.rs:310 | a list led by `a` is sorted exactly when its tail is sorted and costs at least `a` |
| RerollValues.InsertByCostSorted | rust/src/reroll_policy.rs:310 | inserting into a sorted list keeps it sorted |
| RerollValues.SortByCostSorts | rust/src/reroll_policy.rs:310 | sorting orders the choices by expected cost and is a permutation of them |
| RerollValues.WithRegrets | rust/src/reroll_policy.rs:310-313 | the regret pass keeps the number of choices |
| RerollValues.RankedFaithful | rust/src/reroll_policy.rs:299-308 | every choice carries its lock, that lock's action value, regret 0 and the lock's success probability |
| RerollValues.RankedComplete | rust/src/reroll_policy.rs:299-309 | after sorting, every lock of the state still has a choice |
| RerollValues.RankedFirst | rust/src/reroll_policy.rs:310 | after sorting, the first choice of a failing state costs the Bellman value |
| RerollValues.ChoicesRanked | rust/src/reroll_policy.rs:291-316 | a failing state's choices list every lock with its action value and success probability, cheapest first; the first costs the Bellman value and has regret 0, and regrets grow down the list |
| RerollValues.RegretsOrder | rust/src/reroll_policy.rs:310-313 | the regrets start at 0, are never negative and grow down the sorted list |
| RerollValues.RegretsContent | rust/src/reroll_policy.rs:310-313 | the regret pass keeps the locks, costs and probabilities and sets each regret to the cost less the first |
| RerollPolicy.MeetCount | rust/src/reroll_policy.rs:243-249 | no more of the first `n` masks meet the target than `n` |
| RerollPolicy.MeetCountPositive | rust/src/reroll_policy.rs:243-249 | one mask that meets the target makes the count positive |
| RerollPolicy.ReachableTarget | rust/src/reroll_policy.rs:229-234 | a target `set_target` accepts is met by some full mask, so `p_success_all` is never 0 (line 347 divides by it) |
| RerollPolicy.TablesWellFormed | rust/src/reroll_policy.rs:168-225 | the tables `new` builds form a well-formed game: every lock set is non-empty, its locks lead back to the echo, and transitions stay in range |
| RerollPolicy.IterateSettled | rust/src/reroll_policy.rs:350-379 | after one pass or more, every failing state's value is the least action value of its locks |
| RerollPolicy.StopsHere | rust/src/reroll_policy.rs:377-381 | the loop stops at the first pass whose largest change is within the tolerance |
| RerollPolicy.NeverStops | rust/src/reroll_policy.rs:350-384 | a loop none of whose passes gets within the tolerance does not stop |
| RerollPolicy.ActionCache | rust/src/reroll_policy.rs:293-317 | the action cache has an entry for every full mask |
| RerollPolicy.BestLocks | rust/src/reroll_policy.rs:319-322 | the best-lock cache has one entry per state |
| RerollPolicy.RerollPolicySolver.constructor | rust/src/reroll_policy.rs:168-225 | a solver with the scorer, the positive-weight mask and the full-mask tables, no target, no mask marked, all values 0 and empty caches |
| RerollPolicy.RerollPolicySolver.Tables | rust/src/reroll_policy.rs:168-208 | the full masks, the positive-weight mask, the scores and the lock tables as they are defined, forming a well-formed game |
| RerollPolicy.RerollPolicySolver.IndexInTable | crates/echo_policy/src/mask.rs:132-158 | a valid external full mask is in the table, at the index `full_mask_to_index` gives |
| RerollPolicy.RerollPolicySolver.StateOf | rust/src/reroll_policy.rs:82 | the state of a valid external full mask holds that mask |
| RerollPolicy.RerollPolicySolver.MarkSuccesses | rust/src/reroll_policy.rs:243-250 | a mask is marked exactly when its score reaches the target, and the count is the number marked |
| RerollPolicy.RerollPolicySolver.ClearCaches | rust/src/reroll_policy.rs:235-240 | the policy is dropped and every cache emptied |
| RerollPolicy.RerollPolicySolver.SetTarget | rust/src/reroll_policy.rs:228-253 | a NaN target or one above `max_score` is refused and changes nothing; otherwise the target is set, the policy and caches dropped, the values kept, a mask marked exactly when its score reaches the target, and at least one mask is marked |
| RerollPolicy.RerollPolicySolver.ActionValueAt | rust/src/reroll_policy.rs:258-272 | `action_value` computes the lock's action value |
| RerollPolicy.RerollPolicySolver.BestActionAt | rust/src/reroll_policy.rs:365-371 | the inner loop finds the least action value over the state's locks |
| RerollPolicy.RerollPolicySolver.BellmanPass | rust/src/reroll_policy.rs:355-375 | a pass computes the Bellman step of every state and the largest change |
| RerollPolicy.RerollPolicySolver.InitialValues | rust/src/reroll_policy.rs:346-351 | the starting values: 0 on success, `lock_cost(0) / p_success_all` elsewhere |
| RerollPolicy.RerollPolicySolver.LockProbability | rust/src/reroll_policy.rs:278-287 | one entry is the share of the lock's transitions that meet the target, 0 without transitions |
| RerollPolicy.RerollPolicySolver.BuildLockSuccessProbabilityCache | rust/src/reroll_policy.rs:274-289 | the cache holds every lock's success probability |
| RerollPolicy.RerollPolicySolver.ApplyRegrets | rust/src/reroll_policy.rs:310-313 | the regret pass as defined |
| RerollPolicy.RerollPolicySolver.StateChoices | rust/src/reroll_policy.rs:296-316 | a state's choices: none on success, otherwise its locks priced, sorted by cost, with regrets |
| RerollPolicy.RerollPolicySolver.AllStateChoices | rust/src/reroll_policy.rs:293-317 | the choices of every state |
| RerollPolicy.RerollPolicySolver.FirstLocks | rust/src/reroll_policy.rs:319-322 | each state's best lock is the first of its choices |
| RerollPolicy.RerollPolicySolver.BuildActionCache | rust/src/reroll_policy.rs:291-326 | the caches hold the probabilities, the ranked choices and the best locks of the current values |
| RerollPolicy.RerollPolicySolver.DerivePolicy | rust/src/reroll_policy.rs:328-385 | without a target `TargetNotSet`, with a NaN, infinite or non-positive tolerance `InvalidTolerance`, both changing nothing; otherwise the values are the iterates from the initial values after the passes run, success exactly when a pass got within the tolerance, and `FailedtoConvergeWithinMaxIter` after `max_iter` passes each moving some value by more |
| RerollPolicy.RerollPolicySolver.Pass | rust/src/reroll_policy.rs:350-375 | one pass steps the values, and stops with the caches filled exactly when the largest change was within the tolerance |
| RerollPolicy.RerollPolicySolver.Finish | rust/src/reroll_policy.rs:376-380 | on convergence the values are settled, the caches filled and the policy derived |
| RerollPolicy.RerollPolicySolver.Iterations | rust/src/reroll_policy.rs:350-384 | at most `max_iter` passes; the values are the iterates; success exactly when the loop stops; failure after `max_iter` passes with the caches empty |
| RerollPolicy.RerollPolicySolver.RankedAt | rust/src/reroll_policy.rs:291-326 | once derived, a success state has no choices and no best lock; a failing one has its choices ranked, and its best lock is their first, an optimal, payable submask of the echo over positive-weight buffs |
| RerollPolicy.RerollPolicySolver.RankedPrefix | rust/src/reroll_policy.rs:109 | a prefix of ranked choices is ranked and has the same first choice |
| RerollPolicy.RerollPolicySolver.BestLockChoices | rust/src/reroll_policy.rs:74-88 | `PolicyNotDerived`, then `InvalidMask`; otherwise no lock exactly on success, and else the best lock, an optimal payable submask of the echo over positive-weight buffs |
| RerollPolicy.RerollPolicySolver.Keep | rust/src/reroll_policy.rs:102-106 | at most all choices are kept, and exactly `top_k` when it is positive and no more than there are |
| RerollPolicy.RerollPolicySolver.TopOfCache | rust/src/reroll_policy.rs:102-107 | the kept prefix is the cheapest `Keep` choices, ranked |
| RerollPolicy.RerollPolicySolver.LockChoices | rust/src/reroll_policy.rs:90-110 | `PolicyNotDerived`, then `InvalidMask`; otherwise the state's ranked choices cut to `top_k` (all of them for 0) |
| RerollPolicy.RerollPolicySolver.FirstChoiceIsBest | rust/src/reroll_policy.rs:74-110 | the first listed choice is the lock `best_lock_choices` reports |
| RerollPolicy.RerollPolicySolver.ExpectedLockCost | rust/src/reroll_policy.rs:112-120 | `PolicyNotDerived`, then `InvalidMask`; otherwise the state's value, 0 exactly on success and at least one reroll otherwise |
| RerollPolicy.RerollPolicySolver.BestLockSuccessProbability | rust/src/reroll_policy.rs:122-141 | `PolicyNotDerived`, then `InvalidMask`; otherwise none exactly on success, and else the success probability of the best lock |
| RerollPolicy.RerollPolicySolver.ShouldAccept | rust/src/reroll_policy.rs:143-164 | `PolicyNotDerived`, then `InvalidMask` for the baseline, then for the candidate; otherwise accept exactly when the candidate's expected cost is no higher; a candidate that meets the target and the baseline itself are always accepted, and a failing candidate never replaces a successful baseline |
| RerollPolicy.NewRerollPolicySolver | rust/src/reroll_policy.rs:168-169 | weights the fixed scorer refuses give `InvalidWeights`; otherwise a fresh valid solver over those weights |
| HostValidators.BuffNamesDistinct | apps/desktop/src-tauri/src/main.rs:14-58 | the host lists 13 distinct buff names and 13 default weights |
| HostValidators.PositionFrom | apps/desktop/src-tauri/src/main.rs:280-282 | the first position at or after `from` holding the name, or none exactly when no later position holds it |
| HostValidators.BuffIndex | apps/desktop/src-tauri/src/main.rs:280-282 | `buff_index` is the first position holding the name, or none exactly when the name is not listed |
| HostValidators.BuffIndexOfName | apps/desktop/src-tauri/src/main.rs:280-282 | every host name maps back to its own index |
| HostValidators.BuildWeightArray | apps/desktop/src-tauri/src/main.rs:292-305 | success exactly when no entry has an unknown name or a weight that is non-finite or negative; otherwise the error of the first such entry; on success each buff has the weight its entries give, over the defaults |
| HostValidators.ApplyWeight | apps/desktop/src-tauri/src/main.rs:295-302 | one pass rejects the entry as the first bad one, or stores its weight |
| HostValidators.WeightStep | apps/desktop/src-tauri/src/main.rs:301 | storing an accepted entry's weight extends the weights by that entry |
| HostValidators.WeightForDefault | apps/desktop/src-tauri/src/main.rs:293 | a buff no entry names keeps its default weight |
| HostValidators.WeightForNamed | apps/desktop/src-tauri/src/main.rs:295-302 | with distinct keys, as in a map, a named buff takes its entry's weight |
| HostValidators.WeightForNonNegative | apps/desktop/src-tauri/src/main.rs:298-300 | accepted entries leave every weight non-negative |
| HostValidators.BuildMask | apps/desktop/src-tauri/src/main.rs:307-326 | more than five names are refused; otherwise success exactly for distinct known names, else the error of the first unknown or repeated name; on success the mask has exactly the named buffs' bits |
| HostValidators.MarkName | apps/desktop/src-tauri/src/main.rs:316-323 | one pass rejects the name as the first fault, or sets its bit and adds one to the popcount |
| HostValidators.MarkedRepeat | apps/desktop/src-tauri/src/main.rs:319-321 | a name whose bit is already set is the first fault |
| HostValidators.MaskStep | apps/desktop/src-tauri/src/main.rs:322-325 | adding a new name's bit adds one to the popcount and extends the mask by that name |
| HostValidators.PopcountStep | apps/desktop/src-tauri/src/main.rs:322-325 | adding an unset bit adds one to the popcount and sets exactly that bit |
| HostValidators.AddBitCount | apps/desktop/src-tauri/src/main.rs:322-325 | adding an unset bit adds one to the popcount |
| HostValidators.MaskMarksStep | apps/desktop/src-tauri/src/main.rs:322-325 | a mask with one more name's bit marks one more name |
| HostValidators.MarkStep | apps/desktop/src-tauri/src/main.rs:319-322 | setting an unset bit is not a fault, and marks exactly the names seen with this one |
| HostValidators.BuildFullMask | apps/desktop/src-tauri/src/main.rs:328-340 | a count other than five is refused; success exactly for five distinct known names, else the first fault's error; on success a valid full mask with exactly those bits |
| HostValidators.FixedScoreFromSelected | apps/desktop/src-tauri/src/main.rs:342-353 | success exactly when every name is known, else the first unknown name's error; on success the sum of the named weights |
| HostValidators.Entries | apps/desktop/src-tauri/src/main.rs:382-384 | one entry per name |
| HostValidators.SelectedWeightTotalIsFixedScore | apps/desktop/src-tauri/src/main.rs:342-353 | the host's baseline score is the engine's fixed-scorer score of the selection |
| HostValidators.LockSlotIndices | apps/desktop/src-tauri/src/main.rs:355-365 | the 1-based slots whose known buff the lock mask keeps, ascending, one per locked slot |
| HostValidators.SlotStep | apps/desktop/src-tauri/src/main.rs:357-363 | one pass lists the slot exactly when its buff is locked |
| HostValidators.LockedCountIsPopcount | apps/desktop/src-tauri/src/main.rs:355-365 | for distinct known names and a lock inside their mask, one slot is listed per locked buff |
| HostValidators.ProperPrefix | apps/desktop/src-tauri/src/main.rs:316-323 | a prefix of distinct known names is distinct and known |
| HostValidators.BitsStayInPrefix | apps/desktop/src-tauri/src/main.rs:355-365 | bits other than the last name's lie among the earlier names |
| HostValidators.LockedUnchanged | apps/desktop/src-tauri/src/main.rs:355-365 | clearing the last name's bit does not change what the earlier names lock |
| HostValidators.SameLocks | apps/desktop/src-tauri/src/main.rs:355-365 | masks that lock the same names list the same number of slots |
| HostValidators.PerBuffScore | apps/desktop/src-tauri/src/main.rs:385 | the rounded per-buff score is within half a point of the exact one |
| HostValidators.ScoreFromSelectedBuffs | apps/desktop/src-tauri/src/main.rs:367-413 | a length mismatch first, then the session scorer's error, else the outcome of the saturating sum |
| HostValidators.FirstUnknownUnique | apps/desktop/src-tauri/src/main.rs:383-384 | the first unknown name is unique |
| HostValidators.SumSelectedScores | apps/desktop/src-tauri/src/main.rs:377-412 | the loop gives the outcome: the first unknown name's error, or else the `u32`-saturated sum, refused above `u16::MAX` |
| HostValidators.OutcomeAtUnknown | apps/desktop/src-tauri/src/main.rs:383-384 | the first unknown name decides the outcome |
| HostValidators.SaturatingStep | apps/desktop/src-tauri/src/main.rs:389 | saturating after every addition equals saturating once at the end |
| HostValidators.OutcomeAllKnown | apps/desktop/src-tauri/src/main.rs:408-412 | with every name known, the sum is refused above `u16::MAX` and returned otherwise |
| HostValidators.RawScoreNearEchoScore | apps/desktop/src-tauri/src/main.rs:382-390 | the rounded sum is within half a point per buff of the engine's echo score times `SCORE_MULTIPLIER` |
| HostValidators.NormaliseTopK | apps/desktop/src-tauri/src/main.rs:671-676 | 0 means the default 3; larger requests are capped at 3; anything from 1 to 3 is kept |
| HostValidators.HostListsAtMostThree | apps/desktop/src-tauri/src/main.rs:671-680 | the host lists at most three choices, the smaller of its request and what there is |
| OcrText.LeadingSpaces | policy_core/ocr/workflow.py:115 | the white space `str.strip()` removes at the front, and no more |
| OcrText.KeptLength | policy_core/ocr/workflow.py:115 | the white space `str.strip()` removes at the end, and no more |
| OcrText.Strip | policy_core/ocr/workflow.py:115 | `str.strip()` leaves no white space at either end and only characters of the text |
| OcrText.StripStripped | policy_core/ocr/workflow.py:115 | a text without white space at either end is its own strip |
| OcrText.ReplaceChar | policy_core/ocr/workflow.py:108-114 | `str.replace` of one character by another changes exactly those positions |
| OcrText.RemoveCharWithin | policy_core/ocr/workflow.py:128 | removing a character keeps only other characters of the text |
| OcrText.RemoveCharAbsent | policy_core/ocr/workflow.py:108-114 | removing a character the text does not hold changes nothing |
| OcrText.CleanChars | policy_core/ocr/workflow.py:108-114 | after the replacements every character is one the cleanup keeps |
| OcrText.CleanCharsSettled | policy_core/ocr/workflow.py:108-114 | the replacements leave a text of kept characters unchanged |
| OcrText.CleanupValueToken | policy_core/ocr/workflow.py:106-115 | `_cleanup_value_token` gives a stripped text whose every character the cleanup keeps |
| OcrText.CleanupIdempotent | policy_core/ocr/workflow.py:106-115 | cleaning a cleaned token changes nothing |
| OcrText.CleanupBuffType | policy_core/ocr/workflow.py:102-103 | `_cleanup_buff_type` gives a text without white space at either end |
| OcrText.RemoveSeparators | policy_core/ocr/workflow.py:122 | removing the separator runs keeps exactly the characters that are not separators (the separator class is defined at line 21) |
| OcrText.RemoveSeparatorsKeeps | policy_core/ocr/workflow.py:122 | a text without separators is unchanged (the separator class is defined at line 21) |
| OcrText.NormalizeLabelKey | policy_core/ocr/workflow.py:118-122 | `_normalize_label_key` leaves no separator in the key |
| OcrText.NormalizeLabelKeyIdempotent | policy_core/ocr/workflow.py:118-122 | normalising a key again changes nothing |
| OcrText.LineLength | policy_core/ocr/workflow.py:148 | a line runs up to the first line break |
| OcrText.Lines | policy_core/ocr/workflow.py:148 | `str.splitlines()` gives lines without line breaks |
| OcrText.WordLength | policy_core/ocr/workflow.py:152 | a word runs up to the first white space |
| OcrText.Words | policy_core/ocr/workflow.py:152 | `str.split()` gives non-empty words without white space |
| OcrText.WithoutSpacesSplit | policy_core/ocr/workflow.py:152 | a text without its white space splits at a word boundary |
| OcrText.WordsCoverText | policy_core/ocr/workflow.py:152 | the words joined are the text without its white space |
| OcrText.PendingFrom | policy_core/ocr/workflow.py:20 | the pending pattern is found at or after `p` exactly when it occurs there |
| OcrText.HasPendingMarker | policy_core/ocr/workflow.py:20 | `_PENDING_PATTERN.search` finds a match exactly when the pattern occurs somewhere |
| OcrText.DigitRun | policy_core/ocr/workflow.py:19 | `(\d+)` is the maximal run of digits |
| OcrText.SpaceRun | policy_core/ocr/workflow.py:19 | `\s*` is a run of white space within the text |
| OcrText.LockFrom | policy_core/ocr/workflow.py:19 | the first lock match at or after `p`, or none exactly when there is none |
| OcrText.LockRequirement | policy_core/ocr/workflow.py:19 | `_LOCK_PATTERN.search` gives the requirement of the leftmost match, none exactly when nothing matches |
| OcrText.LockMessageRead | policy_core/ocr/workflow.py:19 | the lock message for level `n`, with a `+` before the level, is read as `n` |
| OcrValues.DotIndex | policy_core/ocr/workflow.py:132 | the first `.` of the numeral, or its length when there is none |
| OcrValues.ExponentIndex | policy_core/ocr/workflow.py:132 | the first exponent mark of the numeral, or its length |
| OcrValues.ExponentValue | policy_core/ocr/workflow.py:132 | an unsigned exponent of digits is their value |
| OcrValues.UnderscoresIgnored | policy_core/ocr/workflow.py:132 | in a text without white space, `Decimal` ignores underscores |
| OcrValues.StripBeforeUnderscores | policy_core/ocr/workflow.py:132 | stripping comes before underscores are dropped: `_ 5` is no number, while ` 5` is 5 |
| OcrValues.SpacedNumeralUnread | policy_core/ocr/workflow.py:132 | `_ 5` is no number |
| OcrValues.UnderscoreDropped | policy_core/ocr/workflow.py:132 | dropping the underscore from `_ 5` leaves ` 5` |
| OcrValues.SpacedFiveRead | policy_core/ocr/workflow.py:132 | ` 5` is stripped and reads as 5 |
| OcrValues.ExponentForm | policy_core/ocr/workflow.py:132 | digits, `e`, digits read as the first number times ten to the second |
| OcrValues.ExponentEnds | policy_core/ocr/workflow.py:132 | such a text has no underscore, no sign and no white space at either end |
| OcrValues.ExponentNumeral | policy_core/ocr/workflow.py:132 | such a clean numeral is the first number times ten to the second |
| OcrValues.ExponentText | policy_core/ocr/workflow.py:132 | such a text has no underscore, starts with a digit and has its mark between the parts |
| OcrValues.ExponentAt | policy_core/ocr/workflow.py:132 | the exponent mark follows the leading digits |
| OcrValues.DotFree | policy_core/ocr/workflow.py:132 | digits hold no point |
| OcrValues.PlainNumeral | policy_core/ocr/workflow.py:132 | digits and points hold no underscore and no exponent |
| OcrValues.ExponentFree | policy_core/ocr/workflow.py:132 | a text without `e` or `E` has no exponent |
| OcrValues.IsIntegral | policy_core/ocr/workflow.py:137 | a value is integral exactly when it equals its own rounding |
| OcrValues.Magnitude | policy_core/ocr/workflow.py:132 | an unsigned numeral is read only when it holds a digit: digits with at most one point |
| OcrValues.Scientific | policy_core/ocr/workflow.py:132 | a numeral with an optional exponent is read only when it holds a digit |
| OcrValues.ParseDecimal | policy_core/ocr/workflow.py:132 | `Decimal(numeric)` gives a number only for a text holding a digit: white space stripped at both ends, then underscores dropped, then an optional sign, digits with at most one point, an optional exponent |
| OcrValues.ParseNumeral | policy_core/ocr/workflow.py:132 | a stripped numeral without underscores, with an optional sign, is read only when it holds a digit |
| OcrValues.CleanNumeral | policy_core/ocr/workflow.py:132 | a text without white space at either end and without underscores is parsed as it stands |
| OcrValues.StrippedDigit | policy_core/ocr/workflow.py:132 | a digit of the stripped text is a digit of the text |
| OcrValues.SurroundingSpaceIgnored | policy_core/ocr/workflow.py:132 | `Decimal` strips white space first, so white space around the text does not change the number |
| OcrValues.SignedDigit | policy_core/ocr/workflow.py:132 | a digit after the sign is a digit of the text |
| OcrValues.PowerOfTenRead | policy_core/ocr/workflow.py:132-141 | `1eN` reads as 10^N flat and 10^(N+1) tenths for every `N`, with no precision limit |
| OcrValues.Readings | policy_core/ocr/workflow.py:135-142 | the percent reading is ten times the flat one whenever there is a flat one |
| OcrValues.ParseSingleValue | policy_core/ocr/workflow.py:125-142 | `explicit_percent` exactly when the cleaned token holds `%`, and a flat reading always comes with a percent reading ten times as large |
| OcrValues.ReadingsOfNumber | policy_core/ocr/workflow.py:125-142 | a percent reading exactly when the number parses, ten times it rounded half up; a flat reading exactly when it is integral, equal to it |
| OcrValues.ReadsParsedNumber | policy_core/ocr/workflow.py:125-142 | the readings of a text are those of the number it parses to |
| OcrValues.ReadingsFacts | policy_core/ocr/workflow.py:135-142 | both directions of the reading rule, for any parsed number |
| OcrValues.DigitsSettled | policy_core/ocr/workflow.py:106-115 | digits are a cleaned token without `%` or `.` |
| OcrValues.DigitsUnspaced | policy_core/ocr/workflow.py:115 | digits have no white space at either end |
| OcrValues.DigitsAreNumber | policy_core/ocr/workflow.py:132 | digits parse to their value |
| OcrValues.DigitsClean | policy_core/ocr/workflow.py:132 | digits are a clean numeral without sign or exponent |
| OcrValues.ReadNat | policy_core/ocr/workflow.py:125-142 | the digits of `n` read as `n` flat and `10n` tenths, with no percent sign seen |
| OcrValues.PercentSettled | policy_core/ocr/workflow.py:106-128 | digits followed by `%` are a cleaned token, and removing the `%` gives the digits |
| OcrValues.ReadNatPercent | policy_core/ocr/workflow.py:125-142 | `n%` reads as `n` flat and `10n` tenths, with the percent sign seen |
| OcrValues.ReadNatTabPercent | policy_core/ocr/workflow.py:125-142 | `n`, a tab, `%` reads as `n` flat and `10n` tenths, with the percent sign seen |
| OcrValues.TabPercentSettled | policy_core/ocr/workflow.py:106-128 | digits, a tab and `%` are a cleaned token, and removing the `%` leaves the digits and the tab |
| OcrValues.TrailingTabIgnored | policy_core/ocr/workflow.py:132 | a tab after the digits is stripped before they are read |
| OcrValues.DecimalSettled | policy_core/ocr/workflow.py:106-132 | `a.fraction` is a cleaned token without `%`, underscores or exponent, with its point after `a` |
| OcrValues.DecimalChars | policy_core/ocr/workflow.py:132 | every character of `w.fraction` is a digit or the point |
| OcrValues.MagnitudeOf | policy_core/ocr/workflow.py:132 | `w.fraction` has the value of `w` plus the fraction |
| OcrValues.DotAt | policy_core/ocr/workflow.py:132 | the point follows the leading digits |
| OcrValues.DecimalValue | policy_core/ocr/workflow.py:125-142 | `a.fraction` reads as the readings of its value, without a percent sign |
| OcrValues.DecimalParses | policy_core/ocr/workflow.py:106-132 | `a.fraction` is a cleaned token that parses to its value |
| OcrValues.PlainParse | policy_core/ocr/workflow.py:132 | without white space at either end, underscores, exponent or sign, the number is the text's magnitude |
| OcrValues.NumeralIsMagnitude | policy_core/ocr/workflow.py:132 | a clean numeral without sign or exponent is its magnitude |
| OcrValues.DecimalMagnitude | policy_core/ocr/workflow.py:132 | `a.fraction` has magnitude `a` plus the fraction |
| OcrValues.ReadCleaned | policy_core/ocr/workflow.py:125-142 | a cleaned text is read by parsing it without its trailing `%` |
| OcrValues.OneDecimalReadings | policy_core/ocr/workflow.py:135-141 | `a + d/10` is `10a + d` tenths, and flat only when `d` is 0 |
| OcrValues.ReadOneDecimal | policy_core/ocr/workflow.py:125-142 | `a.d` reads as `10a + d` tenths, flat only when `d` is 0 |
| OcrValues.TwoDecimalsReadings | policy_core/ocr/workflow.py:140 | `a + (10d + e)/100` rounds half up to `10a + d` tenths, plus one when `e` is 5 or more |
| OcrValues.ReadTwoDecimals | policy_core/ocr/workflow.py:125-142 | `a.de` reads as tenths rounded half up on the second decimal |
| OcrValues.CleanedParts | policy_core/ocr/workflow.py:158 | the cleaned parts have no empty part |
| OcrValues.AdjacentPairs | policy_core/ocr/workflow.py:168-169 | one pair for each part but the last |
| OcrValues.ValueCandidateList | policy_core/ocr/workflow.py:145-187 | `_value_candidate_list` gives every distinct non-empty variant that yields a reading, paired with its reading, in the order of first appearance among the variants |
| OcrValues.SplitParts | policy_core/ocr/workflow.py:146-162 | the line loop and the fallback give the cleaned parts |
| OcrValues.AppendLine | policy_core/ocr/workflow.py:148-154 | one line's parts are appended to the parts so far |
| OcrValues.InterpretLoop | policy_core/ocr/workflow.py:181-187 | the loop keeps the variants that yield a reading |
| OcrValues.InterpretationsStep | policy_core/ocr/workflow.py:181-186 | one pass extends the kept variants by the next one when it yields a reading |
| OcrValues.BuildVariants | policy_core/ocr/workflow.py:164-171 | the variants: the joined parts, every part, then each adjacent pair, or the empty text without parts |
| OcrValues.KeepFirstLoop | policy_core/ocr/workflow.py:173-179 | the loop with its `seen` set keeps each non-empty variant once, at its first appearance |
| OcrValues.KeepFirstFacts | policy_core/ocr/workflow.py:173-179 | the de-duplicated variants are exactly the non-empty ones, once each, in order of first appearance |
| OcrValues.InterpretationsSound | policy_core/ocr/workflow.py:181-186 | every kept variant comes from the input, yields a reading and carries it |
| OcrValues.InterpretationsComplete | policy_core/ocr/workflow.py:181-186 | every input variant that yields a reading is kept, with that reading |
| OcrValues.InterpretationsOrdered | policy_core/ocr/workflow.py:181-186 | from an input without repeats, the kept variants keep their order |
| OcrValues.CandidatesSound | policy_core/ocr/workflow.py:145-187 | each entry of the candidate list is a non-empty variant paired with its reading |
| OcrValues.CandidatesComplete | policy_core/ocr/workflow.py:145-187 | every non-empty variant that yields a reading is in the candidate list |
| OcrValues.CandidatesOrdered | policy_core/ocr/workflow.py:145-187 | the list follows the order in which its texts first appear among the variants |
| OcrValues.EmptyUnread | policy_core/ocr/workflow.py:129-130 | the empty text yields no reading |
| OcrValues.JoinedTriedFirst | policy_core/ocr/workflow.py:166 | the joined text is tried first: when it yields a reading it heads the list |
| OcrRows.InsertBy | policy_core/ocr/workflow.py:216 | inserting adds exactly the new box, at the front only when it goes before the first |
| OcrRows.InsertBySorted | policy_core/ocr/workflow.py:216 | inserting into a sorted sequence keeps it sorted |
| OcrRows.SortBy | policy_core/ocr/workflow.py:216 | the stable sort keeps the number of boxes |
| OcrRows.SortByFacts | policy_core/ocr/workflow.py:216 | the sort orders by the key and is a permutation |
| OcrRows.MeanSingle | policy_core/ocr/workflow.py:226 | a new row's centre is its box's height |
| OcrRows.NearRowFrom | policy_core/ocr/workflow.py:218-220 | the first row at or after `from` whose centre is within the tolerance, or none exactly when there is none |
| OcrRows.Place | policy_core/ocr/workflow.py:217-226 | placing a box keeps one centre per row |
| OcrRows.Grouped | policy_core/ocr/workflow.py:216-226 | the grouping keeps one centre per row |
| OcrRows.SortRows | policy_core/ocr/workflow.py:227-228 | every row sorted by `center_x`, and nothing else changed |
| OcrRows.GroupByRows | policy_core/ocr/workflow.py:213-229 | `_group_by_rows` places every box in exactly one row, opens no empty row, orders each row by `center_x`, and opens at most one row per box |
| OcrRows.SortEachRow | policy_core/ocr/workflow.py:227-228 | the closing loop sorts every row |
| OcrRows.PlaceDetection | policy_core/ocr/workflow.py:217-226 | the inner loop places the box as `Place` says |
| OcrRows.FlattenGrow | policy_core/ocr/workflow.py:220 | appending a box to a row adds exactly that box |
| OcrRows.GroupedPartition | policy_core/ocr/workflow.py:216-226 | the grouping keeps every box once and opens no empty row |
| OcrRows.GroupedCenters | policy_core/ocr/workflow.py:221-226 | each row's centre is the mean height of its boxes |
| OcrRows.FlattenRowwise | policy_core/ocr/workflow.py:227-228 | rows holding the same boxes flatten to the same boxes |
| OcrRows.SortRowsFlatten | policy_core/ocr/workflow.py:227-228 | sorting the rows keeps every box |
| OcrRows.GroupRowsFacts | policy_core/ocr/workflow.py:213-229 | every box lands in exactly one row; each row is non-empty and ordered left to right |
| OcrMatch.PossibleValues | policy_core/ocr/workflow.py:460-464 | the values of one reading: the percent reading first, then the flat one, and nothing else |
| OcrMatch.TriesOf | policy_core/ocr/workflow.py:460-466 | one try per possible value, in order |
| OcrMatch.NearestIndex | policy_core/ocr/workflow.py:474 | `min(allowed, key=...)` picks the first allowed value at the least distance |
| OcrMatch.FirstExact | policy_core/ocr/workflow.py:467-472 | the first try whose value is allowed, or none exactly when there is none |
| OcrMatch.BestWithinTwo | policy_core/ocr/workflow.py:475-478 | the first position of the least distance among those of at most 2, none exactly when there are none |
| OcrMatch.Distances | policy_core/ocr/workflow.py:474-475 | each try's distance to the nearest allowed value |
| OcrMatch.MatchOf | policy_core/ocr/workflow.py:455-487 | a match always names an allowed value |
| OcrMatch.MatchSpec | policy_core/ocr/workflow.py:448-487 | what `_match_value` returns names an allowed value |
| OcrMatch.MatchValue | policy_core/ocr/workflow.py:448-487 | `_match_value` computes `MatchSpec` |
| OcrMatch.TryCandidate | policy_core/ocr/workflow.py:466-478 | the inner loop ends with an exact hit, the match, or with no hit and the fallback of all tries so far |
| OcrMatch.TryFallback | policy_core/ocr/workflow.py:473-478 | a value not allowed moves the fallback only to a strictly closer one within 2 |
| OcrMatch.TryStep | policy_core/ocr/workflow.py:473-478 | one more value tried, not allowed, leaves no exact hit and moves the fallback only to a strictly closer value |
| OcrMatch.ExactHit | policy_core/ocr/workflow.py:467-472 | an allowed value tried after none before it is the match |
| OcrMatch.ExactPrefix | policy_core/ocr/workflow.py:467-472 | once an exact hit is among the first tries, later tries do not matter |
| OcrMatch.MatchNone | policy_core/ocr/workflow.py:480-487 | no match exactly when no value tried is within 2 of an allowed value |
| OcrMatch.MatchSomeNear | policy_core/ocr/workflow.py:480-485 | a match means some value tried was within 2 |
| OcrMatch.FirstExactWins | policy_core/ocr/workflow.py:467-472 | the first allowed value tried is the match, whatever comes after |
| OcrMatch.FallbackNearest | policy_core/ocr/workflow.py:473-485 | without an exact hit, the match is the allowed value nearest to the closest value tried |
| OcrMatch.LeastKeyIndex | policy_core/ocr/workflow.py:501 | the first position of the least sort key |
| OcrMatch.SortKeys | policy_core/ocr/workflow.py:493-499 | one key per match |
| OcrMatch.PreferredIndex | policy_core/ocr/workflow.py:489-502 | `min(matches, key=sort_key)` is the first match with the least key |
| OcrMatch.PreferPercentReading | policy_core/ocr/workflow.py:493-502 | a percent-reading match of a buff not ending in `_Flat` beats every other kind of match |
| OcrMatch.PercentBeforeFlat | policy_core/ocr/workflow.py:493-502 | a percent-reading match beats any flat-reading match |
| OcrMatch.PreferFlatReading | policy_core/ocr/workflow.py:493-502 | without percent readings, a flat reading of a `_Flat` buff wins |
| OcrAliases.TypeNames | policy_core/ocr/workflow.py:278 | the type names of the definitions, in order |
| OcrAliases.TypeIndexFrom | policy_core/ocr/workflow.py:278-280 | the first definition of the type at or after `from`, or none exactly when there is none |
| OcrAliases.KnownDefinitions | policy_core/ocr/workflow.py:273-275 | the table's definitions for the names it knows, in order, and no other |
| OcrAliases.UpsertMerges | policy_core/ocr/workflow.py:279-280 | one dictionary update keeps types distinct and in their places, adds the new type, and invents no definition |
| OcrAliases.UpsertAllMerges | policy_core/ocr/workflow.py:278-281 | the merge keeps the old types in place, adds the new ones, never repeats a type, and invents no definition |
| OcrAliases.RegisteredValid | policy_core/ocr/workflow.py:269-281 | `_register_alias` keeps the alias table well formed |
| OcrAliases.RegisteredTypes | policy_core/ocr/workflow.py:269-281 | after registering, the key names every type it named before and every known type given, and no other |
| OcrAliases.KnownTypes | policy_core/ocr/workflow.py:273-275 | the known definitions name exactly the given names the table knows |
| OcrAliases.SetDefaultAllFacts | policy_core/ocr/workflow.py:424-425 | `setdefault` never repeats a type and takes only given definitions |
| OcrAliases.CollectedFacts | policy_core/ocr/workflow.py:420-426 | collecting by substring never repeats a type and takes only definitions of the table |
| OcrAliases.OptionsFacts | policy_core/ocr/workflow.py:418-426 | a label's candidates are definitions of the table, none repeated |
| OcrWorkflow.TableFacts | policy_core/ocr/workflow.py:255-267 | `_build_definitions` files every definition under its own type, and with distinct types holds each of them |
| OcrWorkflow.DefinitionAliases | policy_core/ocr/workflow.py:246-248 | two aliases per definition: its label and its cleaned label |
| OcrWorkflow.RegisteredKeeps | policy_core/ocr/workflow.py:278-281 | registering never drops a definition from a key that had it |
| OcrWorkflow.RegisteredAdds | policy_core/ocr/workflow.py:269-281 | registering a label for a type's definition files it under the label's key |
| OcrWorkflow.MatchesBy | policy_core/ocr/workflow.py:436-440 | the matches of the options, in option order, no more than the options |
| OcrWorkflow.MatchesByEmpty | policy_core/ocr/workflow.py:436-443 | no matches exactly when no option matches |
| OcrWorkflow.Matches | policy_core/ocr/workflow.py:436-440 | each match is an option with a value it allows |
| OcrWorkflow.MatchesEmpty | policy_core/ocr/workflow.py:436-443 | some option matches exactly when the list of matches is not empty |
| OcrWorkflow.ResolveFacts | policy_core/ocr/workflow.py:413-446 | a resolved value comes with its text and a definition that allows it; the definition is one of the label's candidates and the table's own; with several candidates a definition comes only with a value |
| OcrWorkflow.ResolveUnknown | policy_core/ocr/workflow.py:428-443 | no definition exactly when the label has no candidate, or several of which none matches |
| OcrWorkflow.Texts | policy_core/ocr/workflow.py:363 | the texts of a row's boxes, in order |
| OcrWorkflow.OrNone | policy_core/ocr/workflow.py:377-379 | `text or None` is none exactly for the empty text |
| OcrWorkflow.ReadSlotFacts | policy_core/ocr/workflow.py:363-389 | a read slot is consistent, and sound when its definition allows its value and is the table's |
| OcrWorkflow.RowSlotFacts | policy_core/ocr/workflow.py:297-389 | a row gives no slot exactly when it is empty; a slot is consistent and sound |
| OcrWorkflow.RowSlots | policy_core/ocr/workflow.py:297 | the slot of each row, numbered by row |
| OcrWorkflow.Gather | policy_core/ocr/workflow.py:297-389 | the slots from row `i` on, up to and including the first pending or locked one |
| OcrWorkflow.Padding | policy_core/ocr/workflow.py:391-409 | the padding: `count` missing slots numbered on from `from` |
| OcrWorkflow.ReadSlots | policy_core/ocr/workflow.py:297 | at most `max_slots` slots are read |
| OcrWorkflow.RowSlotsFacts | policy_core/ocr/workflow.py:297-389 | every row's slot is well read, none exactly for the empty rows |
| OcrWorkflow.GatherFacts | policy_core/ocr/workflow.py:297-389 | the gathered slots are well read, and numbered by position when no row is empty |
| OcrWorkflow.GatherSkip | policy_core/ocr/workflow.py:298-299 | an empty row is skipped |
| OcrWorkflow.GatherStep | policy_core/ocr/workflow.py:322-361 | a pending or locked slot ends the gathering; any other goes on |
| OcrWorkflow.AssembledShape | policy_core/ocr/workflow.py:391-409 | the result has `max_slots` slots: those read, then padding numbered on by position |
| OcrWorkflow.WorkflowShape | policy_core/ocr/workflow.py:293-411 | `slots`, `buff_types` and `buff_values` each have `max_slots` entries, each type and value its slot's |
| OcrWorkflow.WorkflowSlots | policy_core/ocr/workflow.py:368-409 | a slot has a buff type exactly when its status is "buff", and then an allowed value of that type; the missing slots are the padding |
| OcrWorkflow.WorkflowStops | policy_core/ocr/workflow.py:322-392 | after the first pending or locked slot only padding follows |
| OcrWorkflow.WorkflowIndices | policy_core/ocr/workflow.py:391-395 | with no empty row, every slot's index is its position (before the padding each slot takes its index from the row enumeration at line 297) |
| OcrWorkflow.Tolerance | policy_core/ocr/workflow.py:290 | `max(12.0, height * row_tolerance_ratio)` is at least both and one of them |
| OcrWorkflow.RegisteredKeepsLabels | policy_core/ocr/workflow.py:278-281 | registering keeps every definition under its label's key |
| OcrWorkflow.RegisterAllPair | policy_core/ocr/workflow.py:246-248 | registering two aliases after a list is registering the list extended by both |
| OcrWorkflow.RegisterAllValid | policy_core/ocr/workflow.py:245-253 | any list of aliases registered from nothing leaves a well-formed table |
| OcrWorkflow.RegisterAllKeeps | policy_core/ocr/workflow.py:250-253 | registering more aliases never takes a definition from its label |
| OcrWorkflow.OwnLabel | policy_core/ocr/workflow.py:247-248 | registering a definition's label and cleaned label files it under its label's key |
| OcrWorkflow.DefinitionLabels | policy_core/ocr/workflow.py:246-248 | after the labels are registered each definition is under its label's key |
| OcrWorkflow.InitialLabels | policy_core/ocr/workflow.py:244-253 | start-up files every definition under its own label's key |
| OcrWorkflow.MergeDefinitions | policy_core/ocr/workflow.py:278-280 | the merge loop: each definition replaces the one of its type, or is appended |
| OcrWorkflow.BuffWorkflow.constructor | policy_core/ocr/workflow.py:233-253 | the limits clamped to at least 1 and 0; the table of definitions; the aliases of start-up; each definition under its label's key |
| OcrWorkflow.BuffWorkflow.RegisterAmbiguous | policy_core/ocr/workflow.py:250-253 | the three ambiguous labels are registered last |
| OcrWorkflow.BuffWorkflow.RegisterAlias | policy_core/ocr/workflow.py:269-281 | `_register_alias` merges the table's definitions of the given types under the key; a blank key or no known type changes nothing |
| OcrWorkflow.BuffWorkflow.SetDefaults | policy_core/ocr/workflow.py:424-425 | the `setdefault` loop as defined |
| OcrWorkflow.BuffWorkflow.CollectOptions | policy_core/ocr/workflow.py:420-426 | the definitions of every alias key inside the label's key, first of each type |
| OcrWorkflow.BuffWorkflow.CollectMatches | policy_core/ocr/workflow.py:436-440 | every option whose value matches, with its reading |
| OcrWorkflow.BuffWorkflow.ResolveDefinition | policy_core/ocr/workflow.py:413-446 | `_resolve_definition` as `Resolve` says; a value only with a definition that allows it, and a definition only from the table |
| OcrWorkflow.BuffWorkflow.ReadRow | policy_core/ocr/workflow.py:300-389 | a non-empty row gives its slot |
| OcrWorkflow.BuffWorkflow.ReadRows | policy_core/ocr/workflow.py:297-389 | the row loop gives the read slots, each type and value beside its slot |
| OcrWorkflow.BuffWorkflow.Record | policy_core/ocr/workflow.py:318-389 | a slot is appended with its type and value; the loop stops exactly at a pending or locked slot |
| OcrWorkflow.BuffWorkflow.AssembleSlots | policy_core/ocr/workflow.py:293-411 | the slots read, then missing slots up to `max_slots` |
| OcrWorkflow.BuffWorkflow.ProcessImage | policy_core/ocr/workflow.py:283-411 | nothing for no detections; otherwise the rows grouped with tolerance `max(12, height * ratio)`, assembled into exactly `max_slots` slots, `buff_types` and `buff_values`, each slot's index its position |

## Left out

- Floating point: every `f64` is an exact `real`, so rounding errors, overflow to infinity and the order of floating-point sums are not modelled. Inputs that the source tests with `is_finite` or `is_nan` are `F64` values, so NaN and the infinities are modelled where the source checks for them.
- Base.Round: it models `f64::round` on an exact real, with halves rounded away from zero. Python's `ROUND_HALF_UP` on a `Decimal` follows the same rule, so the OCR model uses it too.
- Scores are `nat` rather than `u16` or `u32`. Each narrowing, saturation and overflow the source performs is written out: `SaturateU16`, `LegacyTarget`, `HostValidators.SumSelectedScores` and the `u16` checks of both constructors. Any other sum is proved to stay in range.
- HashMap and BTreeMap are sequences in iteration order. `HostValidators.BuildWeightArray` takes the map as its entries in iteration order. A BTreeMap is a sequence sorted by key.
- HostValidators.BuildWeightArray: the map's iteration order is an input. With two bad entries, which error is reported depends on that order, and the model reports the first in the order given.
- HostValidators.ScoreFromSelectedBuffs: buff values are finite reals, and the scorer's per-buff score is then finite and non-negative. The "Invalid per-buff score" branch (`apps/desktop/src-tauri/src/main.rs:386-388` and `399-401`) can therefore never be taken and is not modelled.
- The Tauri commands, `AppState`, the serde structures, `build_default_weight_map` and the `default_*` constants of `apps/desktop/src-tauri/src/main.rs` are host glue. Only `default_reroll_top_k`, which the top-k clamp uses, is modelled.
- `lambda_search` of the newer solver (`rust/src/upgrade_policy.rs:484-551`) is not modelled. It is an Illinois regula falsi over floating-point numbers, and neither its convergence nor the optimality of the lambda it finds is stated. Its building blocks are modelled: `UpgradePolicy.UpgradePolicySolver.DerivePolicyAtLambda` and `RootAdvantage`.
- LegacySolver.PolicySolver.BracketLambda: only the input normalisation and the bracket doubling of `lambda_search` are modelled (`rust/src/solver.rs:183-206`). The regula-falsi iteration that follows (lines 208-248) is not, and the method ends with `Bracketed` where that iteration would start.
- LegacySolver.PolicySolver.ExpandBracket: the doubling loop is modelled. The root finding the bracket feeds is not.
- LegacySolver.PolicySolver: the older solver wraps an instance of the newer engine for its caches and its value recursion. Those are `clear_caches`, `cache_set`, `value_rec` and `expected_resources_rec` of `rust/src/solver.rs`, and `MaskCache` and `best_case_remaining_score` of `rust/src/solver/solver_mask.rs`. The two generations use the same mask table (`LegacyTableIsPartialTable`, `SameMaskSpace`) and the same cache layout. The older code's recursion is taken to be the newer one's rather than re-modelled line by line. The behaviour where the two differ is modelled separately: the constructor, the cast target, the memo layout and the success-probability key.
- LegacySolver.New: a PMF count other than 13, an overflowing best case and an empty PMF are all modelled as `Panic`. The model assumes a build with overflow checks. A release build would wrap instead, and that is not modelled. Probabilities are not validated by the older code, and the model reads a non-finite one as 0 where the older code would carry the NaN or infinity through.
- ExpectedCost and UpgradePolicy.UpgradePolicySolver.CalculateExpectedResources: the memo layout, the base cases and the walk are modelled. That the numbers are the true expectations of the policy is not proved.
- RerollPolicy.RerollPolicySolver.DerivePolicy: the convergence of the value iteration is not proved. The contract states the outcome in terms of the iterates and the stopping test, and the iterates are proved grounded, monotone and settled.
- RerollPolicy.RerollPolicySolver.BellmanPass: the rayon parallel map and the `reduce(max)` run as a sequential loop. Over exact reals the order does not change the result. The same holds for `LockProbability`, `BuildLockSuccessProbabilityCache` and `AllStateChoices`.
- CleanupValueToken: Unicode NFKC normalisation is not modelled. The text is taken as already normalised, and the other replacements of the cleanup are modelled exactly.
- CleanupBuffType: NFKC normalisation is not modelled, so the text is taken as already normalised.
- NormalizeLabelKey: NFKC normalisation is not modelled, so the text is taken as already normalised.
- OcrValues.ValueCandidateList: the NFKC step is not modelled, and the text is taken as already normalised. The replacement of carriage returns and `str.splitlines` are modelled.
- OcrValues.ParseDecimal reads only finite literals. On the paths below the source raises an exception out of `process_image`:
  - `inf` and `Infinity` make `int(value)` raise `OverflowError` at `policy_core/ocr/workflow.py:138`. The model reads no number there.
  - `snan` makes `to_integral_value` raise `InvalidOperation` at line 137, outside the `try`. The model reads no number there.
  - `nan` makes `int(scaled)` raise `ValueError` at line 141. The model reads no number there.
  - `quantize` at line 140 raises when the rounded `value * 10` needs more than 28 digits, that is from about `|value| >= 10^27`. The model has no precision limit. It reads `"1e27"` as flat 10^27 and percent 10^28, as `OcrValues.PowerOfTenRead` states.

  As in `Decimal`, the text is stripped of white space at both ends and then every underscore is dropped, wherever it stands.

  Further differences on the accepting side:
  - only ASCII digits are read;
  - the model does not round `value * 10` to the 28 digits of the `Decimal` context before `quantize`. So `0.04` followed by thirty 9s reads as 0 tenths in the model, where the source rounds `value * 10` to 0.5 and then to 1 tenth.
- OcrValues.UnderscoresIgnored: stated only for a text without white space. `Decimal` strips before it drops underscores, so `_ 5` is no number while ` 5` is 5, as `OcrValues.StripBeforeUnderscores` states.
- OcrValues.PlainParse: requires no white space at either end, because `Decimal` strips it and the magnitude of the unstripped text would not be read.
- ExpectedCost.Stochastic: the bounds built on it assume that each PMF's probabilities add up to at most 1 exactly. These are the [0, 1] bounds of `ExpectedCost.OutcomeBounded` and `UpgradePolicy.UpgradePolicySolver.SuccessProbabilityInRange`, and, through the same hypothesis, the bound of 1000 in `PolicyValue.ValueAtMostReward`. `new` accepts any sum within `PMF_SUM_TOL = 1e-9` of 1 (`rust/src/upgrade_policy.rs:332` and 354), so a sum slightly above 1 is outside these lemmas.
- OcrText.LockAt: the `\d` of `_LOCK_PATTERN` is read as ASCII digits only, and so is every match `LockRequirement` reports. Python also matches other Unicode decimal digits there.
- OcrText.HasPendingMarker: the regular expressions are modelled as the fixed character patterns they spell out, with no general regex engine.
- OcrMatch.MatchValue: `allowed_values` is a `frozenset`, and it is modelled as a sequence in iteration order. `min` breaks ties between equally near allowed values by the first in that order, and the real order of a Python `frozenset` is not modelled.
- OcrWorkflow.BuffWorkflow.ProcessImage: `_image_to_rgb`, `run_ocr` and `_detections_from_result` are left out. The image height and the list of detections are parameters. The filtering of malformed OCR entries and the computation of box centres are therefore not modelled.
- OcrWorkflow.BuffWorkflow.constructor: the OCR engine and `get_ocr_engine` are not modelled. `policy_core/data.py` is not part of this model, so the definitions `_build_definitions` makes from it are a constructor parameter. The only requirement on them is that no type repeats, as in a dictionary keyed by type.
- `BuffWorkflowResult.to_ui_payload` (`policy_core/ocr/workflow.py:68`) is a serialisation for the interface and is not modelled.
- `BuffDefinition.label` is called `displayLabel`, because `label` is a reserved word in Dafny.

## Findings

| source | as written | input that shows it | evidently intended | confidence | as-written member | corrected member |
|---|---|---|---|---|---|---|
| rust/src/solver.rs:153 | `get_success_prob` reads the memo at `score.min(self.target_score)`. `expected_resources_rec` writes it at `score - cut_off_s` (line 448), and the entry holds `target_score - cut_off_s + 1` states (line 369). | A partial mask whose cut-off is 50, a target of 100, and a continuing score of 60: the key is 60, past the end of the 51 states, so the read panics. The intended key is 10. | read at `score - cut_off_s`, the key the memo is written with; the keys agree only when the cut-off is 0 (`KeysAgreeOnlyAtZeroCutOff`) | not executed | LegacySolver.PolicySolver.GetSuccessProbAsWritten, LegacySolver.PolicySolver.AsWrittenPanics, LegacySolver.AsWrittenKeyPastEnd | LegacySolver.PolicySolver.GetSuccessProb, LegacySolver.PolicySolver.SuccessProbAgrees |
